/** The merge with its loading step: what COPY does to empty text reaches the answer. */
module LoadedMerge {
  import opened Wrappers
  import opened Sequences
  import opened Ast
  import opened FanOut
  import opened Query
  import opened Locality
  import opened Merge
  import opened Rewrite
  import opened OrderOnly
  import opened Placement
  import opened GroupOrder
  import Load

  // ----- cells as they are loaded -----------------------------------------------------------

  /** A value as the text that the driver writes for it; only empty text is written as nothing. */
  function CellText(digits: int -> string, v: Value): Load.Cell {
    match v
    case Null => None
    case Text(s) => Some(s)
    case Bool(b) => Some(if b then "t" else "f")
    case Int(n) => Some(digits(n))
  }

  function RowText(digits: int -> string, row: Row): Load.Row { map n | n in row :: CellText(digits, row[n]) }

  function BlankedValue(v: Value): Value { if v == Text("") then Null else v }

  function BlankedCells(row: Row): Row { map n | n in row :: BlankedValue(row[n]) }

  /** The rows of the temporary table once they are loaded. */
  function LoadedRows(rows: seq<Row>, copyThreshold: real): seq<Row> {
    if |rows| as real >= copyThreshold then Map(BlankedCells, rows) else rows
  }

  /** They are what the loading strategies store, column by column. */
  lemma LoadedRowsAreStored(digits: int -> string, names: seq<string>, rows: seq<Row>, copyThreshold: real)
    requires forall n :: digits(n) != ""
    ensures var text := (row: Row) => RowText(digits, row);
      Load.Loaded(Load.TableOf(names, Map(text, rows)), copyThreshold)
      == Load.TableOf(names, Map(text, LoadedRows(rows, copyThreshold)))
  {
    var text := (row: Row) => RowText(digits, row);
    var table, blanked := Load.TableOf(names, Map(text, rows)), Load.TableOf(names, Map(text, Map(BlankedCells, rows)));
    forall i | 0 <= i < |rows| ensures Load.BlankedRow(table[i]) == blanked[i] {
      forall c | 0 <= c < |names| ensures Load.Blanked(table[i][c]) == blanked[i][c] {
      }
    }
    assert Load.BlankedTable(table) == blanked;
  }

  // ----- the merge --------------------------------------------------------------------------

  /** ScatterGather with the rows as they are after loading. */
  function LoadedGather(I: Meaning, q: Select, cols: seq<string>, shards: seq<seq<Row>>, copyThreshold: real)
    : Result<seq<seq<Value>>, MergeError>
  {
    var split := SplitOf(q);
    if split.Failure? then Failure(Refused(split.error))
    else if split.value.NoMerge? then Failure(NoMergeNeeded)
    else if shards == [] then Success([])  // no result has fields
    else
      var names := AnswerNames(split.value.fanOut, cols);
      var loaded := ShardRows(I, split.value.fanOut, cols, names, shards);
      if loaded.Failure? then Failure(ShardFailed(loaded.error))
      else if HasDuplicates(names) then Failure(DuplicateColumn)
      else
        var answer := Run(I, q, Table(names, LoadedRows(Flatten(loaded.value), copyThreshold)));
        if answer.Failure? then Failure(RerunFailed(answer.error)) else Success(answer.value)
  }

  ghost predicate NoEmptyText(rows: seq<Row>) {
    forall row <- rows :: forall n <- row :: row[n] != Text("")
  }

  lemma UnblankedRows(rows: seq<Row>)
    requires NoEmptyText(rows)
    ensures Map(BlankedCells, rows) == rows
  {
    forall i | 0 <= i < |rows| ensures BlankedCells(rows[i]) == rows[i] {
      assert rows[i] in rows;
      assert BlankedCells(rows[i]).Keys == rows[i].Keys;
    }
  }

  /** Loading does not show when COPY is not used, or no shard returns empty text. */
  lemma LoadingIsHarmless(I: Meaning, q: Select, fanOut: Select, hasAggregates: bool, cols: seq<string>,
                          shards: seq<seq<Row>>, copyThreshold: real)
    requires Splits(q, fanOut, hasAggregates)
    requires var loaded := ShardRows(I, fanOut, cols, AnswerNames(fanOut, cols), shards);
      loaded.Success? ==> |Flatten(loaded.value)| as real < copyThreshold || NoEmptyText(Flatten(loaded.value))
    ensures LoadedGather(I, q, cols, shards, copyThreshold) == ScatterGather(I, q, cols, shards)
  {
    hide SplitOf, Run, ShardRows, AnswerNames, NoEmptyText, BlankedCells;
    var loaded := ShardRows(I, fanOut, cols, AnswerNames(fanOut, cols), shards);
    if loaded.Success? && NoEmptyText(Flatten(loaded.value)) {
      UnblankedRows(Flatten(loaded.value));
    }
  }

  // ----- SELECT * with ORDER BY -------------------------------------------------------------

  /** `SELECT * FROM t ORDER BY ...`, with nothing to hide a row. */
  ghost predicate AllRows(q: Select, cols: seq<string>) {
    && q.columns == [Column(Ref(STAR), None)] && q.where == None && !q.distinct && Unlimited(q)
    && RowQuery(q, cols) && Distinct(cols) && STAR !in cols
  }

  /** The cells that are shown. */
  ghost predicate ShowsEmptyText(cols: seq<string>, rows: seq<Row>) {
    exists i, c :: 0 <= i < |rows| && 0 <= c < |cols| && Cell(rows[i], cols[c]) == Text("")
  }

  ghost predicate HoldsEmptyText(answer: seq<seq<Value>>) {
    exists out <- answer :: Text("") in out
  }

  /** What all the columns of a row show. */
  lemma {:induction false} StarShows(I: Meaning, cols: seq<string>, row: Row)
    ensures EvalAll(I, ColumnExprs(seq(|cols|, i requires 0 <= i < |cols| => RefColumn(cols[i]))), row)
         == Map(n => if n == STAR then Int(1) else Cell(row, n), cols)
  {
    var columns := seq(|cols|, i requires 0 <= i < |cols| => RefColumn(cols[i]));
    forall c | 0 <= c < |cols|
      ensures EvalAll(I, ColumnExprs(columns), row)[c] == if cols[c] == STAR then Int(1) else Cell(row, cols[c])
    {
      EvalAllAt(I, ColumnExprs(columns), row, c);
    }
  }

  /** What all the columns of the rows show. */
  function Shown(cols: seq<string>, rows: seq<Row>): seq<seq<Value>> {
    Map((row: Row) => Map(n => if n == STAR then Int(1) else Cell(row, n), cols), rows)
  }

  lemma ShownExactly(cols: seq<string>, rows: seq<Row>)
    requires STAR !in cols
    ensures HoldsEmptyText(Shown(cols, rows)) <==> ShowsEmptyText(cols, rows)
  {
    var shown := Shown(cols, rows);
    if HoldsEmptyText(shown) {
      var out :| out in shown && Text("") in out;
      var i :| 0 <= i < |rows| && shown[i] == out;
      var c :| 0 <= c < |cols| && out[c] == Text("");
      assert Cell(rows[i], cols[c]) == Text("");
    }
    if ShowsEmptyText(cols, rows) {
      var i, c :| 0 <= i < |rows| && 0 <= c < |cols| && Cell(rows[i], cols[c]) == Text("");
      assert cols[c] in cols;
      assert shown[i][c] == Text("") && shown[i] in shown;
    }
  }

  lemma LinesShow(I: Meaning, q: Select, cols: seq<string>, rows: seq<Row>)
    requires q.columns == [Column(Ref(STAR), None)]
    ensures Outs(RowItems(I, Expand(q, cols), rows)) == Shown(cols, rows)
  {
    hide OrderTerms;
    StarNames(cols);
    forall i | 0 <= i < |rows| ensures Outs(RowItems(I, Expand(q, cols), rows))[i] == Shown(cols, rows)[i] {
      StarShows(I, cols, rows[i]);
    }
  }

  /** An answer holds empty text exactly when a row does in some column. */
  lemma AnswerShows(I: Meaning, q: Select, cols: seq<string>, rows: seq<Row>)
    requires AllRows(q, cols)
    ensures HoldsEmptyText(Execute(I, Expand(q, cols), rows)) <==> ShowsEmptyText(cols, rows)
  {
    hide IsGrouped, Finish, Permuted, OrderTerms, RowQuery, Distinct, Unlimited, Shown, ShowsEmptyText, RowItems, Outs;
    var e := Expand(q, cols);
    PassingAll(I, [], rows);
    NotGrouped(q, cols);
    SameLimit(q, e);
    FinishShows(I, e, RowItems(I, e, rows));
    PermutedMembers(Execute(I, e, rows), Outs(RowItems(I, e, rows)));
    LinesShow(I, q, cols, rows);
    ShownExactly(cols, rows);
  }

  lemma NotGrouped(q: Select, cols: seq<string>)
    requires RowQuery(q, cols)
    ensures !IsGrouped(Expand(q, cols))
  {
  }

  lemma SameLimit(q: Select, e: Select)
    requires Unlimited(q) && e.limit == q.limit
    ensures Unlimited(e)
  {
  }

  lemma PermutedMembers<T>(s: seq<T>, t: seq<T>)
    requires Permuted(s, t)
    ensures forall x :: x in s <==> x in t
  {
    forall x ensures x in s <==> x in t {
      assert x in multiset(s) <==> x in multiset(t);
    }
  }

  /** The temporary table of `SELECT *` has the cells of the rows. */
  lemma ImageCells(I: Meaning, q: Select, cols: seq<string>, row: Row)
    requires AllRows(q, cols)
    ensures var image := Image(I, Expand(q, cols), row);
      forall n :: (n in image <==> n in cols) && (n in cols ==> Cell(image, n) == Cell(row, n))
  {
    hide IsGrouped;
    StarNames(cols);
    StarShows(I, cols, row);
    var e := Expand(q, cols);
    RowObjectCells(cols, EvalAll(I, ColumnExprs(e.columns), row));
    RowObjectKeys(cols, EvalAll(I, ColumnExprs(e.columns), row));
    var image := Image(I, e, row);
    forall n | n in cols ensures Cell(image, n) == Cell(row, n) {
      var i :| 0 <= i < |cols| && cols[i] == n;
      assert Cell(image, cols[i]) == EvalAll(I, ColumnExprs(e.columns), row)[i];
    }
  }

  lemma {:induction false} RowObjectKeys(names: seq<string>, out: seq<Value>)
    requires |names| == |out|
    ensures forall n :: n in RowObject(names, out) <==> n in names
  {
    if names == [] {
    } else {
      RowObjectKeys(names[..|names| - 1], out[..|names| - 1]);
      assert names == names[..|names| - 1] + [names[|names| - 1]];
    }
  }

  lemma BlankedCell(row: Row, n: string)
    ensures Cell(BlankedCells(row), n) == BlankedValue(Cell(row, n))
  {
  }

  lemma ImagesHold(I: Meaning, q: Select, cols: seq<string>, rows: seq<Row>)
    requires AllRows(q, cols)
    ensures NoEmptyText(Images(I, Expand(q, cols), rows)) <==> !ShowsEmptyText(cols, rows)
    ensures !ShowsEmptyText(cols, Map(BlankedCells, Images(I, Expand(q, cols), rows)))
  {
    hide AllRows, Image, BlankedCells;
    var e := Expand(q, cols);
    var images := Images(I, e, rows);
    forall i | 0 <= i < |rows|
      ensures forall n :: (n in images[i] <==> n in cols) && (n in cols ==> Cell(images[i], n) == Cell(rows[i], n))
    {
      ImageCells(I, q, cols, rows[i]);
    }
    if ShowsEmptyText(cols, rows) {
      var i, c :| 0 <= i < |rows| && 0 <= c < |cols| && Cell(rows[i], cols[c]) == Text("");
      assert cols[c] in cols && images[i] in images && images[i][cols[c]] == Text("");
    } else {
      forall image, n | image in images && n in image ensures image[n] != Text("") {
        var i :| 0 <= i < |images| && images[i] == image;
        var c :| 0 <= c < |cols| && cols[c] == n;
        assert Cell(images[i], n) == Cell(rows[i], cols[c]);
      }
    }
    forall i, c | 0 <= i < |images| && 0 <= c < |cols|
      ensures Cell(Map(BlankedCells, images)[i], cols[c]) != Text("")
    {
      BlankedCell(images[i], cols[c]);
    }
  }

  /**
   `SELECT * FROM t ORDER BY ...` with the loading step: the answer is right exactly when COPY is not
   used or no cell is empty text.
   */
  lemma StarLoadedExact(I: Meaning, q: Select, fanOut: Select, cols: seq<string>, shards: seq<seq<Row>>,
                        copyThreshold: real)
    requires Splits(q, fanOut, false) && AllRows(q, cols) && shards != [] && Direct(I, q, cols, shards).Success?
    ensures SameAnswer(LoadedGather(I, q, cols, shards, copyThreshold), Direct(I, q, cols, shards))
       <==> |Flatten(shards)| as real < copyThreshold || !ShowsEmptyText(cols, Flatten(shards))
  {
    hide SplitOf, IsGrouped, Valid, Execute, ShardRows, Images, NoEmptyText, QueryRefs, ShowsEmptyText, HoldsEmptyText;
    hide BlankedCells, Distinct, Unlimited, ScatterGather;
    var e, f, all := Expand(q, cols), Expand(fanOut, cols), Flatten(shards);
    StarNames(cols);
    ExpansionsAgree(q, fanOut, cols);
    RowShardsReady(q, fanOut, cols);
    NotDropped(I, f, shards);
    ShardRowsPlain(I, fanOut, cols, shards);
    PassingAll(I, [], all);
    ImagesOfSame(I, e, f, all);
    ImagesHold(I, q, cols, all);
    if |all| as real < copyThreshold || !ShowsEmptyText(cols, all) {
      LoadingIsHarmless(I, q, fanOut, false, cols, shards, copyThreshold);
      StarAlwaysAgrees(I, q, fanOut, cols, shards);
    } else {
      var stored := Map(BlankedCells, Images(I, e, all));
      AnswerShows(I, q, cols, all);
      AnswerShows(I, q, cols, stored);
      assert LoadedGather(I, q, cols, shards, copyThreshold).Success? ==>
          LoadedGather(I, q, cols, shards, copyThreshold).value == Execute(I, e, stored);
      assert Direct(I, q, cols, shards).value == Execute(I, e, all);
    }
  }

  lemma NotDropped(I: Meaning, e: Select, shards: seq<seq<Row>>)
    requires !e.distinct
    ensures NothingDropped(I, e, shards)
  {
  }

  lemma ImagesOfSame(I: Meaning, e: Select, f: Select, rows: seq<Row>)
    requires f.columns == e.columns
    ensures |Images(I, f, rows)| == |rows| && Images(I, f, rows) == Images(I, e, rows)
  {
  }
}
