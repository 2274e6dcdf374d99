/**
 Grouped queries without aggregates, for all data and all meanings: where a computed column may take
 the name of a column that the query reads.
 */
module KeyShadow {
  import opened Wrappers
  import opened Sequences
  import opened Ast
  import opened Aggregates
  import opened Walkers
  import opened FanOut
  import opened Query
  import opened Locality
  import opened Merge
  import opened Rewrite
  import opened OrderOnly
  import opened Placement
  import opened Grouping
  import opened GroupOrder
  import opened GroupRanks
  import opened Shadow
  import opened DistinctCounts

  /** Grouped by row-level expressions, ordered by them, and without HAVING. */
  ghost predicate KeyRows(q: Select, cols: seq<string>) {
    && KeyQuery(q) && AllScalar(OrderTerms(q)) && q.having == None
    && Valid(q) && forall n <- QueryRefs(q) :: n in cols
  }

  // ----- what such a query reads ------------------------------------------------------------

  /** A row-level expression of a group reads what GROUP BY reads. */
  lemma {:induction false} GroupedRefs(e: Expr, groupBy: seq<Expr>)
    requires Grouped(e, groupBy) && Scalar(e)
    ensures Refs(e) <= RefsIn(groupBy)
    decreases e, 0
  {
    hide IsScatterGather;
    if e in groupBy {
      var i :| 0 <= i < |groupBy| && groupBy[i] == e;
      RefsInMember(groupBy, i);
    } else {
      match e
      case Binary(_, l, r) =>
        GroupedRefs(l, groupBy);
        GroupedRefs(r, groupBy);
      case Unary(_, a) => GroupedRefs(a, groupBy);
      case Call(_, args, _, _, _, _, _, _) => AllGroupedRefs(args, groupBy);
      case Other(_, _, es) => AllGroupedRefs(es, groupBy);
      case _ =>
    }
  }

  lemma {:induction false} AllGroupedRefs(es: seq<Expr>, groupBy: seq<Expr>)
    requires AllGrouped(es, groupBy) && AllScalar(es)
    ensures RefsIn(es) <= RefsIn(groupBy)
    decreases es, 0
  {
    hide IsScatterGather;
    if es == [] {
    } else {
      GroupedRefs(es[0], groupBy);
      AllGroupedRefs(es[1..], groupBy);
    }
  }

  /** Where the name of a column is seen: DISTINCT hides how the rows were grouped. */
  function Seen(q: Select): set<string> {
    RefsIn(ColumnExprs(q.columns)) + RefsIn(OptionExprs(q.where)) + if q.distinct then {} else RefsIn(q.groupBy)
  }

  lemma SeenIsAll(q: Select, cols: seq<string>)
    requires KeyRows(q, cols) && !q.distinct
    ensures Seen(q) == QueryRefs(q)
  {
    hide IsScatterGather, OrderTerms;
    AllGroupedRefs(OrderTerms(q), q.groupBy);
    AllGroupedRefs(ColumnExprs(q.columns), q.groupBy);
  }

  // ----- DISTINCT: grouping drops what DISTINCT drops anyway --------------------------------

  function Ungrouped(q: Select): Select { q.(groupBy := []) }

  lemma LineOfRow(I: Meaning, q: Select, row: Row)
    requires KeyQuery(q) && AllScalar(OrderTerms(q)) && Valid(q)
    ensures KeyLine(I, q, EvalAll(I, q.groupBy, row)) == RowItem(I, Ungrouped(q), row)
  {
    hide IsScatterGather;
    assert OrderTerms(Ungrouped(q)) == OrderTerms(q);
    EvalAllByKey(I, OrderTerms(q), q.groupBy, row, []);
    EvalAllByKey(I, ColumnExprs(q.columns), q.groupBy, row, []);
  }

  lemma AllHeld(I: Meaning, q: Select, keys: seq<seq<Value>>)
    requires q.having == None && forall i :: 0 <= i < |keys| ==> |keys[i]| == |q.groupBy|
    ensures Held(I, q, keys) == keys
  {
    hide IsScatterGather, EvalGroup, Held;
    forall k | k in keys ensures HeldKey(I, q, k) {
      var i :| 0 <= i < |keys| && keys[i] == k;
    }
    HeldAll(I, q, keys);
  }

  /** The lines of the groups, without repetitions, are those of the rows. */
  lemma DistinctLinesSame(I: Meaning, q: Select, rows: seq<Row>)
    requires KeyQuery(q) && AllScalar(OrderTerms(q)) && q.having == None && Valid(q)
    ensures Dedup(Lines(I, q, rows)) == Dedup(RowItems(I, Ungrouped(q), rows))
  {
    hide IsScatterGather, KeyQuery, OrderTerms, AllScalar, Valid, Lines, KeyLine, RowItem, Dedup, EvalAll;
    var keys := Keys(I, q.groupBy, rows);
    var line := (k: seq<Value>) => KeyLine(I, q, k);
    ScalarOrderByKey(I, q);
    LinesByKey(I, q, rows);
    DedupElements(keys);
    KeysSized(I, q, rows);
    AllHeld(I, q, Dedup(keys));
    DedupMap(line, keys);
    forall i | 0 <= i < |rows| ensures Map(line, keys)[i] == RowItems(I, Ungrouped(q), rows)[i] {
      LineOfRow(I, q, rows[i]);
    }
    assert Map(line, keys) == RowItems(I, Ungrouped(q), rows);
  }

  lemma KeysSized(I: Meaning, q: Select, rows: seq<Row>)
    ensures var keys := Dedup(Keys(I, q.groupBy, rows));
      forall i :: 0 <= i < |keys| ==> |keys[i]| == |q.groupBy|
  {
    hide Dedup;
    var keys := Keys(I, q.groupBy, rows);
    DedupElements(keys);
    forall k | k in Dedup(keys) ensures |k| == |q.groupBy| {
      var i :| 0 <= i < |keys| && keys[i] == k;
    }
  }

  lemma UngroupedIs(q: Select, cols: seq<string>)
    requires KeyRows(q, cols)
    ensures !IsGrouped(Ungrouped(q)) && Valid(Ungrouped(q)) && QueryRefs(Ungrouped(q)) <= QueryRefs(q)
    ensures q.distinct ==> QueryRefs(Ungrouped(q)) == Seen(q)
  {
    hide IsScatterGather;
    assert OrderTerms(Ungrouped(q)) == OrderTerms(q);
    if q.distinct {
      SelectedRefs(OrderTerms(q), ColumnExprs(q.columns));
    }
  }

  lemma DistinctExecutesSame(I: Meaning, q: Select, cols: seq<string>, rows: seq<Row>)
    requires KeyRows(q, cols) && q.distinct
    ensures Execute(I, q, rows) == Execute(I, Ungrouped(q), rows)
  {
    hide IsScatterGather, KeyQuery, OrderTerms, AllScalar, Valid, Dedup, RowItems, IsGrouped, Sort;
    var p := Passing(I, OptionExprs(q.where), rows);
    UngroupedIs(q, cols);
    DistinctLinesSame(I, q, p);
    assert Lines(I, Ungrouped(q), p) == RowItems(I, Ungrouped(q), p);
    assert Directions(Ungrouped(q)) == Directions(q);
  }

  /** The shards answer as if they did not group. */
  lemma {:induction false} UngroupedShardRows(I: Meaning, f: Select, cols: seq<string>, shards: seq<seq<Row>>)
    requires KeyRows(f, cols) && f.distinct
    ensures ShardRows(I, f, cols, OutputNames(f.columns), shards)
         == ShardRows(I, Ungrouped(f), cols, OutputNames(f.columns), shards)
  {
    hide IsScatterGather, KeyRows, Execute, Valid, QueryRefs, OrderTerms;
    if shards == [] {
    } else {
      KeyRowsRun(I, f, cols, shards[0]);
      DistinctExecutesSame(I, f, cols, shards[0]);
      UngroupedShardRows(I, f, cols, shards[1..]);
    }
  }

  lemma KeyRowsRun(I: Meaning, q: Select, cols: seq<string>, rows: seq<Row>)
    requires KeyRows(q, cols)
    ensures Run(I, q, Table(cols, rows)) == Success(Execute(I, q, rows))
    ensures Run(I, Ungrouped(q), Table(cols, rows)) == Success(Execute(I, Ungrouped(q), rows))
  {
    hide Execute, Valid, QueryRefs, AllScalar, OrderTerms;
    ExpandWithoutStar(q.columns, cols);
    UngroupedIs(q, cols);
    RunsPlain(I, q, cols, rows);
    RunsPlain(I, Ungrouped(q), cols, rows);
  }

  lemma UnorderedKeyRows(q: Select, cols: seq<string>)
    requires KeyRows(q, cols)
    ensures KeyRows(Unordered(q), cols)
  {
    hide IsScatterGather;
    assert OrderTerms(Unordered(q)) == [];
  }

  /** The names of the temporary table are distinct and cover what the query reads. */
  ghost predicate Carried(q: Select) {
    Distinct(OutputNames(q.columns)) && Covered(q.columns, QueryRefs(q))
  }

  lemma KeyRowsRerun(I: Meaning, q: Select, cols: seq<string>, rows: seq<Row>)
    requires KeyRows(q, cols) && Carried(q)
    ensures Run(I, q, Table(OutputNames(q.columns), rows)) == Success(Execute(I, q, rows))
  {
    hide IsScatterGather, Execute, Valid, QueryRefs, AllScalar, OrderTerms;
    ExpandWithoutStar(q.columns, OutputNames(q.columns));
    RunsPlain(I, q, OutputNames(q.columns), rows);
  }

  /** Once the shards have answered, the merge runs the query over the answers. */
  lemma KeyRowsGather(I: Meaning, q: Select, fanOut: Select, cols: seq<string>, shards: seq<seq<Row>>)
    requires Splits(q, fanOut, false) && KeyRows(q, cols) && Carried(q) && shards != []
    requires ShardRows(I, Unordered(q), cols, OutputNames(q.columns), shards).Success?
    ensures var loaded := ShardRows(I, Unordered(q), cols, OutputNames(q.columns), shards).value;
      ScatterGather(I, q, cols, shards) == Success(Execute(I, q, Flatten(loaded)))
    ensures Direct(I, q, cols, shards) == Success(Execute(I, q, Flatten(shards)))
  {
    hide IsScatterGather, SplitOf, Execute, Run, ShardRows, ScatterGather, Valid, QueryRefs, AllScalar, OrderTerms;
    hide Distinct;
    ExpandWithoutStar(q.columns, cols);
    ShardsRunUnordered(q, fanOut);
    assert AnswerNames(fanOut, cols) == OutputNames(q.columns);
    KeyRowsRerun(I, q, cols, Flatten(ShardRows(I, fanOut, cols, OutputNames(q.columns), shards).value));
    KeyRowsRun(I, q, cols, Flatten(shards));
    GatherRuns(I, q, fanOut, false, cols, shards);
  }

  lemma DistinctKeysAgree(I: Meaning, q: Select, fanOut: Select, cols: seq<string>, shards: seq<seq<Row>>)
    requires Splits(q, fanOut, false) && KeyRows(q, cols) && q.distinct && Carried(q) && shards != []
    requires NoShadow(q.columns, Seen(q))
    ensures SameAnswer(ScatterGather(I, q, cols, shards), Direct(I, q, cols, shards))
  {
    hide IsScatterGather, Execute, ScatterGather, Direct, Splits, KeyRows, Seen, NoShadow, ShardRows, Distinct, Dedup;
    var f, g, names := Unordered(q), Ungrouped(q), OutputNames(q.columns);
    UngroupedIs(q, cols);
    UnorderedKeyRows(q, cols);
    UngroupedShardRows(I, f, cols, shards);
    UngroupedReady(q, cols);
    ShardRowsDistinct(I, Ungrouped(f), cols, shards);
    var loaded := Flatten(ShardRows(I, f, cols, names, shards).value);
    LoadedRowsExecute(I, g, Ungrouped(f), loaded, Flatten(shards));
    KeyRowsGather(I, q, fanOut, cols, shards);
    DistinctExecutesSame(I, q, cols, loaded);
    DistinctExecutesSame(I, q, cols, Flatten(shards));
  }

  lemma UngroupedReady(q: Select, cols: seq<string>)
    requires KeyRows(q, cols)
    ensures var h := Ungrouped(Unordered(q)); Expand(h, cols) == h && Ready(h, cols)
    ensures AnswerNames(Ungrouped(Unordered(q)), cols) == OutputNames(q.columns)
  {
    hide IsScatterGather, Valid, QueryRefs, IsGrouped, OrderTerms;
    UnorderedKeyRows(q, cols);
    UngroupedIs(Unordered(q), cols);
    UnorderedRefs(q, cols);
    ExpandWithoutStar(q.columns, cols);
  }

  lemma UnorderedRefs(q: Select, cols: seq<string>)
    requires KeyRows(q, cols)
    ensures forall n <- QueryRefs(Unordered(q)) :: n in cols
  {
    hide QueryRefs;
    UnorderedKeyRows(q, cols);
  }

  // ----- one row ----------------------------------------------------------------------------

  lemma OneGroup(I: Meaning, q: Select, cols: seq<string>, row: Row)
    requires KeyRows(q, cols) && !Nothing(q)
    ensures Execute(I, q, [row])
         == if Holds(I, OptionExprs(q.where), row) then [EvalAll(I, ColumnExprs(q.columns), row)] else []
  {
    hide IsScatterGather, Valid, Holds, OrderTerms, EvalAll, Finish, QueryRefs, GroupItem, Members, Dedup;
    assert [row][1..] == [];
    var where := OptionExprs(q.where);
    assert Passing(I, where, [row]) == if Holds(I, where, row) then [row] else [];
    if Holds(I, where, row) {
      var key := EvalAll(I, q.groupBy, row);
      assert Keys(I, q.groupBy, [row]) == [key];
      DedupOfDistinct([key]);
      assert [key][1..] == [] && GroupItems(I, q, [], [row]) == [];
      var item := GroupItem(I, q, key, Members(I, q.groupBy, key, [row]));
      assert q.groupBy != [] && GroupKeys(I, q.groupBy, [row]) == [key];
      FirstItem(I, q, [key], [row]);
      assert GroupItems(I, q, [key], [row]) == [item];
      assert Lines(I, q, [row]) == [item];
      OutByKey(I, q, row, Members(I, q.groupBy, key, [row]));
      OneLine(I, q, item);
    } else {
      NoKeys(I, q.groupBy);
      assert Lines(I, q, []) == [];
      NoLine(I, q);
    }
  }

  /** Over one row the merge runs the query on its image, if it passed. */
  lemma OneMerged(I: Meaning, q: Select, fanOut: Select, cols: seq<string>, row: Row)
    requires Splits(q, fanOut, false) && KeyRows(q, cols) && Carried(q) && !Nothing(q)
    requires Holds(I, OptionExprs(q.where), row)
    ensures ScatterGather(I, q, cols, [[row]]) == Success(Execute(I, q, [Image(I, q, row)]))
    ensures Direct(I, q, cols, [[row]]) == Success([EvalAll(I, ColumnExprs(q.columns), row)])
  {
    hide IsScatterGather, Execute, ScatterGather, Direct, Splits, KeyRows, Carried, Holds, EvalAll, RowObject;
    var f, names := Unordered(q), OutputNames(q.columns);
    UnorderedKeyRows(q, cols);
    OneGroup(I, q, cols, row);
    OneGroup(I, f, cols, row);
    KeyRowsRun(I, f, cols, [row]);
    var out := EvalAll(I, ColumnExprs(q.columns), row);
    assert RowObjects(names, [out]) == [Image(I, q, row)];
    assert [[row]][1..] == [] && ShardRows(I, f, cols, names, []) == Success([]);
    assert ShardRows(I, f, cols, names, [[row]]) == Success([[Image(I, q, row)]] + []);
    KeyRowsGather(I, q, fanOut, cols, [[row]]);
    assert Flatten([[row]]) == [row] + Flatten([]) == [row];
    assert [[Image(I, q, row)]][1..] == [];
    assert Flatten([[Image(I, q, row)]]) == [Image(I, q, row)] + Flatten([]) == [Image(I, q, row)];
  }

  // ----- where shadowing shows --------------------------------------------------------------

  lemma KeyRowsScalar(q: Select, cols: seq<string>)
    requires KeyRows(q, cols)
    ensures AllScalar(ColumnExprs(q.columns)) && AllScalar(q.groupBy)
    ensures forall n <- RefsIn(ColumnExprs(q.columns)) + RefsIn(q.groupBy) + RefsIn(OptionExprs(q.where)) :: n in cols
  {
    hide AllScalar, OrderTerms;
  }

  /** A shadowed name in the SELECT list: one row comes back changed. */
  lemma KeyInColumns(q: Select, fanOut: Select, cols: seq<string>, i: nat)
    requires Splits(q, fanOut, false) && KeyRows(q, cols) && Carried(q) && !Nothing(q)
    requires ShadowedAt(q, i, RefsIn(ColumnExprs(q.columns)))
    ensures !AlwaysRight(q, cols)
  {
    hide IsScatterGather, ScatterGather, Direct, Execute, Image, Sample, Coded, Splits, KeyRows, Codes, Covered, Holds;
    var I, es, n := Coded(None, None), ColumnExprs(q.columns), OutputName(q.columns[i]);
    var row := Sample(cols, Clear(q.columns[i].expr), true);
    KeyRowsScalar(q, cols);
    AllPass(q, row);
    AllPass(q, Image(I, q, row));
    OneMerged(I, q, fanOut, cols, row);
    OneGroup(I, q, cols, Image(I, q, row));
    ImageMoves(q, i, cols, true);
    SampleIntegers(cols, Clear(q.columns[i].expr), true, RefsIn(es));
    EvalAllDiffers(es, n, row, Image(I, q, row));
    var direct, merged := [EvalAll(I, es, row)], [EvalAll(I, es, Image(I, q, row))];
    assert direct[0] != merged[0];
    assert !SameAnswer(ScatterGather(I, q, cols, [[row]]), Direct(I, q, cols, [[row]]));
  }

  /** A shadowed name in WHERE: the row that passed is dropped. */
  lemma KeyInWhere(q: Select, fanOut: Select, cols: seq<string>, i: nat)
    requires Splits(q, fanOut, false) && KeyRows(q, cols) && Carried(q) && !Nothing(q)
    requires ShadowedAt(q, i, RefsIn(OptionExprs(q.where)))
    ensures !AlwaysRight(q, cols)
  {
    hide IsScatterGather, ScatterGather, Direct, Execute, Image, Sample, Splits, KeyRows, Codes, Covered;
    var where := q.where.value;
    var row := Sample(cols, Clear(q.columns[i].expr), true);
    var pass := Some(Eval(Coded(None, None), where, row));
    var I := Coded(pass, None);
    var image := Image(I, q, row);
    KeyRowsScalar(q, cols);
    assert Valid(q) && forall n <- QueryRefs(q) :: n in cols by { KeyRowsValid(q, cols); }
    hide Valid, QueryRefs;
    WhereDiffers(q, i, cols);
    CodedImage(pass, None, q, row);
    CodedEval(pass, None, where, row);
    CodedEval(pass, None, where, image);
    assert OptionExprs(q.where)[0] == where;
    assert Holds(I, OptionExprs(q.where), row) && !Holds(I, OptionExprs(q.where), image);
    OneMerged(I, q, fanOut, cols, row);
    OneGroup(I, q, cols, image);
    assert !SameAnswer(ScatterGather(I, q, cols, [[row]]), Direct(I, q, cols, [[row]]));
  }

  lemma KeyRowsValid(q: Select, cols: seq<string>)
    requires KeyRows(q, cols)
    ensures Valid(q) && forall n <- QueryRefs(q) :: n in cols
  {
  }

  /** Room for two lines. */
  predicate Roomy(q: Select) { Unlimited(q) || q.limit.value.limit.value >= 2 }

  /** Two rows that differ in one column. */
  function Other(row: Row, n: string): Row { row[n := Null] }

  /** Two groups that are one on the temporary table. */
  lemma GroupsCollapse(I: Meaning, q: Select, fanOut: Select, cols: seq<string>, r: Row, s: Row)
    requires Splits(q, fanOut, false) && KeyRows(q, cols) && Carried(q) && !q.distinct && Roomy(q)
    requires Holds(I, OptionExprs(q.where), r) && Holds(I, OptionExprs(q.where), s)
    requires EvalAll(I, q.groupBy, r) != EvalAll(I, q.groupBy, s)
    requires EvalAll(I, ColumnExprs(q.columns), r) == EvalAll(I, ColumnExprs(q.columns), s)
    ensures var merged, direct := ScatterGather(I, q, cols, [[r, s]]), Direct(I, q, cols, [[r, s]]);
      merged.Success? && direct.Success? && |direct.value| == 2 && |merged.value| <= 1
  {
    hide IsScatterGather, Execute, ScatterGather, Direct, Splits, KeyRows, Carried, Holds, EvalAll, Roomy, Run;
    var f, names := Unordered(q), OutputNames(q.columns);
    var image := Image(I, q, r);
    UnorderedKeyRows(q, cols);
    TwoKeyed(I, f, cols, r, s);
    TwoKeyed(I, q, cols, r, s);
    assert Roomy(f) by { UnlimitedIsRoomy(f); }
    KeyRowsRun(I, f, cols, [r, s]);
    UnorderedTwo(I, q, cols, r, s);
    assert [[r, s]][1..] == [] && ShardRows(I, f, cols, names, []) == Success([]);
    assert ShardRows(I, f, cols, names, [[r, s]]) == Success([[image, image]] + []);
    KeyRowsGather(I, q, fanOut, cols, [[r, s]]);
    assert Flatten([[r, s]]) == [r, s] + Flatten([]) == [r, s];
    assert [[image, image]] + [] == [[image, image]] && [[image, image]][1..] == [];
    assert Flatten([[image, image]]) == [image, image] + Flatten([]) == [image, image];
    SameKeyed(I, q, cols, image);
  }

  lemma UnlimitedIsRoomy(q: Select)
    requires q.limit == None
    ensures Roomy(q)
  {
  }

  /** Two groups make two lines. */
  lemma TwoKeyed(I: Meaning, q: Select, cols: seq<string>, r: Row, s: Row)
    requires KeyRows(q, cols) && !q.distinct
    requires Holds(I, OptionExprs(q.where), r) && Holds(I, OptionExprs(q.where), s)
    requires EvalAll(I, q.groupBy, r) != EvalAll(I, q.groupBy, s)
    ensures Passing(I, OptionExprs(q.where), [r, s]) == [r, s]
    ensures |Lines(I, q, [r, s])| == 2
    ensures Lines(I, q, [r, s])[0].out == EvalAll(I, ColumnExprs(q.columns), r)
    ensures Lines(I, q, [r, s])[1].out == EvalAll(I, ColumnExprs(q.columns), s)
    ensures Roomy(q) ==> |Execute(I, q, [r, s])| == 2
  {
    hide IsScatterGather, Valid, Holds, OrderTerms, EvalAll, Lines, Finish, QueryRefs;
    PassingAll(I, OptionExprs(q.where), [r, s]);
    var k, l := EvalAll(I, q.groupBy, r), EvalAll(I, q.groupBy, s);
    assert [r] + [s] == [r, s] && Keyed(I, q.groupBy, [r], k) && Keyed(I, q.groupBy, [s], l);
    LinesOfTwo(I, q, [r], [s], k, l);
    OutByKey(I, q, r, [r]);
    OutByKey(I, q, s, [s]);
    if Roomy(q) {
      FinishShowsAll(I, q, Lines(I, q, [r, s]));
    }
  }

  lemma FinishShowsAll(I: Meaning, q: Select, lines: seq<Item>)
    requires !q.distinct && |lines| <= 2 && Roomy(q)
    ensures |Finish(I, q, lines)| == |lines|
  {
    hide Sort, Outs, Permuted;
    FinishShows(I, q, lines);
    SortPermutes(I, Directions(q), lines);
    var sorted := Arranged(I, q, lines);
    assert |sorted| == |multiset(sorted)| == |multiset(lines)| == |lines|;
  }

  lemma UnorderedTwo(I: Meaning, q: Select, cols: seq<string>, r: Row, s: Row)
    requires KeyRows(Unordered(q), cols) && !q.distinct
    requires Holds(I, OptionExprs(q.where), r) && Holds(I, OptionExprs(q.where), s)
    requires EvalAll(I, q.groupBy, r) != EvalAll(I, q.groupBy, s)
    requires EvalAll(I, ColumnExprs(q.columns), r) == EvalAll(I, ColumnExprs(q.columns), s)
    ensures RowObjects(OutputNames(q.columns), Execute(I, Unordered(q), [r, s])) == [Image(I, q, r), Image(I, q, r)]
  {
    hide IsScatterGather, KeyRows, Holds, EvalAll, Lines, RowObject;
    var f := Unordered(q);
    TwoKeyed(I, f, cols, r, s);
    FinishPlain(I, f, Lines(I, f, [r, s]));
  }

  /** Rows of one key make one line at most. */
  lemma SameKeyed(I: Meaning, q: Select, cols: seq<string>, row: Row)
    requires KeyRows(q, cols) && !q.distinct
    ensures |Execute(I, q, [row, row])| <= 1
  {
    hide IsScatterGather, Valid, Holds, OrderTerms, EvalAll, Lines, Finish, QueryRefs;
    var p := Passing(I, OptionExprs(q.where), [row, row]);
    PassedAreRows(I, OptionExprs(q.where), row);
    KeyedLines(I, q, p, EvalAll(I, q.groupBy, row));
    FinishFew(I, q, Lines(I, q, p));
  }

  lemma PassedAreRows(I: Meaning, conditions: seq<Expr>, row: Row)
    ensures forall i :: 0 <= i < |Passing(I, conditions, [row, row])| ==> Passing(I, conditions, [row, row])[i] == row
  {
    hide Holds;
    assert [row, row][1..] == [row] && [row][1..] == [];
    assert Passing(I, conditions, [row]) == (if Holds(I, conditions, row) then [row] else []) + [];
  }

  lemma KeyedLines(I: Meaning, q: Select, rows: seq<Row>, key: seq<Value>)
    requires q.groupBy != [] && Keyed(I, q.groupBy, rows, key)
    ensures |Lines(I, q, rows)| <= 1
  {
    hide IsScatterGather, EvalAll, GroupItems, Dedup;
    DedupOfSame(Keys(I, q.groupBy, rows), key);
    NoMoreItemsThanKeys(I, q, GroupKeys(I, q.groupBy, rows), rows);
  }

  lemma FinishFew(I: Meaning, q: Select, lines: seq<Item>)
    requires !q.distinct && |lines| <= 1
    ensures |Finish(I, q, lines)| <= 1
  {
    hide Sort;
    SortPermutes(I, Directions(q), lines);
    var sorted := Arranged(I, q, lines);
    assert |sorted| == |multiset(sorted)| == |multiset(lines)| == |lines|;
  }

  /** A shadowed name in GROUP BY only: two groups become one. */
  lemma KeyInGroups(q: Select, fanOut: Select, cols: seq<string>, n: string)
    requires Splits(q, fanOut, false) && KeyRows(q, cols) && Carried(q) && !q.distinct && Roomy(q)
    requires n in RefsIn(q.groupBy) && n !in RefsIn(ColumnExprs(q.columns))
    ensures !AlwaysRight(q, cols)
  {
    hide IsScatterGather, ScatterGather, Direct, Sample, Coded, Splits, KeyRows, Codes, Carried, Holds, Roomy;
    var I, r := Coded(None, None), Sample(cols, 0, true);
    var s := Other(r, n);
    KeyRowsScalar(q, cols);
    AllPass(q, r);
    AllPass(q, s);
    SampleIntegers(cols, 0, true, RefsIn(q.groupBy));
    EvalAllDiffers(q.groupBy, n, r, s);
    assert SameOn(RefsIn(ColumnExprs(q.columns)), r, s);
    EvalAllLocal(I, ColumnExprs(q.columns), r, s);
    GroupsCollapse(I, q, fanOut, cols, r, s);
    assert !SameAnswer(ScatterGather(I, q, cols, [[r, s]]), Direct(I, q, cols, [[r, s]]));
  }

  // ----- the theorem ------------------------------------------------------------------------

  lemma KeyNeedsCarried(q: Select, fanOut: Select, cols: seq<string>)
    requires Splits(q, fanOut, false) && KeyRows(q, cols) && AlwaysRight(q, cols)
    ensures Carried(q)
  {
    hide IsScatterGather, ScatterGather, Execute, Splits, Coded, QueryRefs, Distinct, Valid, AllScalar, OrderTerms;
    var I := Coded(None, None);
    ExpandWithoutStar(q.columns, cols);
    KeyRowsRun(I, q, cols, Flatten([[]]));
    assert SameAnswer(ScatterGather(I, q, cols, [[]]), Direct(I, q, cols, [[]]));
    MergedNeeds(I, q, fanOut, cols, [[]]);
  }

  lemma SeenShows(q: Select, fanOut: Select, cols: seq<string>)
    requires Splits(q, fanOut, false) && KeyRows(q, cols) && Carried(q) && Roomy(q) && !NoShadow(q.columns, Seen(q))
    ensures !AlwaysRight(q, cols)
  {
    hide IsScatterGather, AlwaysRight, Splits, KeyRows, Carried;
    assert !Nothing(q) by { RoomyIsSome(q); }
    var i: nat :| i < |q.columns| && OutputName(q.columns[i]) in Seen(q)
                  && q.columns[i].expr != Ref(OutputName(q.columns[i]));
    var n := OutputName(q.columns[i]);
    if n in RefsIn(ColumnExprs(q.columns)) {
      assert ShadowedAt(q, i, RefsIn(ColumnExprs(q.columns)));
      KeyInColumns(q, fanOut, cols, i);
    } else if n in RefsIn(OptionExprs(q.where)) {
      assert ShadowedAt(q, i, RefsIn(OptionExprs(q.where)));
      KeyInWhere(q, fanOut, cols, i);
    } else {
      KeyInGroups(q, fanOut, cols, n);
    }
  }

  lemma RoomyIsSome(q: Select)
    requires Roomy(q)
    ensures !Nothing(q)
  {
  }

  /**
   A grouped query that one database answers, without aggregates and HAVING and with room for two
   rows, is merged correctly for all rows on all shards and all meanings exactly when its output names
   are distinct and cover what it reads, and no computed column takes a name that the SELECT list or
   WHERE reads, or GROUP BY unless DISTINCT is there.
   */
  lemma KeyRowsExact(q: Select, fanOut: Select, cols: seq<string>)
    requires Splits(q, fanOut, false) && KeyRows(q, cols) && Roomy(q)
    ensures AlwaysRight(q, cols) <==> Carried(q) && NoShadow(q.columns, Seen(q))
  {
    hide IsScatterGather, ScatterGather, Direct, Splits, KeyRows, NoShadow, Carried, SameAnswer, Seen;
    if Carried(q) && NoShadow(q.columns, Seen(q)) {
      forall I, shards: seq<seq<Row>> | shards != []
        ensures SameAnswer(ScatterGather(I, q, cols, shards), Direct(I, q, cols, shards))
      {
        if q.distinct {
          DistinctKeysAgree(I, q, fanOut, cols, shards);
        } else {
          PlainKeysAgree(I, q, fanOut, cols, shards);
        }
      }
    } else if Carried(q) {
      SeenShows(q, fanOut, cols);
    } else if AlwaysRight(q, cols) {
      KeyNeedsCarried(q, fanOut, cols);
    }
  }

  lemma PlainKeysAgree(I: Meaning, q: Select, fanOut: Select, cols: seq<string>, shards: seq<seq<Row>>)
    requires Splits(q, fanOut, false) && KeyRows(q, cols) && !q.distinct && Carried(q) && shards != []
    requires NoShadow(q.columns, Seen(q))
    ensures SameAnswer(ScatterGather(I, q, cols, shards), Direct(I, q, cols, shards))
  {
    hide IsScatterGather, ScatterGather, Direct, Splits, NoShadow, Valid, QueryRefs, OrderTerms, Distinct, Covered;
    SeenIsAll(q, cols);
    KeyQueryExact(I, q, fanOut, cols, shards);
  }
}
