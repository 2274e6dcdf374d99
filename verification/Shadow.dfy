/**
 Row-level queries for all data and all meanings: a computed column may take the name of a column
 that the query reads only where that cannot be seen.
 */
module Shadow {
  import opened Wrappers
  import opened Sequences
  import opened Ast
  import opened Aggregates
  import opened Walkers
  import opened FanOut
  import opened Query
  import opened Locality
  import opened Merge
  import opened Rewrite
  import opened OrderOnly
  import opened Placement

  // ----- a meaning in which different inputs have different results -------------------------

  function Code(v: Value): nat {
    match v
    case Int(k) => if k >= 0 then 2 * k + 1 else -2 * k
    case _ => 0
  }

  function Pair(x: nat, y: nat): nat { (x + y) * (x + y) + x }

  lemma PairInjective(x: nat, y: nat, x': nat, y': nat)
    requires Pair(x, y) == Pair(x', y')
    ensures x == x' && y == y'
  {
    if x + y < x' + y' {
      PairGrows(x, y, x', y');
    } else if x' + y' < x + y {
      PairGrows(x', y', x, y);
    }
  }

  lemma PairGrows(x: nat, y: nat, x': nat, y': nat)
    requires x + y < x' + y'
    ensures Pair(x, y) < Pair(x', y')
  {
    var a, b := x + y, x' + y';
    assert b * b >= (a + 1) * (a + 1);
    assert (a + 1) * (a + 1) == a * a + 2 * a + 1;
  }

  function Codes(vs: seq<Value>): nat {
    if vs == [] then 0 else Pair(Code(vs[0]), Codes(vs[1..]))
  }

  /**
   Operators and functions number their inputs. WHERE accepts every value, or only `pass`, and
   `top` comes after all other ORDER BY keys.
   */
  function Coded(pass: Option<Value>, top: Option<seq<Value>>): Meaning {
    Meaning(
      (op: string, l: Value, r: Value) => Int(Pair(Code(l), Code(r))),
      (op: string, v: Value) => Int(Code(v)),
      (name: string, vs: seq<Value>) => Int(Codes(vs)),
      (kind: string, vs: seq<Value>) => Int(Codes(vs)),
      (call: AggregateCall, inputs: seq<AggregateInput>) => Null,
      (v: Value) => pass == None || pass == Some(v),
      (directions: seq<string>, x: seq<Value>, y: seq<Value>) => top == Some(x) ==> top == Some(y))
  }

  /** The comparison sorts. */
  lemma CodedSorts(pass: Option<Value>, top: Option<seq<Value>>, directions: seq<string>)
    ensures TotalPreorder(Coded(pass, top), directions)
  {
  }

  /** Conditions and ORDER BY do not change what expressions are worth. */
  lemma {:induction false} CodedEval(pass: Option<Value>, top: Option<seq<Value>>, e: Expr, row: Row)
    ensures Eval(Coded(pass, top), e, row) == Eval(Coded(None, None), e, row)
    decreases e, 0
  {
    match e
    case Binary(_, l, r) =>
      CodedEval(pass, top, l, row);
      CodedEval(pass, top, r, row);
    case Unary(_, a) => CodedEval(pass, top, a, row);
    case Call(_, args, _, _, _, _, _, _) => CodedEvalAll(pass, top, args, row);
    case Other(_, _, es) => CodedEvalAll(pass, top, es, row);
    case _ =>
  }

  lemma {:induction false} CodedEvalAll(pass: Option<Value>, top: Option<seq<Value>>, es: seq<Expr>, row: Row)
    ensures EvalAll(Coded(pass, top), es, row) == EvalAll(Coded(None, None), es, row)
    decreases es, 0
  {
    if es == [] {
    } else {
      CodedEval(pass, top, es[0], row);
      CodedEvalAll(pass, top, es[1..], row);
    }
  }

  /** The columns that are mentioned hold integers. */
  ghost predicate Integers(names: set<string>, row: Row) {
    forall n <- names :: Cell(row, n).Int?
  }

  /** An expression tells apart two rows that differ in a column it mentions. */
  lemma {:induction false} EvalDiffers(e: Expr, n: string, r: Row, r': Row)
    requires Scalar(e) && n in Refs(e) && Integers(Refs(e), r) && Cell(r, n) != Cell(r', n)
    ensures Code(Eval(Coded(None, None), e, r)) != Code(Eval(Coded(None, None), e, r'))
    decreases e, 0
  {
    hide IsScatterGather, Pair;
    var I := Coded(None, None);
    match e
    case Ref(m) => assert Cell(r, m).Int?;
    case Binary(_, a, b) =>
      if n in Refs(a) {
        EvalDiffers(a, n, r, r');
      } else {
        EvalDiffers(b, n, r, r');
      }
      var x, y, x', y' := Code(Eval(I, a, r)), Code(Eval(I, b, r)), Code(Eval(I, a, r')), Code(Eval(I, b, r'));
      if Pair(x, y) == Pair(x', y') {
        PairInjective(x, y, x', y');
        assert false;
      }
    case Unary(_, a) => EvalDiffers(a, n, r, r');
    case Call(_, args, _, filter, orderBy, withinGroup, _, _) =>
      assert RefsIn(filter) == RefsIn(orderBy) == RefsIn(withinGroup) == {};
      EvalAllDiffers(args, n, r, r');
    case Other(_, _, es) => EvalAllDiffers(es, n, r, r');
  }

  lemma {:induction false} EvalAllDiffers(es: seq<Expr>, n: string, r: Row, r': Row)
    requires AllScalar(es) && n in RefsIn(es) && Integers(RefsIn(es), r) && Cell(r, n) != Cell(r', n)
    ensures Codes(EvalAll(Coded(None, None), es, r)) != Codes(EvalAll(Coded(None, None), es, r'))
    decreases es, 0
  {
    hide IsScatterGather, Pair;
    var I := Coded(None, None);
    if n in Refs(es[0]) {
      EvalDiffers(es[0], n, r, r');
    } else {
      EvalAllDiffers(es[1..], n, r, r');
    }
    var x, x' := Code(Eval(I, es[0], r)), Code(Eval(I, es[0], r'));
    var y, y' := Codes(EvalAll(I, es[1..], r)), Codes(EvalAll(I, es[1..], r'));
    assert EvalAll(I, es, r)[1..] == EvalAll(I, es[1..], r) && EvalAll(I, es, r')[1..] == EvalAll(I, es[1..], r');
    if Pair(x, y) == Pair(x', y') {
      PairInjective(x, y, x', y');
      assert false;
    }
  }

  // ----- sample rows ------------------------------------------------------------------------

  function At(cols: seq<string>, n: string): nat {
    if cols == [] || cols[0] == n then 0 else 1 + At(cols[1..], n)
  }

  lemma {:induction false} AtInjective(cols: seq<string>, n: string, m: string)
    requires n in cols && m in cols && At(cols, n) == At(cols, m)
    ensures n == m
  {
    if cols[0] == n || cols[0] == m {
    } else {
      AtInjective(cols[1..], n, m);
    }
  }

  /** A row with a different negative number in every column; the two sides differ in every column. */
  function Sample(cols: seq<string>, base: nat, left: bool): Row {
    map n | n in cols :: Int(-1 - base - 2 * At(cols, n) - (if left then 0 else 1))
  }

  /** How far below zero the sample has to start to avoid a constant. */
  function Clear(e: Expr): nat {
    if e.Const? && e.value.Int? && e.value.i < 0 then -e.value.i else 0
  }

  /** A computed column does not repeat the column whose name it takes. */
  lemma ColumnMoves(e: Expr, n: string, cols: seq<string>, left: bool)
    requires Scalar(e) && e != Ref(n) && Refs(e) <= (set m | m in cols) && n in cols
    ensures Eval(Coded(None, None), e, Sample(cols, Clear(e), left)) != Cell(Sample(cols, Clear(e), left), n)
  {
    hide IsScatterGather, Pair, Codes;
    match e
    case Ref(m) =>
      if m != STAR && At(cols, m) == At(cols, n) {
        AtInjective(cols, m, n);
      }
    case _ =>
  }

  // ----- executing on one or two rows -------------------------------------------------------

  /** LIMIT 0 */
  predicate Nothing(q: Select) {
    q.limit.Some? && q.limit.value.limit == Some(0)
  }

  lemma OneRow(I: Meaning, e: Select, row: Row)
    requires !IsGrouped(e) && !Nothing(e)
    ensures Holds(I, OptionExprs(e.where), row) ==> Execute(I, e, [row]) == [EvalAll(I, ColumnExprs(e.columns), row)]
    ensures !Holds(I, OptionExprs(e.where), row) ==> Execute(I, e, [row]) == []
  {
    hide IsScatterGather, IsGrouped, Holds, OrderTerms, RowItem, Finish;
    assert [row][1..] == [];
    assert Passing(I, OptionExprs(e.where), [row]) == if Holds(I, OptionExprs(e.where), row) then [row] else [];
    assert Lines(I, e, [row]) == [RowItem(I, e, row)] && Lines(I, e, []) == [];
    NoLine(I, e);
    OneLine(I, e, RowItem(I, e, row));
    OutOfRow(I, e, row);
  }

  lemma NoLine(I: Meaning, e: Select)
    ensures Finish(I, e, []) == []
  {
    assert Dedup<Item>([]) == [] && Sort(I, Directions(e), []) == [];
  }

  lemma OneLine(I: Meaning, e: Select, item: Item)
    requires !Nothing(e)
    ensures Finish(I, e, [item]) == [item.out]
  {
    hide Sort, InsertSorted;
    DedupOfDistinct([item]);
    OneSorted(I, Directions(e), item);
  }

  lemma OneSorted(I: Meaning, directions: seq<string>, item: Item)
    ensures Sort(I, directions, [item]) == [item]
  {
    assert [item][..0] == [] && Sort(I, directions, []) == [];
    assert Sort(I, directions, [item]) == InsertSorted(I, directions, [], item);
  }

  lemma OutOfRow(I: Meaning, e: Select, row: Row)
    ensures RowItem(I, e, row).out == EvalAll(I, ColumnExprs(e.columns), row)
  {
  }

  lemma TwoSorted(I: Meaning, directions: seq<string>, x: Item, y: Item)
    ensures Sort(I, directions, [x, y]) == if I.before(directions, x.order, y.order) then [x, y] else [y, x]
  {
    assert [x, y][..1] == [x] && [x][..0] == [];
    assert Sort(I, directions, [x]) == InsertSorted(I, directions, Sort(I, directions, []), x) == [x];
    assert InsertSorted(I, directions, [], y) == [y];
    assert Sort(I, directions, [x, y]) == InsertSorted(I, directions, [x], y);
  }

  /** Two lines, of which the comparison puts one first. */
  lemma TwoLines(I: Meaning, e: Select, x: Item, y: Item)
    requires !Nothing(e) && !e.distinct && e.orderBy != []
    ensures Finish(I, e, [x, y]) != []
    ensures Finish(I, e, [x, y])[0] == (if I.before(Directions(e), x.order, y.order) then x else y).out
  {
    hide Sort;
    TwoSorted(I, Directions(e), x, y);
  }

  lemma TwoRows(I: Meaning, e: Select, r: Row, s: Row)
    requires !IsGrouped(e) && !Nothing(e) && !e.distinct && e.orderBy != []
    requires Holds(I, OptionExprs(e.where), r) && Holds(I, OptionExprs(e.where), s)
    ensures var first := EvalAll(I, OrderTerms(e), r); var second := EvalAll(I, OrderTerms(e), s);
      && Execute(I, e, [r, s]) != []
      && Execute(I, e, [r, s])[0]
         == EvalAll(I, ColumnExprs(e.columns), if I.before(Directions(e), first, second) then r else s)
  {
    hide IsScatterGather, IsGrouped, Holds, OrderTerms, Finish;
    PassingAll(I, OptionExprs(e.where), [r, s]);
    var x, y := RowItem(I, e, r), RowItem(I, e, s);
    assert Lines(I, e, [r, s]) == [x, y];
    TwoLines(I, e, x, y);
  }

  // ----- the re-run sees the images ---------------------------------------------------------

  /** A row-level query that one database answers, with an answer that can be loaded. */
  ghost predicate Loadable(q: Select, fanOut: Select, cols: seq<string>) {
    var e := Expand(q, cols);
    && Splits(q, fanOut, false) && RowQuery(q, cols) && Valid(e) && (forall n <- QueryRefs(e) :: n in cols)
    && Distinct(OutputNames(e.columns)) && Covered(e.columns, QueryRefs(e))
  }

  lemma LoadedAreImages(I: Meaning, q: Select, fanOut: Select, cols: seq<string>, shards: seq<seq<Row>>)
    requires Loadable(q, fanOut, cols) && NothingDropped(I, Expand(fanOut, cols), shards) && shards != []
    ensures var e := Expand(q, cols); var passing := Passing(I, OptionExprs(e.where), Flatten(shards));
      ScatterGather(I, q, cols, shards) == Success(Execute(I, e, Images(I, e, passing)))
    ensures Direct(I, q, cols, shards) == Success(Execute(I, Expand(q, cols), Flatten(shards)))
  {
    hide IsScatterGather, SplitOf, Valid, IsGrouped, Execute, ShardRows, NothingDropped, Distinct, QueryRefs;
    var e, f := Expand(q, cols), Expand(fanOut, cols);
    ExpansionsAgree(q, fanOut, cols);
    RowShardsReady(q, fanOut, cols);
    ShardRowsPlain(I, fanOut, cols, shards);
    SameImages(I, e, f, Passing(I, OptionExprs(e.where), Flatten(shards)));
  }

  lemma MergedOnImages(I: Meaning, q: Select, fanOut: Select, cols: seq<string>, rows: seq<Row>)
    requires Loadable(q, fanOut, cols) && NothingDropped(I, Expand(fanOut, cols), [rows])
    ensures var e := Expand(q, cols); var passing := Passing(I, OptionExprs(e.where), rows);
      && ScatterGather(I, q, cols, [rows]) == Success(Execute(I, e, Images(I, e, passing)))
      && Direct(I, q, cols, [rows]) == Success(Execute(I, e, rows))
  {
    hide Loadable, NothingDropped, ScatterGather, Direct, Execute, Images, Passing, Expand;
    LoadedAreImages(I, q, fanOut, cols, [rows]);
    assert [rows][1..] == [] && Flatten([rows]) == rows + Flatten([]) == rows;
  }

  lemma SameImages(I: Meaning, e: Select, f: Select, rows: seq<Row>)
    requires f.columns == e.columns
    ensures Images(I, f, rows) == Images(I, e, rows)
  {
  }

  // ----- where shadowing shows --------------------------------------------------------------

  ghost predicate Shadows(c: Column, n: string) {
    OutputName(c) == n && c.expr != Ref(n)
  }

  /** The i-th column takes one of the names. */
  ghost predicate ShadowedAt(e: Select, i: nat, names: set<string>) {
    i < |e.columns| && Shadows(e.columns[i], OutputName(e.columns[i])) && OutputName(e.columns[i]) in names
  }

  /** The column's name is read, and means another value in the temporary table. */
  lemma ImageMoves(e: Select, i: nat, cols: seq<string>, left: bool)
    requires i < |e.columns| && AllScalar(ColumnExprs(e.columns)) && Distinct(OutputNames(e.columns))
    requires Shadows(e.columns[i], OutputName(e.columns[i])) && OutputName(e.columns[i]) in cols
    requires forall m <- RefsIn(ColumnExprs(e.columns)) :: m in cols
    ensures var row := Sample(cols, Clear(e.columns[i].expr), left); var n := OutputName(e.columns[i]);
      Cell(Image(Coded(None, None), e, row), n) != Cell(row, n)
  {
    hide IsScatterGather;
    var I, es := Coded(None, None), ColumnExprs(e.columns);
    var row, n := Sample(cols, Clear(es[i]), left), OutputName(e.columns[i]);
    AllScalarMember(es, es[i]);
    RefsInMember(es, i);
    ColumnMoves(es[i], n, cols, left);
    RowObjectCells(OutputNames(e.columns), EvalAll(I, es, row));
    EvalAllAt(I, es, row, i);
    assert OutputNames(e.columns)[i] == n;
  }

  lemma CodedImage(pass: Option<Value>, top: Option<seq<Value>>, e: Select, row: Row)
    ensures Image(Coded(pass, top), e, row) == Image(Coded(None, None), e, row)
  {
    hide Coded, RowObject;
    CodedEvalAll(pass, top, ColumnExprs(e.columns), row);
  }

  lemma SampleIntegers(cols: seq<string>, base: nat, left: bool, names: set<string>)
    requires forall n <- names :: n in cols
    ensures Integers(names, Sample(cols, base, left))
  {
  }

  /** The merge is right for all rows on all shards, whatever operators and comparisons mean. */
  ghost predicate AlwaysRight(q: Select, cols: seq<string>) {
    forall I, shards: seq<seq<Row>> :: shards != [] ==>
      SameAnswer(ScatterGather(I, q, cols, shards), Direct(I, q, cols, shards))
  }

  /** A shadowed name in the SELECT list: one row comes back changed. */
  lemma ShadowInColumns(q: Select, fanOut: Select, cols: seq<string>, i: nat)
    requires Loadable(q, fanOut, cols) && !Nothing(q) && i < |Expand(q, cols).columns|
    requires var e := Expand(q, cols); var n := OutputName(e.columns[i]);
      Shadows(e.columns[i], n) && n in RefsIn(ColumnExprs(e.columns)) && AllScalar(ColumnExprs(e.columns))
    ensures !AlwaysRight(q, cols)
  {
    hide IsScatterGather, ScatterGather, Direct, Valid, IsGrouped, Execute, Image, Sample, Coded, Splits;
    hide Codes, Covered;
    var e, I := Expand(q, cols), Coded(None, None);
    var es, n := ColumnExprs(e.columns), OutputName(e.columns[i]);
    var row := Sample(cols, Clear(e.columns[i].expr), true);
    AllPass(e, row);
    AllPass(e, Image(I, e, row));
    OneDropsNothing(I, Expand(fanOut, cols), row);
    MergedOnImages(I, q, fanOut, cols, [row]);
    PassingAll(I, OptionExprs(e.where), [row]);
    assert Images(I, e, [row]) == [Image(I, e, row)];
    OneRow(I, e, row);
    OneRow(I, e, Image(I, e, row));
    ImageMoves(e, i, cols, true);
    SampleIntegers(cols, Clear(e.columns[i].expr), true, RefsIn(es));
    EvalAllDiffers(es, n, row, Image(I, e, row));
    var direct, merged := [EvalAll(I, es, row)], [EvalAll(I, es, Image(I, e, row))];
    assert direct[0] != merged[0];
    assert !SameAnswer(ScatterGather(I, q, cols, [[row]]), Direct(I, q, cols, [[row]]));
  }

  lemma AllPass(e: Select, row: Row)
    ensures forall top :: Holds(Coded(None, top), OptionExprs(e.where), row)
  {
  }

  lemma OneDropsNothing(I: Meaning, e: Select, row: Row)
    ensures NothingDropped(I, e, [[row]])
  {
    hide Image, Holds;
    assert [row][1..] == [];
    assert |Passing(I, OptionExprs(e.where), [row])| <= 1;
  }

  /** A shadowed name in WHERE: the row that passed is dropped. */
  lemma ShadowInWhere(q: Select, fanOut: Select, cols: seq<string>, i: nat)
    requires Loadable(q, fanOut, cols) && !Nothing(q) && i < |Expand(q, cols).columns|
    requires var e := Expand(q, cols); var n := OutputName(e.columns[i]);
      Shadows(e.columns[i], n) && n in RefsIn(OptionExprs(e.where)) && AllScalar(ColumnExprs(e.columns))
    ensures !AlwaysRight(q, cols)
  {
    hide IsScatterGather, ScatterGather, Direct, Valid, IsGrouped, Execute, Image, Sample, Splits, Codes, Covered;
    var e := Expand(q, cols);
    var n, where := OutputName(e.columns[i]), e.where.value;
    var row := Sample(cols, Clear(e.columns[i].expr), true);
    var pass := Some(Eval(Coded(None, None), where, row));
    var I := Coded(pass, None);
    var image := Image(I, e, row);
    WhereDiffers(e, i, cols);
    CodedImage(pass, None, e, row);
    CodedEval(pass, None, where, row);
    CodedEval(pass, None, where, image);
    assert OptionExprs(e.where)[0] == where;
    assert Holds(I, OptionExprs(e.where), row) && !Holds(I, OptionExprs(e.where), image);
    OneDropsNothing(I, Expand(fanOut, cols), row);
    MergedOnImages(I, q, fanOut, cols, [row]);
    PassingAll(I, OptionExprs(e.where), [row]);
    assert Images(I, e, [row]) == [image];
    OneRow(I, e, row);
    OneRow(I, e, image);
    assert !SameAnswer(ScatterGather(I, q, cols, [[row]]), Direct(I, q, cols, [[row]]));
  }

  lemma WhereDiffers(e: Select, i: nat, cols: seq<string>)
    requires i < |e.columns| && AllScalar(ColumnExprs(e.columns)) && Distinct(OutputNames(e.columns)) && Valid(e)
    requires forall n <- QueryRefs(e) :: n in cols
    requires var n := OutputName(e.columns[i]); Shadows(e.columns[i], n) && n in RefsIn(OptionExprs(e.where))
    ensures var I := Coded(None, None); var row := Sample(cols, Clear(e.columns[i].expr), true);
      Eval(I, e.where.value, row) != Eval(I, e.where.value, Image(I, e, row))
  {
    hide IsScatterGather, IsGrouped, Image, Sample, Distinct, Coded;
    var where, n := e.where.value, OutputName(e.columns[i]);
    assert OptionExprs(e.where) == [where] && [where][1..] == [];
    assert RefsIn([where]) == Refs(where) + RefsIn([]);
    var row := Sample(cols, Clear(e.columns[i].expr), true);
    ImageMoves(e, i, cols, true);
    SampleIntegers(cols, Clear(e.columns[i].expr), true, Refs(where));
    EvalDiffers(where, n, row, Image(Coded(None, None), e, row));
  }

  /** Columns that read no shadowed name are the same on the images. */
  lemma ImageFixed(I: Meaning, e: Select, row: Row)
    requires Distinct(OutputNames(e.columns)) && Covered(e.columns, QueryRefs(e))
    requires NoShadow(e.columns, RefsIn(ColumnExprs(e.columns)))
    ensures EvalAll(I, ColumnExprs(e.columns), Image(I, e, row)) == EvalAll(I, ColumnExprs(e.columns), row)
  {
    hide Image, NoShadow, Distinct;
    var names := RefsIn(ColumnExprs(e.columns));
    StarNotReferenced(ColumnExprs(e.columns));
    ImageSame(I, e, names, row);
    EvalAllLocal(I, ColumnExprs(e.columns), row, Image(I, e, row));
  }

  lemma SidesDiffer(es: seq<Expr>, n: string, cols: seq<string>, base: nat)
    requires AllScalar(es) && n in RefsIn(es) && forall m <- RefsIn(es) :: m in cols
    ensures EvalAll(Coded(None, None), es, Sample(cols, base, true))
         != EvalAll(Coded(None, None), es, Sample(cols, base, false))
  {
    hide Coded, Codes;
    SampleIntegers(cols, base, true, RefsIn(es));
    EvalAllDiffers(es, n, Sample(cols, base, true), Sample(cols, base, false));
  }

  /** The largest key: it makes the direct order and the merged order differ. */
  function Top(first: seq<Value>, first': seq<Value>, second': seq<Value>): seq<Value> {
    if first' != second' then first' else first
  }

  /** A shadowed name in ORDER BY: two different rows come back in the other order. */
  lemma ShadowInOrder(q: Select, fanOut: Select, cols: seq<string>, i: nat)
    requires Loadable(q, fanOut, cols) && !Nothing(q) && !q.distinct && i < |Expand(q, cols).columns|
    requires var e := Expand(q, cols); var n := OutputName(e.columns[i]);
      && Shadows(e.columns[i], n) && n in RefsIn(OrderTerms(e))
      && RefsIn(ColumnExprs(e.columns)) != {} && NoShadow(e.columns, RefsIn(ColumnExprs(e.columns)))
    ensures !AlwaysRight(q, cols)
  {
    hide IsScatterGather, ScatterGather, Direct, Valid, IsGrouped, Execute, Image, Sample, Splits, Codes;
    hide Covered, OrderTerms;
    hide NoShadow, Distinct, Loadable, TotalPreorder, Nothing;
    var e, I0 := Expand(q, cols), Coded(None, None);
    var es, terms := ColumnExprs(e.columns), OrderTerms(e);
    var r, s := Sample(cols, Clear(es[i]), true), Sample(cols, Clear(es[i]), false);
    var r', s' := Image(I0, e, r), Image(I0, e, s);
    var top := Top(EvalAll(I0, terms, r), EvalAll(I0, terms, r'), EvalAll(I0, terms, s'));
    var I := Coded(None, Some(top));
    OrderFacts(q, fanOut, cols, i);
    TwoMerged(I, q, fanOut, cols, r, s);
    CodedImage(None, Some(top), e, r);
    CodedImage(None, Some(top), e, s);
    forall row
      ensures EvalAll(I, es, row) == EvalAll(I0, es, row) && EvalAll(I, terms, row) == EvalAll(I0, terms, row)
    {
      CodedEvalAll(None, Some(top), es, row);
      CodedEvalAll(None, Some(top), terms, row);
    }
    assert !SameAnswer(ScatterGather(I, q, cols, [[r, s]]), Direct(I, q, cols, [[r, s]]));
  }

  lemma OrderFacts(q: Select, fanOut: Select, cols: seq<string>, i: nat)
    requires Loadable(q, fanOut, cols) && i < |Expand(q, cols).columns|
    requires var e := Expand(q, cols); var n := OutputName(e.columns[i]);
      && Shadows(e.columns[i], n) && n in RefsIn(OrderTerms(e))
      && RefsIn(ColumnExprs(e.columns)) != {} && NoShadow(e.columns, RefsIn(ColumnExprs(e.columns)))
    ensures var e, I := Expand(q, cols), Coded(None, None);
      var es, terms := ColumnExprs(e.columns), OrderTerms(e);
      var r, s := Sample(cols, Clear(es[i]), true), Sample(cols, Clear(es[i]), false);
      var r', s' := Image(I, e, r), Image(I, e, s);
      && EvalAll(I, terms, r) != EvalAll(I, terms, r') && EvalAll(I, terms, r) != EvalAll(I, terms, s)
      && EvalAll(I, es, r') == EvalAll(I, es, r) != EvalAll(I, es, s) == EvalAll(I, es, s')
      && e.orderBy != []
  {
    hide IsScatterGather, Valid, Image, Sample, Splits, Codes, Covered, OrderTerms, Coded, NoShadow, Distinct;
    var e, I := Expand(q, cols), Coded(None, None);
    var es, terms, n := ColumnExprs(e.columns), OrderTerms(e), OutputName(e.columns[i]);
    var r, s := Sample(cols, Clear(es[i]), true), Sample(cols, Clear(es[i]), false);
    ImageMoves(e, i, cols, true);
    SampleIntegers(cols, Clear(es[i]), true, RefsIn(terms));
    EvalAllDiffers(terms, n, r, Image(I, e, r));
    SidesDiffer(terms, n, cols, Clear(es[i]));
    var m :| m in RefsIn(es);
    SidesDiffer(es, m, cols, Clear(es[i]));
    ImageFixed(I, e, r);
    ImageFixed(I, e, s);
  }

  lemma TwoMerged(I: Meaning, q: Select, fanOut: Select, cols: seq<string>, r: Row, s: Row)
    requires Loadable(q, fanOut, cols) && !Nothing(q) && !q.distinct && q.orderBy != []
    requires forall row :: Holds(I, OptionExprs(q.where), row)
    ensures var e := Expand(q, cols);
      var es, terms := ColumnExprs(e.columns), OrderTerms(e);
      var r', s' := Image(I, e, r), Image(I, e, s);
      var merged, direct := ScatterGather(I, q, cols, [[r, s]]), Direct(I, q, cols, [[r, s]]);
      && merged.Success? && merged.value != [] && direct.Success? && direct.value != []
      && direct.value[0]
         == EvalAll(I, es, if I.before(Directions(q), EvalAll(I, terms, r), EvalAll(I, terms, s)) then r else s)
      && merged.value[0]
         == EvalAll(I, es, if I.before(Directions(q), EvalAll(I, terms, r'), EvalAll(I, terms, s')) then r' else s')
  {
    hide IsScatterGather, ScatterGather, Direct, Valid, IsGrouped, Execute, Image, Splits, Covered;
    hide OrderTerms, Holds, Distinct;
    var e := Expand(q, cols);
    assert !Expand(fanOut, cols).distinct by { ExpansionsAgree(q, fanOut, cols); }
    MergedOnImages(I, q, fanOut, cols, [r, s]);
    PassingAll(I, OptionExprs(e.where), [r, s]);
    assert Images(I, e, [r, s]) == [Image(I, e, r), Image(I, e, s)];
    TwoRows(I, e, r, s);
    TwoRows(I, e, Image(I, e, r), Image(I, e, s));
  }

  // ----- where it does not show -------------------------------------------------------------

  function Repeat(v: seq<Value>, n: nat): seq<seq<Value>> { seq(n, _ => v) }

  lemma ConstantFinish(I: Meaning, e: Select, lines: seq<Item>, out: seq<Value>)
    requires !e.distinct && forall x <- lines :: x.out == out
    ensures Finish(I, e, lines)
         == Repeat(out, if !Unlimited(e) && e.limit.value.limit.value < |lines|
                        then e.limit.value.limit.value else |lines|)
  {
    hide Sort;
    var sorted := Arranged(I, e, lines);
    SortPermutes(I, Directions(e), lines);
    assert |sorted| == |multiset(sorted)| == |multiset(lines)| == |lines|;
    forall x | x in sorted ensures x.out == out {
      assert x in multiset(sorted);
      assert x in lines;
    }
  }

  /** A list of constants gives every row the same line, so neither order nor names matter. */
  lemma ConstantColumns(I: Meaning, e: Select, rows: seq<Row>)
    requires !IsGrouped(e) && !e.distinct && RefsIn(ColumnExprs(e.columns)) == {} == RefsIn(OptionExprs(e.where))
    ensures var passing := Passing(I, OptionExprs(e.where), rows);
      Execute(I, e, Images(I, e, passing)) == Execute(I, e, rows)
  {
    hide IsScatterGather, IsGrouped, Finish, Image, Holds, OrderTerms;
    var where, es := OptionExprs(e.where), ColumnExprs(e.columns);
    var passing := Passing(I, where, rows);
    var images := Images(I, e, passing);
    var out := EvalAll(I, es, map[]);
    PassingHolds(I, where, rows);
    forall i | 0 <= i < |images| ensures Holds(I, where, images[i]) {
      HoldsLocal(I, where, passing[i], images[i]);
    }
    PassingAll(I, where, images);
    forall row: Row ensures EvalAll(I, es, row) == out {
      EvalAllLocal(I, es, row, map[]);
    }
    ConstantFinish(I, e, RowItems(I, e, passing), out);
    ConstantFinish(I, e, RowItems(I, e, images), out);
  }

  /** No shadowed name is read where it could be seen. */
  ghost predicate Unshadowed(e: Select) {
    var listed := RefsIn(ColumnExprs(e.columns));
    && NoShadow(e.columns, listed + RefsIn(OptionExprs(e.where)))
    && (listed == {} || NoShadow(e.columns, RefsIn(OrderTerms(e))))
  }

  lemma RowQueryRefs(e: Select)
    requires Valid(e) && !IsGrouped(e)
    ensures QueryRefs(e) == RefsIn(ColumnExprs(e.columns)) + RefsIn(OptionExprs(e.where)) + RefsIn(OrderTerms(e))
    ensures AllScalar(ColumnExprs(e.columns)) && AllScalar(OrderTerms(e))
    ensures e.distinct ==> RefsIn(OrderTerms(e)) <= RefsIn(ColumnExprs(e.columns))
  {
    hide IsScatterGather, OrderTerms;
    if e.distinct {
      SelectedRefs(OrderTerms(e), ColumnExprs(e.columns));
    }
  }

  lemma {:induction false} SelectedRefs(es: seq<Expr>, columns: seq<Expr>)
    requires forall i :: 0 <= i < |es| ==> es[i] in columns
    ensures RefsIn(es) <= RefsIn(columns)
  {
    if es == [] {
    } else {
      var i :| 0 <= i < |columns| && columns[i] == es[0];
      RefsInMember(columns, i);
      SelectedRefs(es[1..], columns);
    }
  }

  lemma ConstantWhere(e: Select)
    requires Covered(e.columns, RefsIn(OptionExprs(e.where))) && NoShadow(e.columns, RefsIn(OptionExprs(e.where)))
    requires RefsIn(ColumnExprs(e.columns)) == {}
    ensures RefsIn(OptionExprs(e.where)) == {}
  {
    StarNotReferenced(OptionExprs(e.where));
    if n :| n in RefsIn(OptionExprs(e.where)) {
      var i :| 0 <= i < |e.columns| && OutputNames(e.columns)[i] == n;
      RefsInMember(ColumnExprs(e.columns), i);
      assert n in Refs(ColumnExprs(e.columns)[i]);
    }
  }

  lemma UnshadowedAgrees(I: Meaning, q: Select, fanOut: Select, cols: seq<string>, shards: seq<seq<Row>>)
    requires Loadable(q, fanOut, cols) && shards != [] && Unshadowed(Expand(q, cols))
    ensures SameAnswer(ScatterGather(I, q, cols, shards), Direct(I, q, cols, shards))
  {
    hide IsScatterGather, ScatterGather, Valid, IsGrouped, Execute, Splits, OrderTerms, Images, Distinct;
    var e := Expand(q, cols);
    RowQueryRefs(e);
    if NoShadow(e.columns, QueryRefs(e)) {
      OrderRewriteExact(I, q, fanOut, cols, shards);
    } else {
      ConstantWhere(e);
      assert !Expand(fanOut, cols).distinct by { ExpansionsAgree(q, fanOut, cols); }
      LoadedAreImages(I, q, fanOut, cols, shards);
      ConstantColumns(I, e, Flatten(shards));
    }
  }

  /** With LIMIT 0 nothing can be lost. */
  lemma NothingAgrees(I: Meaning, q: Select, fanOut: Select, cols: seq<string>, shards: seq<seq<Row>>)
    requires Loadable(q, fanOut, cols) && shards != [] && Nothing(q)
    ensures SameAnswer(ScatterGather(I, q, cols, shards), Direct(I, q, cols, shards))
  {
    hide IsScatterGather, SplitOf, Valid, IsGrouped, Lines, Dedup, ShardRows, NothingDropped, Distinct, QueryRefs, Sort;
    var e, f := Expand(q, cols), Expand(fanOut, cols);
    ExpansionsAgree(q, fanOut, cols);
    RowShardsReady(q, fanOut, cols);
    if f.distinct {
      ShardRowsDistinct(I, fanOut, cols, shards);
    } else {
      assert NothingDropped(I, f, shards) by { NotDistinctDropsNothing(I, f, shards); }
      ShardRowsPlain(I, fanOut, cols, shards);
    }
    forall rows ensures Execute(I, e, rows) == [] {
      assert |Execute(I, e, rows)| == 0;
    }
  }

  lemma NotDistinctDropsNothing(I: Meaning, e: Select, shards: seq<seq<Row>>)
    requires !e.distinct
    ensures NothingDropped(I, e, shards)
  {
  }

  // ----- the theorem ------------------------------------------------------------------------

  lemma NeedsLoadable(q: Select, fanOut: Select, cols: seq<string>)
    requires var e := Expand(q, cols);
      Splits(q, fanOut, false) && RowQuery(q, cols) && Valid(e) && forall n <- QueryRefs(e) :: n in cols
    requires AlwaysRight(q, cols)
    ensures Loadable(q, fanOut, cols)
  {
    hide IsScatterGather, SplitOf, ScatterGather, Valid, IsGrouped, Execute, Splits, Covered, Distinct, Coded;
    var I := Coded(None, None);
    assert SameAnswer(ScatterGather(I, q, cols, [[]]), Direct(I, q, cols, [[]]));
    MergedNeeds(I, q, fanOut, cols, [[]]);
  }

  lemma ShadowedSomewhere(e: Select)
    requires !Unshadowed(e)
    requires !(exists i :: ShadowedAt(e, i, RefsIn(ColumnExprs(e.columns))))
    requires !(exists i :: ShadowedAt(e, i, RefsIn(OptionExprs(e.where))))
    ensures exists i :: ShadowedAt(e, i, RefsIn(OrderTerms(e)))
    ensures RefsIn(ColumnExprs(e.columns)) != {} && NoShadow(e.columns, RefsIn(ColumnExprs(e.columns)))
  {
    hide OrderTerms;
    var listed, filtered := RefsIn(ColumnExprs(e.columns)), RefsIn(OptionExprs(e.where));
    NoneShadowed(e, listed);
    NoneShadowed(e, filtered);
    if !(exists i :: ShadowedAt(e, i, RefsIn(OrderTerms(e)))) {
      NoneShadowed(e, RefsIn(OrderTerms(e)));
    }
  }

  lemma NoneShadowed(e: Select, names: set<string>)
    requires !(exists i :: ShadowedAt(e, i, names))
    ensures NoShadow(e.columns, names)
  {
    forall i | 0 <= i < |e.columns| && OutputName(e.columns[i]) in names
      ensures e.columns[i].expr == Ref(OutputName(e.columns[i]))
    {
      assert !ShadowedAt(e, i, names);
    }
  }

  lemma ShadowShows(q: Select, fanOut: Select, cols: seq<string>)
    requires Loadable(q, fanOut, cols) && !Nothing(q) && !Unshadowed(Expand(q, cols))
    ensures !AlwaysRight(q, cols)
  {
    hide IsScatterGather, AlwaysRight, Valid, IsGrouped, Splits, OrderTerms, Covered, Distinct, AllScalar;
    var e := Expand(q, cols);
    var listed, filtered := RefsIn(ColumnExprs(e.columns)), RefsIn(OptionExprs(e.where));
    RowQueryRefs(e);
    if i :| ShadowedAt(e, i, listed) {
      ShadowInColumns(q, fanOut, cols, i);
    } else if i :| ShadowedAt(e, i, filtered) {
      ShadowInWhere(q, fanOut, cols, i);
    } else {
      ShadowedSomewhere(e);
      var i :| ShadowedAt(e, i, RefsIn(OrderTerms(e)));
      ShadowInOrder(q, fanOut, cols, i);
    }
  }

  /**
   A row-level query that one database answers is merged correctly for all rows on all shards and
   all meanings exactly when its output names are distinct and cover the columns it reads, and,
   unless LIMIT is 0, no computed column takes a name that the SELECT list or WHERE reads, nor one
   that ORDER BY reads while the SELECT list reads any column at all.
   */
  lemma RowQueryExact(q: Select, fanOut: Select, cols: seq<string>)
    requires var e := Expand(q, cols);
      Splits(q, fanOut, false) && RowQuery(q, cols) && Valid(e) && forall n <- QueryRefs(e) :: n in cols
    ensures var e := Expand(q, cols);
      AlwaysRight(q, cols)
      <==> Distinct(OutputNames(e.columns)) && Covered(e.columns, QueryRefs(e)) && (Nothing(q) || Unshadowed(e))
  {
    hide IsScatterGather, ScatterGather, Direct, Valid, IsGrouped, Splits, Covered, Distinct, Nothing, Unshadowed;
    hide SameAnswer, QueryRefs, RowQuery;
    var e := Expand(q, cols);
    if Loadable(q, fanOut, cols) {
      if Nothing(q) || Unshadowed(e) {
        forall I, shards: seq<seq<Row>> | shards != []
          ensures SameAnswer(ScatterGather(I, q, cols, shards), Direct(I, q, cols, shards))
        {
          if Nothing(q) {
            NothingAgrees(I, q, fanOut, cols, shards);
          } else {
            UnshadowedAgrees(I, q, fanOut, cols, shards);
          }
        }
      } else {
        ShadowShows(q, fanOut, cols);
      }
    } else if AlwaysRight(q, cols) {
      NeedsLoadable(q, fanOut, cols);
    }
  }
}
