/** Accepted queries on which the rewrite fails, one for each hypothesis of the theorems. */
module Limits {
  import opened Wrappers
  import opened Sequences
  import opened Ast
  import opened Aggregates
  import opened Walkers
  import opened FanOut
  import opened Query
  import opened Locality
  import opened Merge
  import opened Rewrite
  import opened Fragment

  function Count(e: Expr): Expr { Call("count", [e], false, [], [], [], [], false) }

  function From(columns: seq<Column>, where: Option<Expr>, groupBy: seq<Expr>, distinct: bool): Select {
    Select(columns, [TableRef("t", None)], where, groupBy, None, [], None, distinct)
  }

  lemma CountIsAggregate(e: Expr)
    requires e.Call? && e.fn == "count" && !e.over
    ensures IsScatterGather(e) && FunctionName(e) == "count"
    ensures ValidateCall(e).None? <==> true
    ensures !IsRejected(e)
  {
    assert Lower("count") == "count";
    assert "count" in ASSOCIATIVE_AGGREGATES;
    CountIsUnordered();
  }

  lemma CountIsUnordered()
    ensures "count" !in ORDER_SENSITIVE_AGGREGATES && "count" !in ORDERED_SET_AGGREGATES
    ensures "count" !in REJECTED_FANOUT_AGGREGATES && "count" in SCATTER_GATHER_AGGREGATES
  {
    CountIsNotOrderSensitive();
    CountIsNotOrderedSet();
    CountIsNotRejected();
    assert "count" in ASSOCIATIVE_AGGREGATES;
  }

  lemma CountIsNotOrderSensitive()
    ensures "count" !in ORDER_SENSITIVE_AGGREGATES
  {
  }

  lemma CountIsNotOrderedSet()
    ensures "count" !in ORDERED_SET_AGGREGATES
  {
  }

  lemma CountIsNotRejected()
    ensures "count" !in REJECTED_FANOUT_AGGREGATES
  {
  }

  lemma CountWalked(e: Expr)
    requires AllCalls(e) == [] && FindAggregates(e) == [] && !ContainsSubquery(e)
    ensures AllCallsIn([Count(e)]) == [Count(e)] && FindAggregatesIn([Count(e)]) == [Count(e)]
    ensures !ContainsSubquery(Count(e))
  {
    hide IsScatterGather;
    CountIsAggregate(Count(e));
    assert [e][1..] == [] && [Count(e)][1..] == [];
    assert AllCallsIn([e]) == AllCalls(e) + AllCallsIn([]);
    assert AllCalls(Count(e)) == [Count(e)];
    assert FindAggregatesIn([e]) == FindAggregates(e) + FindAggregatesIn([]);
    assert FindAggregates(Count(e)) == [Count(e)];
    assert !ContainsSubqueryIn([e]);
  }

  lemma CountSupported(e: Expr)
    requires !ContainsSubquery(Count(e))
    ensures FirstUnsupported([Count(e)]).None? && FirstInvalid([Count(e)]).None?
  {
    hide IsScatterGather, ValidateCall, IsRejected, ContainsSubquery, FunctionName;
    CountIsAggregate(Count(e));
    assert [Count(e)][1..] == [];
  }

  lemma CountCalls(e: Expr, q: Select)
    requires AllCalls(e) == [] && FindAggregates(e) == [] && !ContainsSubquery(e)
    requires q.columns == [Column(Count(e), None)] && q.having == None && q.orderBy == []
    ensures SelectCalls(q) == [Count(e)] && HasAggregates(q)
  {
    hide IsScatterGather, AllCalls, FindAggregates;
    CountWalked(e);
    assert ColumnExprs(q.columns) == [Count(e)] && OrderExprs(q.orderBy) == [];
  }

  /** `SELECT [DISTINCT] count(e) FROM t [WHERE w]` is accepted and split. */
  lemma CountSplits(e: Expr, where: Option<Expr>, distinct: bool)
    requires AllCalls(e) == [] && FindAggregates(e) == [] && !ContainsSubquery(e)
    ensures var q := From([Column(Count(e), None)], where, [], distinct); Splits(q, FanOutSelect(q), true)
  {
    hide *;
    var q := From([Column(Count(e), None)], where, [], distinct);
    FromParts([Column(Count(e), None)], where, [], distinct);
    CountWalked(e);
    CountCalls(e, q);
    CountSupported(e);
    SplitWhenSupported(q);
  }

  lemma FromParts(columns: seq<Column>, where: Option<Expr>, groupBy: seq<Expr>, distinct: bool)
    ensures var q := From(columns, where, groupBy, distinct);
      q.columns == columns && q.where == where && q.groupBy == groupBy && q.having == None && q.orderBy == []
      && q.limit == None && q.distinct == distinct && q.from == [TableRef("t", None)]
  {
  }

  lemma SplitWhenSupported(q: Select)
    requires FirstUnsupported(SelectCalls(q)).None? && FirstInvalid(SelectCalls(q)).None? && q.groupBy == []
    requires HasAggregates(q) && |q.from| == 1 && q.from[0].TableRef? && q.limit == None
    ensures Splits(q, FanOutSelect(q), true)
  {
    hide SelectCalls, FirstUnsupported, FirstInvalid, HasAggregates, FanOutSelect, RequiresValidation;
    hide FirstUnknown, UnknownCallIn;
  }

  /** The shards return the columns that the walker finds in e. */
  lemma CountProjects(e: Expr, where: Option<Expr>, distinct: bool, columns: seq<Column>)
    requires AllCalls(e) == [] && FindAggregates(e) == [] && !ContainsSubquery(e)
    requires columns == AddMissingRefs([], Dedup(CollectRefs(e)))
    ensures RowLevelColumns(From([Column(Count(e), None)], where, [], distinct))
         == if columns == [] then [ROW_MARKER] else columns
  {
    hide IsScatterGather, AllCalls, FindAggregates, CollectRefs, Dedup, AddMissingRefs;
    var q := From([Column(Count(e), None)], where, [], distinct);
    CountWalked(e);
    CountFound(e);
    CountRefs(e);
    assert q.columns[0].expr == Count(e) && q.columns[1..] == [];
    assert AddPlainColumns([], q.columns) == AddPlainColumns([], q.columns[1..]) == [];
    assert Projection(q) == [];
    assert ColumnsRefs(q.columns) == ColumnRefs(Count(e)) + ColumnsRefs(q.columns[1..]) == CollectRefs(e);
    assert NeededRefs(q) == [] + CollectRefs(e) + [] == CollectRefs(e);
    var added := AddMissingRefs(Projection(q), Dedup(NeededRefs(q)));
    assert RowLevelColumns(q) == if added == [] then [ROW_MARKER] else added;
  }

  lemma CountFound(e: Expr)
    requires FindAggregates(e) == []
    ensures FindAggregates(Count(e)) == [Count(e)]
  {
    hide IsScatterGather;
    CountIsAggregate(Count(e));
    assert [e][1..] == [];
    assert FindAggregatesIn([e]) == FindAggregates(e) + FindAggregatesIn([]);
  }

  lemma CountRefs(e: Expr)
    ensures CollectRefsAll([Count(e)]) == CollectRefs(e) && CollectRefsAll([]) == []
    ensures Refs(Count(e)) == Refs(e) && RefsIn([Count(e)]) == Refs(e)
  {
    assert [e][1..] == [] && [Count(e)][1..] == [];
    assert CollectRefsAll([e]) == CollectRefs(e) + CollectRefsAll([]);
    assert CollectRefsAll([Count(e)]) == CollectRefs(Count(e)) + CollectRefsAll([]);
    assert RefsIn([e]) == Refs(e) + RefsIn([]);
    assert RefsIn([Count(e)]) == Refs(Count(e)) + RefsIn([]);
  }

  /** `SELECT count(e) FROM t WHERE w` is a valid query of a table that has the columns. */
  lemma CountRuns(I: Meaning, e: Expr, where: Option<Expr>, distinct: bool, cols: seq<string>, shards: seq<seq<Row>>)
    requires Scalar(e) && AllScalar(OptionExprs(where))
    requires forall n :: n in Refs(e) + RefsIn(OptionExprs(where)) ==> n in cols
    ensures var q := From([Column(Count(e), None)], where, [], distinct);
      Valid(q) && QueryRefs(q) == Refs(e) + RefsIn(OptionExprs(where)) && Direct(I, q, cols, shards).Success?
  {
    hide IsScatterGather, Execute, Scalar, Refs;
    var q := From([Column(Count(e), None)], where, [], distinct);
    CountGrouped(e);
    CountRefs(e);
    ExpandWithoutStar(q.columns, cols);
    assert ColumnExprs(q.columns) == [Count(e)] && OrderTerms(q) == [];
  }

  lemma CountGrouped(e: Expr)
    requires Scalar(e)
    ensures AllGrouped([Count(e)], []) && !AllScalar([Count(e)])
  {
    hide IsScatterGather, FunctionName;
    CountIsAggregate(Count(e));
    ScalarOne(e);
    assert Grouped(Count(e), []) && !Scalar(Count(e));
    GroupedOne(Count(e));
  }

  lemma ScalarOne(e: Expr)
    ensures AllScalar([e]) <==> Scalar(e)
  {
    hide Scalar;
    assert [e][1..] == [];
  }

  lemma GroupedOne(e: Expr)
    requires Grouped(e, []) && !Scalar(e)
    ensures AllGrouped([e], []) && !AllScalar([e])
  {
    hide Grouped, Scalar;
    assert [e][1..] == [];
  }

  /** `SELECT count(x) FROM t WHERE y`: the re-run has no column y, for any data. */
  lemma FilterColumnLost(I: Meaning, shards: seq<seq<Row>>)
    requires shards != []
    ensures var q := From([Column(Count(Ref("x")), None)], Some(Ref("y")), [], false);
      !SameAnswer(ScatterGather(I, q, ["x", "y"], shards), Direct(I, q, ["x", "y"], shards))
  {
    hide IsScatterGather, SplitOf, RowLevelColumns, Valid, ScatterGather, Direct, FanOutSelect;
    var x, y := Ref("x"), Some(Ref("y"));
    var q := From([Column(Count(x), None)], y, [], false);
    XProjected();
    assert RefsIn(OptionExprs(y)) == {"y"} by {
      assert [Ref("y")][1..] == [];
      assert RefsIn([Ref("y")]) == Refs(Ref("y")) + RefsIn([]);
    }
    assert AllScalar(OptionExprs(y)) by { assert [Ref("y")][1..] == []; }
    CountSplits(x, y, false);
    CountProjects(x, y, false, [RefColumn("x")]);
    CountRuns(I, x, y, false, ["x", "y"], shards);
    CountTransparent(x, y, false);
    CountFanOutColumns(x, y, false);
    var fanOut := FanOutSelect(q);
    assert NoShadow(fanOut.columns, QueryRefs(q));
    assert !Covered(fanOut.columns, QueryRefs(q)) by {
      assert "y" in QueryRefs(q) && "y" !in OutputNames([RefColumn("x")]);
    }
    assert NothingDropped(I, fanOut, shards);
    AggregateRewriteExact(I, q, fanOut, ["x", "y"], shards);
  }

  lemma XProjected()
    ensures AddMissingRefs([], Dedup(CollectRefs(Ref("x")))) == [RefColumn("x")]
    ensures AddMissingRefs([], Dedup(CollectRefs(Other("cast", "x", [Ref("x")])))) == []
  {
    assert Dedup(["x"]) == ["x"] by { DedupSnoc([], "x"); assert [] + ["x"] == ["x"]; }
    assert ["x"][1..] == [];
    assert AddMissingRefs([], ["x"]) == AddMissingRefs([RefColumn("x")], ["x"][1..]);
  }

  lemma CountTransparent(e: Expr, where: Option<Expr>, distinct: bool)
    requires Visible(e)
    ensures Transparent(From([Column(Count(e), None)], where, [], distinct))
  {
    var q := From([Column(Count(e), None)], where, [], distinct);
    assert ColumnExprs(q.columns) == [Count(e)] && [Count(e)][1..] == [] && [e][1..] == [];
    assert AllVisible([e]);
  }

  lemma CountFanOutColumns(e: Expr, where: Option<Expr>, distinct: bool)
    requires AllCalls(e) == [] && FindAggregates(e) == [] && !ContainsSubquery(e)
    ensures var q := From([Column(Count(e), None)], where, [], distinct);
      FanOutSelect(q).columns == RowLevelColumns(q) && FanOutSelect(q).distinct == distinct
        && FanOutSelect(q).where == where
  {
    hide IsScatterGather, RowLevelColumns, AllCalls, FindAggregates;
    CountCalls(e, From([Column(Count(e), None)], where, [], distinct));
  }

  /** `SELECT count(x::int) FROM t`: the walkers do not enter a cast, so x is never fetched. */
  lemma CastColumnLost(I: Meaning, shards: seq<seq<Row>>)
    requires shards != []
    ensures var q := From([Column(Count(Other("cast", "x", [Ref("x")])), None)], None, [], false);
      !SameAnswer(ScatterGather(I, q, ["x"], shards), Direct(I, q, ["x"], shards))
  {
    hide IsScatterGather, SplitOf, RowLevelColumns, Valid, ScatterGather, Direct, FanOutSelect;
    var e := Other("cast", "x", [Ref("x")]);
    var q := From([Column(Count(e), None)], None, [], false);
    XProjected();
    assert [Ref("x")][1..] == [];
    assert Refs(e) == {"x"} by { assert RefsIn([Ref("x")]) == Refs(Ref("x")) + RefsIn([]); }
    assert Scalar(e) && AllScalar(OptionExprs(None)) && RefsIn(OptionExprs(None)) == {};
    CountSplits(e, None, false);
    CountProjects(e, None, false, []);
    CountRuns(I, e, None, false, ["x"], shards);
    CountTransparent(e, None, false);
    CountFanOutColumns(e, None, false);
    var fanOut := FanOutSelect(q);
    assert !Covered(fanOut.columns, QueryRefs(q)) by {
      assert "x" in QueryRefs(q) && "x" !in OutputNames([ROW_MARKER]);
    }
    assert NothingDropped(I, fanOut, shards);
    AggregateRewriteExact(I, q, fanOut, ["x"], shards);
  }

  /** `SELECT count(x) FROM t` is merged correctly, for any data, meaning and placement. */
  lemma PlainCountAgrees(I: Meaning, shards: seq<seq<Row>>)
    requires shards != []
    ensures var q := From([Column(Count(Ref("x")), None)], None, [], false);
      SameAnswer(ScatterGather(I, q, ["x"], shards), Direct(I, q, ["x"], shards))
  {
    hide IsScatterGather, SplitOf, RowLevelColumns, Valid, ScatterGather, Direct, FanOutSelect;
    var x := Ref("x");
    var q := From([Column(Count(x), None)], None, [], false);
    XProjected();
    assert Scalar(x) && AllScalar(OptionExprs(None)) && RefsIn(OptionExprs(None)) == {};
    CountSplits(x, None, false);
    CountProjects(x, None, false, [RefColumn("x")]);
    CountRuns(I, x, None, false, ["x"], shards);
    CountTransparent(x, None, false);
    CountFanOutColumns(x, None, false);
    var fanOut := FanOutSelect(q);
    assert NoShadow(fanOut.columns, QueryRefs(q));
    assert OutputNames([RefColumn("x")]) == ["x"] && Distinct(["x"]);
    assert NothingDropped(I, fanOut, shards);
    AggregateRewriteExact(I, q, fanOut, ["x"], shards);
  }

  // ----- a computed column that takes the name of a filtered one ----------------------------

  const SHADOWING := Select(
    [Column(Unary("-", Ref("a")), Some("c")), RefColumn("a")],
    [TableRef("t", None)], Some(Ref("c")), [], None, [Order(Ref("a"), "ASC")], None, false)

  lemma ShadowingSplits()
    ensures Splits(SHADOWING, SHADOWING.(orderBy := []), false)
  {
    hide IsScatterGather;
    ShadowingCalls();
    hide SelectCalls, HasAggregates;
  }

  lemma ShadowingCalls()
    ensures SelectCalls(SHADOWING) == [] && !HasAggregates(SHADOWING)
  {
    hide IsScatterGather;
    var q := SHADOWING;
    assert ColumnExprs(q.columns) == [Unary("-", Ref("a")), Ref("a")];
    var es := [Unary("-", Ref("a")), Ref("a")];
    assert es[1..] == [Ref("a")] && [Ref("a")][1..] == [];
    assert AllCallsIn([Ref("a")]) == AllCalls(Ref("a")) + AllCallsIn([]);
    assert AllCallsIn(es) == AllCalls(es[0]) + AllCallsIn(es[1..]);
    assert FindAggregatesIn([Ref("a")]) == FindAggregates(Ref("a")) + FindAggregatesIn([]);
    assert FindAggregatesIn(es) == FindAggregates(es[0]) + FindAggregatesIn(es[1..]);
    assert OrderExprs(q.orderBy) == [Ref("a")];
    assert SelectCalls(q) == [];
  }

  lemma ShadowingIsValid(cols: seq<string>)
    requires "a" in cols && "c" in cols
    ensures var q := SHADOWING; var f := q.(orderBy := []);
      && Valid(q) && !IsGrouped(q) && Valid(f) && !IsGrouped(f)
      && Expand(q, cols) == q && Expand(f, cols) == f
      && (forall n :: n in QueryRefs(q) ==> n in cols) && (forall n :: n in QueryRefs(f) ==> n in cols)
  {
    hide IsScatterGather;
    var q := SHADOWING;
    var es := [Unary("-", Ref("a")), Ref("a")];
    assert ColumnExprs(q.columns) == es && es[1..] == [Ref("a")] && [Ref("a")][1..] == [] && [Ref("c")][1..] == [];
    assert RefsIn([Ref("a")]) == Refs(Ref("a")) + RefsIn([]) && RefsIn(es) == Refs(es[0]) + RefsIn(es[1..]);
    assert RefsIn([Ref("c")]) == Refs(Ref("c")) + RefsIn([]);
    assert AllScalar([Ref("a")]) && AllScalar(es) && AllScalar([Ref("c")]);
    assert q.columns[1..] == [RefColumn("a")] && [RefColumn("a")][1..] == [];
    assert OrderTerm(q.columns, Ref("a")) == OrderTerm(q.columns[1..], Ref("a")) == Ref("a");
    assert OrderTerms(q) == [Ref("a")] && OrderTerms(q.(orderBy := [])) == [];
    ExpandWithoutStar(q.columns, cols);
  }

  const SHADOWED: Row := map["a" := Int(1), "c" := Bool(true)]

  ghost predicate Negates(I: Meaning) {
    I.truthy(Bool(true)) && !I.truthy(Null) && I.unary("-", Int(1)) == Null
  }

  lemma ShadowedLine(I: Meaning, q: Select)
    requires Negates(I) && q.columns == SHADOWING.columns
    ensures EvalAll(I, ColumnExprs(q.columns), SHADOWED) == [Null, Int(1)]
    ensures Passing(I, [Ref("c")], [SHADOWED]) == [SHADOWED]
  {
    var es := [Unary("-", Ref("a")), Ref("a")];
    assert ColumnExprs(q.columns) == es && es[1..] == [Ref("a")] && [Ref("a")][1..] == [] && [SHADOWED][1..] == [];
    assert EvalAll(I, [Ref("a")], SHADOWED) == [Int(1)] + EvalAll(I, [], SHADOWED);
    assert Cell(SHADOWED, "c") == Bool(true);
  }

  /** On the shard, and on the table of all rows, the one row passes. */
  lemma ShadowedRowPasses(I: Meaning, q: Select)
    requires Negates(I) && (q == SHADOWING || q == SHADOWING.(orderBy := []))
    ensures Execute(I, q, [SHADOWED]) == [[Null, Int(1)]]
  {
    hide IsScatterGather, IsGrouped, Passing, EvalAll;
    ShadowedLine(I, q);
    ShadowingIsValid(["a", "c"]);
    var item := RowItem(I, q, SHADOWED);
    assert Lines(I, q, [SHADOWED]) == RowItems(I, q, [SHADOWED]) == [item];
    assert Sort(I, Directions(q), [item]) == [item] by {
      assert [item][..0] == [] && InsertSorted(I, Directions(q), Sort(I, Directions(q), []), item) == [item];
    }
    assert Finish(I, q, [item]) == [item.out];
  }

  lemma ShadowedRowFails(I: Meaning, image: Row)
    requires Negates(I) && Cell(image, "c") == Null
    ensures Execute(I, SHADOWING, [image]) == []
  {
    hide IsScatterGather, IsGrouped;
    ShadowingIsValid(["a", "c"]);
    assert [image][1..] == [] && OptionExprs(SHADOWING.where) == [Ref("c")];
    assert Eval(I, Ref("c"), image) == Null && !Holds(I, [Ref("c")], image) by { assert [Ref("c")][0] == Ref("c"); }
    assert Passing(I, [Ref("c")], [image]) == [] + Passing(I, [Ref("c")], []);
    assert Lines(I, SHADOWING, []) == RowItems(I, SHADOWING, []) == [];
  }

  lemma ShadowedRowLoads(I: Meaning)
    requires Negates(I)
    ensures var f := SHADOWING.(orderBy := []);
      && AnswerNames(f, ["a", "c"]) == ["c", "a"] && Distinct(["c", "a"])
      && ShardRows(I, f, ["a", "c"], ["c", "a"], [[SHADOWED]]) == Success([[RowObject(["c", "a"], [Null, Int(1)])]])
  {
    hide IsScatterGather, Valid, IsGrouped, QueryRefs, Execute, RowObject;
    var cols, f, shards := ["a", "c"], SHADOWING.(orderBy := []), [[SHADOWED]];
    ShadowingIsValid(cols);
    ShadowedRowPasses(I, f);
    var names := AnswerNames(f, cols);
    assert names == ["c", "a"] && Distinct(names);
    RunsPlain(I, f, cols, [SHADOWED]);
    var image := RowObject(names, [Null, Int(1)]);
    assert RowObjects(names, [[Null, Int(1)]]) == [image];
    assert shards[1..] == [] && ShardRows(I, f, cols, names, []) == Success([]);
    assert ShardRows(I, f, cols, names, shards) == Success([[image]] + []);
    assert [[image]] + [] == [[image]];
  }

  /**
   `SELECT -a AS c, a FROM t WHERE c ORDER BY a`: the re-run filters by the computed c, so a row
   that passed on its shard is lost without an error.
   */
  lemma ShadowedFilterLosesRows(I: Meaning)
    requires Negates(I)
    ensures ScatterGather(I, SHADOWING, ["a", "c"], [[SHADOWED]]) == Success([])
    ensures Direct(I, SHADOWING, ["a", "c"], [[SHADOWED]]) == Success([[Null, Int(1)]])
  {
    hide IsScatterGather, SplitOf, Valid, IsGrouped, QueryRefs, Execute, Run, ScatterGather, ShardRows;
    hide RowObject, Splits;
    var cols, f, shards := ["a", "c"], SHADOWING.(orderBy := []), [[SHADOWED]];
    var names := ["c", "a"];
    ShadowingSplits();
    ShadowingIsValid(cols);
    ShadowingIsValid(names);
    ShadowedRowLoads(I);
    ShadowedRowPasses(I, SHADOWING);
    RunsPlain(I, SHADOWING, cols, [SHADOWED]);
    var image := RowObject(names, [Null, Int(1)]);
    RowObjectCells(names, [Null, Int(1)]);
    assert Cell(image, names[0]) == Null;
    ShadowedRowFails(I, image);
    RunsPlain(I, SHADOWING, names, [image]);
    GatherRuns(I, SHADOWING, f, false, cols, shards);
    assert shards[1..] == [] && [[image]][1..] == [];
    assert Flatten(shards) == [SHADOWED] + Flatten([]) == [SHADOWED];
    assert Flatten([[image]]) == [image] + Flatten([]) == [image];
  }
}
