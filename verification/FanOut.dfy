/** The rewrite of a SELECT into the row-level SELECT that every shard runs. */
module FanOut {
  import opened Wrappers
  import opened Sequences
  import opened Ast
  import opened Aggregates
  import opened Walkers

  datatype Split =
    | NoMerge
    | LocalMerge(fanOut: Select, full: Select, table: string, hasAggregates: bool)

  // ----- the specification ------------------------------------------------------------------

  function SelectCalls(q: Select): (calls: seq<Expr>)
    ensures forall c :: c in calls ==> c.Call?
  {
    AllCallsIn(ColumnExprs(q.columns)) + AllCallsIn(OptionExprs(q.having)) + AllCallsIn(OrderExprs(q.orderBy))
  }

  predicate HasAggregates(q: Select) {
    FindAggregatesIn(ColumnExprs(q.columns)) + FindAggregatesIn(OptionExprs(q.having)) != []
  }

  predicate HasGroupByWithColumnCalls(q: Select) {
    q.groupBy != [] && exists i :: 0 <= i < |q.columns| && q.columns[i].expr.Call?
  }

  predicate RequiresValidation(q: Select) {
    || q.orderBy != []
    || HasAggregates(q)
    || HasGroupByWithColumnCalls(q)
    || exists c :: c in SelectCalls(q) && (IsWindowCall(c) || IsRejected(c) || IsScatterGather(c))
  }

  function FirstUnsupported(calls: seq<Expr>): Option<FanOutError>
    requires forall c :: c in calls ==> c.Call?
  {
    if calls == [] then None
    else if IsWindowCall(calls[0]) then Some(WindowFunction)
    else if IsRejected(calls[0]) then Some(RejectedAggregate(FunctionName(calls[0])))
    else FirstUnsupported(calls[1..])
  }

  function AggregateError(call: Expr): Option<FanOutError>
    requires call.Call?
  {
    if !IsScatterGather(call) then None
    else if ValidateCall(call).Some? then ValidateCall(call)
    else if ContainsSubquery(call) then Some(SubqueryInAggregate)
    else None
  }

  function FirstInvalid(calls: seq<Expr>): Option<FanOutError>
    requires forall c :: c in calls ==> c.Call?
  {
    if calls == [] then None
    else if AggregateError(calls[0]).Some? then AggregateError(calls[0])
    else FirstInvalid(calls[1..])
  }

  function FirstUnknown(q: Select, exprs: seq<Expr>): Option<FanOutError> {
    if exprs == [] then None
    else
      var u := if exprs[0] in q.groupBy then None else UnknownCall(exprs[0], false);
      if u.Some? then u else FirstUnknown(q, exprs[1..])
  }

  function SupportError(q: Select): Option<FanOutError> {
    var calls := SelectCalls(q);
    var w := FirstUnsupported(calls);
    if w.Some? then w else
    var v := FirstInvalid(calls);
    if v.Some? then v else
    if q.groupBy == [] then None else
    var u := FirstUnknown(q, ColumnExprs(q.columns));
    if u.Some? then u else UnknownCallIn(OptionExprs(q.having), false)
  }

  function AddColumn(projection: seq<Column>, column: Column): seq<Column> {
    if exists i :: 0 <= i < |projection| && projection[i].expr == column.expr then projection
    else projection + [column]
  }

  function AddGroups(projection: seq<Column>, groupBy: seq<Expr>): seq<Column>
    decreases groupBy
  {
    if groupBy == [] then projection
    else AddGroups(AddColumn(projection, Column(groupBy[0], None)), groupBy[1..])
  }

  function AddPlainColumns(projection: seq<Column>, columns: seq<Column>): seq<Column>
    decreases columns
  {
    if columns == [] then projection
    else if FindAggregates(columns[0].expr) != [] then AddPlainColumns(projection, columns[1..])
    else AddPlainColumns(AddColumn(projection, columns[0]), columns[1..])
  }

  function Projection(q: Select): seq<Column> {
    AddPlainColumns(AddGroups([], q.groupBy), q.columns)
  }

  /** What one selected expression needs: the columns of its aggregates, else all its columns. */
  function ColumnRefs(e: Expr): seq<string> {
    if FindAggregates(e) != [] then CollectRefsAll(FindAggregates(e)) else CollectRefs(e)
  }

  function ColumnsRefs(columns: seq<Column>): seq<string> {
    if columns == [] then [] else ColumnRefs(columns[0].expr) + ColumnsRefs(columns[1..])
  }

  function NeededRefs(q: Select): seq<string> {
    CollectRefsAll(q.groupBy) + ColumnsRefs(q.columns)
    + CollectRefsAll(FindAggregatesIn(OptionExprs(q.having)))
  }

  predicate ProjectsRef(columns: seq<Column>, name: string) {
    exists i :: 0 <= i < |columns| && columns[i].expr == Ref(name)
  }

  function AddMissingRefs(columns: seq<Column>, names: seq<string>): seq<Column>
    decreases names
  {
    if names == [] then columns
    else AddMissingRefs(if ProjectsRef(columns, names[0]) then columns else columns + [RefColumn(names[0])], names[1..])
  }

  const ROW_MARKER := Column(Const(Int(1)), Some("_mtdd_row"))

  function RowLevelColumns(q: Select): seq<Column> {
    var columns := AddMissingRefs(Projection(q), Dedup(NeededRefs(q)));
    if columns == [] then [ROW_MARKER] else columns
  }

  function FanOutSelect(q: Select): Select {
    var rows := if HasAggregates(q) then q.(columns := RowLevelColumns(q), groupBy := [], having := None) else q;
    rows.(orderBy := [], limit := None)
  }

  function SplitOf(q: Select): Result<Split, FanOutError> {
    if RequiresValidation(q) && SupportError(q).Some? then Failure(SupportError(q).value)
    else if q.orderBy == [] && !HasAggregates(q) then Success(NoMerge)
    else if |q.from| != 1 || !q.from[0].TableRef? then Failure(NotSingleTable)
    else if q.limit.Some? && q.limit.value.offset.Some? then Failure(OffsetUnsupported)
    else Success(LocalMerge(FanOutSelect(q), q, q.from[0].name, HasAggregates(q)))
  }

  // ----- the imperative form ----------------------------------------------------------------

  /** An insertion-ordered set of column names. */
  class NameSet {
    var names: seq<string>

    constructor ()
      ensures names == []
    {
      names := [];
    }

    method Add(name: string)
      requires Distinct(names)
      modifies this
      ensures names == Dedup(old(names) + [name]) && Distinct(names)
    {
      DedupOfDistinct(names);
      DedupSnoc(names, name);
      if name !in names {
        names := names + [name];
      }
    }
  }

  /** A growing array of expressions. */
  class ExprList {
    var items: seq<Expr>

    constructor ()
      ensures items == []
    {
      items := [];
    }

    method Push(e: Expr)
      modifies this
      ensures items == old(items) + [e]
    {
      items := items + [e];
    }
  }

  /** Adding one list and then another is adding both. */
  lemma AddTwice(names: seq<string>, first: seq<string>, second: seq<string>)
    ensures Dedup(Dedup(names + first) + second) == Dedup(names + (first + second))
    ensures Distinct(Dedup(names + first))
  {
    hide Dedup, Distinct;
    DedupElements(names + first);
    DedupAppendDedup(names + first, second);
    assert names + first + second == names + (first + second);
  }

  method CollectRefsFromExpr(e: Expr, refs: NameSet)
    requires Distinct(refs.names)
    modifies refs
    ensures refs.names == Dedup(old(refs.names) + CollectRefs(e)) && Distinct(refs.names)
    decreases e, 2
  {
    match e {
      case Ref(n) =>
        if n != STAR {
          refs.Add(n);
        } else {
          AddNothing(refs.names);
        }
      case Call(_, _, _, _, _, _, _, _) =>
        CollectRefsFromCall(e, refs);
      case Binary(_, l, r) =>
        AddTwice(refs.names, CollectRefs(l), CollectRefs(r));
        CollectRefsFromExpr(l, refs);
        CollectRefsFromExpr(r, refs);
      case Unary(_, a) =>
        CollectRefsFromExpr(a, refs);
      case _ =>
        AddNothing(refs.names);
    }
  }

  lemma AddNothing(names: seq<string>)
    requires Distinct(names)
    ensures Dedup(names + []) == names
  {
    assert names + [] == names;
    DedupOfDistinct(names);
  }

  method CollectRefsFromCall(e: Expr, refs: NameSet)
    requires e.Call? && Distinct(refs.names)
    modifies refs
    ensures refs.names == Dedup(old(refs.names) + CollectRefs(e)) && Distinct(refs.names)
    decreases e, 1
  {
    ghost var names, a, f := refs.names, CollectRefsAll(e.args), CollectRefsAll(e.filter);
    ghost var o, w := CollectRefsAll(e.orderBy), CollectRefsAll(e.withinGroup);
    AddTwice(names, a, f);
    AddTwice(names, a + f, o);
    AddTwice(names, a + f + o, w);
    CollectRefsFromList(e.args, refs);
    CollectRefsFromList(e.filter, refs);
    CollectRefsFromList(e.orderBy, refs);
    CollectRefsFromList(e.withinGroup, refs);
  }

  method CollectRefsFromList(es: seq<Expr>, refs: NameSet)
    requires Distinct(refs.names)
    modifies refs
    ensures refs.names == Dedup(old(refs.names) + CollectRefsAll(es)) && Distinct(refs.names)
    decreases es, 0
  {
    for i := 0 to |es|
      invariant Distinct(refs.names)
      invariant Dedup(refs.names + CollectRefsAll(es[i..])) == Dedup(old(refs.names) + CollectRefsAll(es))
    {
      assert es[i..][1..] == es[i + 1..];
      AddTwice(refs.names, CollectRefs(es[i]), CollectRefsAll(es[i + 1..]));
      CollectRefsFromExpr(es[i], refs);
    }
    AddNothing(refs.names);
  }

  lemma CallNodes(e: Expr, before: seq<Expr>)
    requires e.Call?
    ensures before + AllCalls(e)
         == before + [e] + AllCallsIn(e.args) + AllCallsIn(e.filter) + AllCallsIn(e.orderBy) + AllCallsIn(e.withinGroup)
  {
  }

  lemma OtherNodes(e: Expr, before: seq<Expr>)
    requires !e.Call?
    ensures e.Binary? ==> before + AllCalls(e) == before + AllCalls(e.left) + AllCalls(e.right)
    ensures e.Unary? ==> AllCalls(e) == AllCalls(e.argument)
    ensures e.Binary? || e.Unary? || before + AllCalls(e) == before
  {
  }

  method WalkAllCalls(e: Expr, calls: ExprList)
    modifies calls
    ensures calls.items == old(calls.items) + AllCalls(e)
    decreases e, 1
  {
    hide IsScatterGather, AllCalls, AllCallsIn;
    if e.Call? {
      CallNodes(e, calls.items);
    } else {
      OtherNodes(e, calls.items);
    }
    match e {
      case Call(_, args, _, filter, orderBy, withinGroup, _, _) =>
        calls.Push(e);
        WalkAllCallsIn(args, calls);
        WalkAllCallsIn(filter, calls);
        WalkAllCallsIn(orderBy, calls);
        WalkAllCallsIn(withinGroup, calls);
      case Binary(_, l, r) =>
        WalkAllCalls(l, calls);
        WalkAllCalls(r, calls);
      case Unary(_, a) =>
        WalkAllCalls(a, calls);
      case _ =>
    }
  }

  method WalkAllCallsIn(es: seq<Expr>, calls: ExprList)
    modifies calls
    ensures calls.items == old(calls.items) + AllCallsIn(es)
    decreases es, 0
  {
    for i := 0 to |es|
      invariant calls.items + AllCallsIn(es[i..]) == old(calls.items) + AllCallsIn(es)
    {
      assert es[i..][1..] == es[i + 1..];
      WalkAllCalls(es[i], calls);
    }
  }

  method WalkExprForAggregates(e: Expr, found: ExprList)
    modifies found
    ensures found.items == old(found.items) + FindAggregates(e)
    decreases e, 1
  {
    hide IsScatterGather;
    match e {
      case Call(_, args, _, _, _, _, _, _) =>
        if IsScatterGather(e) {
          found.Push(e);
        }
        WalkArgsForAggregates(args, found);
      case Binary(_, l, r) =>
        WalkExprForAggregates(l, found);
        WalkExprForAggregates(r, found);
      case Unary(_, a) =>
        WalkExprForAggregates(a, found);
      case _ =>
    }
  }

  method WalkArgsForAggregates(args: seq<Expr>, found: ExprList)
    modifies found
    ensures found.items == old(found.items) + FindAggregatesIn(args)
    decreases args, 0
  {
    hide IsScatterGather;
    for i := 0 to |args|
      invariant found.items + FindAggregatesIn(args[i..]) == old(found.items) + FindAggregatesIn(args)
    {
      assert args[i..][1..] == args[i + 1..];
      WalkExprForAggregates(args[i], found);
    }
  }

  method CollectAllCallsFromSelect(q: Select) returns (calls: seq<Expr>)
    ensures calls == SelectCalls(q)
  {
    var list := new ExprList();
    WalkAllCallsIn(ColumnExprs(q.columns), list);
    WalkAllCallsIn(OptionExprs(q.having), list);
    WalkAllCallsIn(OrderExprs(q.orderBy), list);
    calls := list.items;
  }

  method AssertFanOutAggregateSupport(q: Select) returns (error: Option<FanOutError>)
    ensures error == SupportError(q)
  {
    var calls := CollectAllCallsFromSelect(q);
    for i := 0 to |calls|
      invariant FirstUnsupported(calls[i..]) == FirstUnsupported(calls)
    {
      assert calls[i] in calls && calls[i..][1..] == calls[i + 1..];
      if IsWindowCall(calls[i]) {
        return Some(WindowFunction);
      }
      if IsRejected(calls[i]) {
        return Some(RejectedAggregate(FunctionName(calls[i])));
      }
    }
    for i := 0 to |calls|
      invariant FirstInvalid(calls[i..]) == FirstInvalid(calls)
    {
      assert calls[i] in calls && calls[i..][1..] == calls[i + 1..];
      if !IsScatterGather(calls[i]) {
        continue;
      }
      error := ValidateCall(calls[i]);
      if error.Some? {
        return;
      }
      if ContainsSubquery(calls[i]) {
        return Some(SubqueryInAggregate);
      }
    }
    if q.groupBy == [] {
      return None;
    }
    var exprs := ColumnExprs(q.columns);
    for i := 0 to |exprs|
      invariant FirstUnknown(q, exprs[i..]) == FirstUnknown(q, exprs)
    {
      assert exprs[i..][1..] == exprs[i + 1..];
      if exprs[i] in q.groupBy {
        continue;
      }
      error := UnknownCall(exprs[i], false);
      if error.Some? {
        return;
      }
    }
    error := UnknownCallIn(OptionExprs(q.having), false);
  }

  method BuildRowLevelColumns(q: Select) returns (columns: seq<Column>)
    ensures columns == RowLevelColumns(q)
  {
    hide IsScatterGather, FindAggregates, CollectRefs, AddColumn, Dedup, AddMissingRefs;
    var refNames := new NameSet();
    var projection: seq<Column> := [];
    ghost var groupRefs := CollectRefsAll(q.groupBy);
    assert q.groupBy[0..] == q.groupBy && [] + groupRefs == groupRefs;
    for i := 0 to |q.groupBy|
      invariant AddGroups(projection, q.groupBy[i..]) == AddGroups([], q.groupBy)
      invariant Distinct(refNames.names)
      invariant Dedup(refNames.names + CollectRefsAll(q.groupBy[i..])) == Dedup(groupRefs)
    {
      assert q.groupBy[i..][1..] == q.groupBy[i + 1..];
      projection := AddColumn(projection, Column(q.groupBy[i], None));
      AddTwice(refNames.names, CollectRefs(q.groupBy[i]), CollectRefsAll(q.groupBy[i + 1..]));
      CollectRefsFromExpr(q.groupBy[i], refNames);
    }
    AddNothing(refNames.names);
    ghost var columnRefs := ColumnsRefs(q.columns);
    DedupAppendDedup(groupRefs, columnRefs);
    for i := 0 to |q.columns|
      invariant AddPlainColumns(projection, q.columns[i..]) == Projection(q)
      invariant Distinct(refNames.names)
      invariant Dedup(refNames.names + ColumnsRefs(q.columns[i..])) == Dedup(groupRefs + columnRefs)
    {
      var column := q.columns[i];
      assert q.columns[i..][1..] == q.columns[i + 1..];
      AddTwice(refNames.names, ColumnRefs(column.expr), ColumnsRefs(q.columns[i + 1..]));
      var aggregates := new ExprList();
      WalkExprForAggregates(column.expr, aggregates);
      assert aggregates.items == FindAggregates(column.expr);
      if |aggregates.items| > 0 {
        CollectRefsFromList(aggregates.items, refNames);
        continue;
      }
      projection := AddColumn(projection, column);
      CollectRefsFromExpr(column.expr, refNames);
    }
    AddNothing(refNames.names);
    if q.having.Some? {
      var havingAggregates := new ExprList();
      WalkExprForAggregates(q.having.value, havingAggregates);
      assert havingAggregates.items == FindAggregates(q.having.value);
      CollectRefsFromList(havingAggregates.items, refNames);
    }
    NeededRefsSplit(q, groupRefs + columnRefs);
    assert refNames.names == Dedup(NeededRefs(q));
    columns := AddMissing(projection, refNames.names);
    if |columns| == 0 {
      columns := [ROW_MARKER];
    }
  }

  lemma NeededRefsSplit(q: Select, collected: seq<string>)
    requires collected == CollectRefsAll(q.groupBy) + ColumnsRefs(q.columns)
    ensures q.having.None? ==> Dedup(collected) == Dedup(NeededRefs(q))
    ensures q.having.Some? ==>
      Dedup(Dedup(collected) + CollectRefsAll(FindAggregates(q.having.value))) == Dedup(NeededRefs(q))
  {
    if q.having.Some? {
      var h := FindAggregates(q.having.value);
      assert FindAggregatesIn([q.having.value]) == h + FindAggregatesIn([q.having.value][1..]) == h;
      DedupAppendDedup(collected, CollectRefsAll(h));
    } else {
      assert NeededRefs(q) == collected;
    }
  }

  /** The second half: append a plain reference for every needed column that is not projected. */
  method AddMissing(projection: seq<Column>, refNames: seq<string>) returns (columns: seq<Column>)
    ensures columns == AddMissingRefs(projection, refNames)
  {
    columns := [];
    var usedRefs: set<string> := {};
    for i := 0 to |projection|
      invariant columns == projection[..i]
      invariant forall n :: n in usedRefs <==> ProjectsRef(projection[..i], n)
    {
      UsedAfter(projection[..i], projection[i]);
      assert projection[..i + 1] == projection[..i] + [projection[i]];
      if projection[i].expr.Ref? {
        usedRefs := usedRefs + {projection[i].expr.name};
      }
      columns := columns + [projection[i]];
    }
    assert projection[..|projection|] == projection;
    for i := 0 to |refNames|
      invariant AddMissingRefs(columns, refNames[i..]) == AddMissingRefs(projection, refNames)
      invariant forall n :: n in usedRefs <==> ProjectsRef(columns, n)
    {
      assert refNames[i..][1..] == refNames[i + 1..];
      if refNames[i] !in usedRefs {
        UsedAfter(columns, RefColumn(refNames[i]));
        columns := columns + [RefColumn(refNames[i])];
        usedRefs := usedRefs + {refNames[i]};
      }
    }
  }

  lemma UsedAfter(columns: seq<Column>, column: Column)
    ensures forall n :: ProjectsRef(columns + [column], n) <==> ProjectsRef(columns, n) || column.expr == Ref(n)
  {
    forall n | ProjectsRef(columns, n) ensures ProjectsRef(columns + [column], n) {
      var i :| 0 <= i < |columns| && columns[i].expr == Ref(n);
      assert (columns + [column])[i].expr == Ref(n);
    }
    forall n | column.expr == Ref(n) ensures ProjectsRef(columns + [column], n) {
      assert (columns + [column])[|columns|].expr == Ref(n);
    }
  }

  /** The whole split: validate, refuse what cannot be merged, then strip a copy of the statement. */
  method SplitSelectForLocalFanOut(q: Select) returns (result: Result<Split, FanOutError>)
    ensures result == SplitOf(q)
  {
    if RequiresValidation(q) {
      var error := AssertFanOutAggregateSupport(q);
      if error.Some? {
        return Failure(error.value);
      }
    }
    var hasAggregates := HasAggregates(q);
    if q.orderBy == [] && !hasAggregates {
      return Success(NoMerge);
    }
    if |q.from| != 1 || !q.from[0].TableRef? {
      return Failure(NotSingleTable);
    }
    if q.limit.Some? && q.limit.value.offset.Some? {
      return Failure(OffsetUnsupported);
    }
    var fanOut := q;
    if hasAggregates {
      var columns := BuildRowLevelColumns(q);
      fanOut := fanOut.(columns := columns);
      fanOut := fanOut.(groupBy := []);
      fanOut := fanOut.(having := None);
    }
    fanOut := fanOut.(orderBy := []);
    fanOut := fanOut.(limit := None);
    return Success(LocalMerge(fanOut, q, q.from[0].name, hasAggregates));
  }
}
