/** What acceptance by the split guarantees about the accepted query and about the shard query. */
module Validator {
  import opened Wrappers
  import opened Sequences
  import opened Ast
  import opened Aggregates
  import opened Walkers
  import opened FanOut

  /** `sub` occurs in `e`, at any depth but not below a subquery or a node the walkers skip. */
  ghost predicate Occurs(sub: Expr, e: Expr)
    decreases e, 0
  {
    e == sub
    || match e
       case Binary(_, l, r) => Occurs(sub, l) || Occurs(sub, r)
       case Unary(_, a) => Occurs(sub, a)
       case Call(_, args, _, filter, orderBy, withinGroup, _, _) =>
         OccursIn(sub, args) || OccursIn(sub, filter) || OccursIn(sub, orderBy) || OccursIn(sub, withinGroup)
       case _ => false
  }

  ghost predicate OccursIn(sub: Expr, es: seq<Expr>)
    decreases es, 0
  {
    es != [] && (Occurs(sub, es[0]) || OccursIn(sub, es[1..]))
  }

  ghost predicate OccursInSelect(sub: Expr, q: Select) {
    OccursIn(sub, ColumnExprs(q.columns)) || OccursIn(sub, OptionExprs(q.having))
      || OccursIn(sub, OrderExprs(q.orderBy))
  }

  /** The walk collects exactly the calls that occur. */
  lemma {:induction false} AllCallsExact(e: Expr, c: Expr)
    requires c.Call?
    ensures c in AllCalls(e) <==> Occurs(c, e)
    decreases e, 0
  {
    hide FunctionName;
    match e
    case Call(_, args, _, filter, orderBy, withinGroup, _, _) =>
      AllCallsInExact(args, c); AllCallsInExact(filter, c);
      AllCallsInExact(orderBy, c); AllCallsInExact(withinGroup, c);
    case Binary(_, l, r) => AllCallsExact(l, c); AllCallsExact(r, c);
    case Unary(_, a) => AllCallsExact(a, c);
    case _ =>
  }

  lemma {:induction false} AllCallsInExact(es: seq<Expr>, c: Expr)
    requires c.Call?
    ensures c in AllCallsIn(es) <==> OccursIn(c, es)
    decreases es, 0
  {
    if es == [] {
    } else {
      AllCallsExact(es[0], c);
      AllCallsInExact(es[1..], c);
    }
  }

  /** The subquery test finds a subquery exactly when one occurs. */
  lemma {:induction false} ContainsSubqueryExact(e: Expr)
    ensures ContainsSubquery(e) <==> Occurs(Subquery, e)
    decreases e, 0
  {
    match e
    case Call(_, args, _, filter, orderBy, withinGroup, _, _) =>
      ContainsSubqueryInExact(args); ContainsSubqueryInExact(filter);
      ContainsSubqueryInExact(orderBy); ContainsSubqueryInExact(withinGroup);
    case Binary(_, l, r) => ContainsSubqueryExact(l); ContainsSubqueryExact(r);
    case Unary(_, a) => ContainsSubqueryExact(a);
    case _ =>
  }

  lemma {:induction false} ContainsSubqueryInExact(es: seq<Expr>)
    ensures ContainsSubqueryIn(es) <==> OccursIn(Subquery, es)
    decreases es, 0
  {
    if es == [] {
    } else {
      ContainsSubqueryExact(es[0]);
      ContainsSubqueryInExact(es[1..]);
    }
  }

  lemma {:induction false} SupportedCalls(calls: seq<Expr>)
    requires forall c :: c in calls ==> c.Call?
    ensures FirstUnsupported(calls).None? <==> forall c :: c in calls ==> !IsWindowCall(c) && !IsRejected(c)
    ensures FirstInvalid(calls).None? <==> forall c :: c in calls ==> AggregateError(c).None?
  {
    hide IsScatterGather, IsRejected, AggregateError;
    if calls == [] {
    } else {
      SupportedCalls(calls[1..]);
      assert forall c :: c in calls <==> c == calls[0] || c in calls[1..];
    }
  }

  /** A call that may be recomputed from the merged rows. */
  ghost predicate Mergeable(c: Expr)
    requires c.Call?
  {
    var name := FunctionName(c);
    && (name in ORDER_SENSITIVE_AGGREGATES ==> c.orderBy != [] || c.withinGroup != [])
    && (name in ORDERED_SET_AGGREGATES ==> c.withinGroup != [])
    && (c.withinGroup != [] ==> name in SCATTER_GATHER_AGGREGATES)
    && !Occurs(Subquery, c)
  }

  lemma MergeableExact(c: Expr)
    requires c.Call? && IsScatterGather(c)
    ensures AggregateError(c).None? <==> Mergeable(c)
  {
    ContainsSubqueryExact(c);
  }

  /**
   If the split accepts a query, no call in it is a window call or a rejected aggregate, and every
   aggregate carries the ordering it needs and contains no subquery.
   */
  lemma AcceptedIsMergeable(q: Select, c: Expr)
    requires SplitOf(q).Success? && c.Call? && OccursInSelect(c, q)
    ensures !IsWindowCall(c) && !IsRejected(c)
    ensures IsScatterGather(c) ==> Mergeable(c)
  {
    hide IsScatterGather, IsRejected, AggregateError, FirstUnsupported, FirstInvalid, Mergeable;
    hide UnknownCallIn, FirstUnknown, FanOutSelect, HasAggregates, HasGroupByWithColumnCalls;
    AllCallsInExact(ColumnExprs(q.columns), c);
    AllCallsInExact(OptionExprs(q.having), c);
    AllCallsInExact(OrderExprs(q.orderBy), c);
    assert c in SelectCalls(q);
    SupportedCalls(SelectCalls(q));
    if IsScatterGather(c) {
      MergeableExact(c);
    }
  }

  lemma {:induction false} GroupColumnsClean(projection: seq<Column>, groupBy: seq<Expr>)
    requires Clean(projection) && FindAggregatesIn(groupBy) == []
    ensures Clean(AddGroups(projection, groupBy))
    decreases groupBy
  {
    hide FindAggregates;
    if groupBy == [] {
    } else {
      GroupColumnsClean(AddColumn(projection, Column(groupBy[0], None)), groupBy[1..]);
    }
  }

  lemma {:induction false} PlainColumnsClean(projection: seq<Column>, columns: seq<Column>)
    requires Clean(projection)
    ensures Clean(AddPlainColumns(projection, columns))
    decreases columns
  {
    hide FindAggregates;
    if columns == [] {
    } else {
      var next := if FindAggregates(columns[0].expr) != [] then projection else AddColumn(projection, columns[0]);
      PlainColumnsClean(next, columns[1..]);
    }
  }

  lemma {:induction false} MissingColumnsClean(columns: seq<Column>, names: seq<string>)
    requires Clean(columns)
    ensures Clean(AddMissingRefs(columns, names))
    decreases names
  {
    if names == [] {
    } else {
      assert FindAggregates(Ref(names[0])) == [];
      var next := if ProjectsRef(columns, names[0]) then columns else columns + [RefColumn(names[0])];
      MissingColumnsClean(next, names[1..]);
    }
  }

  /** No aggregate in operand position. */
  ghost predicate Clean(columns: seq<Column>) {
    forall i :: 0 <= i < |columns| ==> FindAggregates(columns[i].expr) == []
  }

  /** The shard query is row-level: nothing of the grouping, sorting or aggregation is left in it. */
  lemma ShardQueryIsRowLevel(q: Select)
    requires HasAggregates(q) && FindAggregatesIn(q.groupBy) == []
    ensures var f := FanOutSelect(q);
      && f.groupBy == [] && f.having == None && f.orderBy == [] && f.limit == None
      && Clean(f.columns) && f.columns != []
      && f.where == q.where && f.from == q.from
  {
    hide IsScatterGather, AddGroups, AddPlainColumns, AddMissingRefs, NeededRefs, HasAggregates;
    GroupColumnsClean([], q.groupBy);
    PlainColumnsClean(AddGroups([], q.groupBy), q.columns);
    MissingColumnsClean(Projection(q), Dedup(NeededRefs(q)));
  }
}
