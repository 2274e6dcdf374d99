/**
 The part of the SELECT syntax tree that the fan-out rewrite reads and writes. A clause that the
 parser leaves out (`filter`, `orderBy`, `withinGroup` of a call) is the empty list here.
 */
module Ast {
  import opened Wrappers

  datatype Value = Null | Bool(b: bool) | Int(i: int) | Text(s: string)

  datatype Expr =
    | Ref(name: string)  // an unqualified column; "*" in count(*) and SELECT *
    | Const(value: Value)
    | Binary(op: string, left: Expr, right: Expr)
    | Unary(uop: string, argument: Expr)
    | Call(fn: string, args: seq<Expr>, distinct: bool, filter: seq<Expr>,
           orderBy: seq<Expr>, withinGroup: seq<Expr>, directions: seq<string>, over: bool)
    | Subquery
    // casts, CASE, ...: the walkers do not enter these; `title` is the name PostgreSQL gives the column
    | Other(kind: string, title: string, operands: seq<Expr>)

  datatype Column = Column(expr: Expr, alias: Option<string>)

  datatype Order = Order(term: Expr, direction: string)

  datatype FromItem = TableRef(name: string, alias: Option<string>) | OtherSource

  datatype Limit = Limit(limit: Option<nat>, offset: Option<nat>)

  datatype Select = Select(
    columns: seq<Column>,
    from: seq<FromItem>,
    where: Option<Expr>,
    groupBy: seq<Expr>,
    having: Option<Expr>,
    orderBy: seq<Order>,
    limit: Option<Limit>,
    distinct: bool)

  const STAR := "*"

  function RefColumn(name: string): Column { Column(Ref(name), None) }

  function ColumnExprs(columns: seq<Column>): (es: seq<Expr>)
    ensures |es| == |columns| && forall i :: 0 <= i < |es| ==> es[i] == columns[i].expr
  {
    seq(|columns|, i requires 0 <= i < |columns| => columns[i].expr)
  }

  function OrderExprs(orders: seq<Order>): (es: seq<Expr>)
    ensures |es| == |orders| && forall i :: 0 <= i < |es| ==> es[i] == orders[i].term
  {
    seq(|orders|, i requires 0 <= i < |orders| => orders[i].term)
  }

  function OptionExprs(e: Option<Expr>): seq<Expr> {
    if e.Some? then [e.value] else []
  }
}

/** Which aggregate calls may be recomputed from merged rows (src/postgres-aggregate-functions.ts). */
module Aggregates {
  import opened Wrappers
  import opened Ast

  const REJECTED_FANOUT_AGGREGATES: set<string> :=
    {"any_value", "rank", "dense_rank", "percent_rank", "cume_dist"}

  const ORDER_SENSITIVE_AGGREGATES: set<string> :=
    {"array_agg", "string_agg", "xmlagg", "json_agg", "jsonb_agg", "json_agg_strict",
     "jsonb_agg_strict", "json_arrayagg", "json_object_agg", "jsonb_object_agg",
     "json_object_agg_strict", "jsonb_object_agg_strict", "json_object_agg_unique",
     "jsonb_object_agg_unique", "json_object_agg_unique_strict", "jsonb_object_agg_unique_strict"}

  const ORDERED_SET_AGGREGATES: set<string> := {"mode", "percentile_cont", "percentile_disc"}

  const ASSOCIATIVE_AGGREGATES: set<string> :=
    {"sum", "min", "max", "count", "avg", "stddev", "stddev_pop", "stddev_samp", "var", "var_pop",
     "var_samp", "variance", "bool_and", "bool_or", "every", "bit_and", "bit_or", "bit_xor", "corr",
     "covar_pop", "covar_samp", "regr_avgx", "regr_avgy", "regr_count", "regr_intercept", "regr_r2",
     "regr_slope", "regr_sxx", "regr_sxy", "regr_syy", "range_agg", "range_intersect_agg", "grouping"}

  const SCATTER_GATHER_AGGREGATES: set<string> :=
    ASSOCIATIVE_AGGREGATES + ORDER_SENSITIVE_AGGREGATES + ORDERED_SET_AGGREGATES

  datatype FanOutError =
    | WindowFunction
    | RejectedAggregate(name: string)
    | NeedsOrderBy(name: string)
    | NeedsWithinGroup(name: string)
    | WithinGroupUnsupported(name: string)
    | SubqueryInAggregate
    | UnknownAggregate(name: string)
    | NotSingleTable
    | OffsetUnsupported

  function LowerChar(c: char): char {
    if 'A' <= c <= 'Z' then ((c as int) + 32) as char else c
  }

  function Lower(s: string): string {
    seq(|s|, i requires 0 <= i < |s| => LowerChar(s[i]))
  }

  function FunctionName(call: Expr): string
    requires call.Call?
  {
    Lower(call.fn)
  }

  predicate IsWindowCall(e: Expr) { e.Call? && e.over }

  predicate IsRejected(e: Expr) { e.Call? && FunctionName(e) in REJECTED_FANOUT_AGGREGATES }

  predicate HasOrderSpecification(e: Expr)
    requires e.Call?
  {
    e.withinGroup != [] || e.orderBy != []
  }

  predicate IsScatterGather(e: Expr) {
    && e.Call?
    && !e.over
    && FunctionName(e) !in REJECTED_FANOUT_AGGREGATES
    && (FunctionName(e) in SCATTER_GATHER_AGGREGATES || e.withinGroup != [])
  }

  function ValidateCall(call: Expr): Option<FanOutError>
    requires call.Call?
  {
    var name := FunctionName(call);
    if name in REJECTED_FANOUT_AGGREGATES then Some(RejectedAggregate(name))
    else if name in ORDER_SENSITIVE_AGGREGATES && !HasOrderSpecification(call) then Some(NeedsOrderBy(name))
    else if name in ORDERED_SET_AGGREGATES && call.withinGroup == [] then Some(NeedsWithinGroup(name))
    else if call.withinGroup != [] && name !in SCATTER_GATHER_AGGREGATES then Some(WithinGroupUnsupported(name))
    else None
  }
}

/** The recursive collectors of src/select-local-fanout.ts as functions of the expression. */
module Walkers {
  import opened Wrappers
  import opened Ast
  import opened Aggregates

  /** Every column name mentioned at the nodes the rewrite knows, in traversal order. */
  function CollectRefs(e: Expr): seq<string>
    decreases e, 0
  {
    match e
    case Ref(n) => if n != STAR then [n] else []
    case Call(_, args, _, filter, orderBy, withinGroup, _, _) =>
      CollectRefsAll(args) + CollectRefsAll(filter) + CollectRefsAll(orderBy) + CollectRefsAll(withinGroup)
    case Binary(_, l, r) => CollectRefs(l) + CollectRefs(r)
    case Unary(_, a) => CollectRefs(a)
    case _ => []
  }

  function CollectRefsAll(es: seq<Expr>): seq<string>
    decreases es, 0
  {
    if es == [] then [] else CollectRefs(es[0]) + CollectRefsAll(es[1..])
  }

  /** Every call node that can be reached, outermost first. */
  function AllCalls(e: Expr): (calls: seq<Expr>)
    ensures forall c :: c in calls ==> c.Call?
    decreases e, 0
  {
    match e
    case Call(_, args, _, filter, orderBy, withinGroup, _, _) =>
      [e] + AllCallsIn(args) + AllCallsIn(filter) + AllCallsIn(orderBy) + AllCallsIn(withinGroup)
    case Binary(_, l, r) => AllCalls(l) + AllCalls(r)
    case Unary(_, a) => AllCalls(a)
    case _ => []
  }

  function AllCallsIn(es: seq<Expr>): (calls: seq<Expr>)
    ensures forall c :: c in calls ==> c.Call?
    decreases es, 0
  {
    if es == [] then [] else AllCalls(es[0]) + AllCallsIn(es[1..])
  }

  /** The scatter-gather aggregates in operand position: only `args` of a call are entered. */
  function FindAggregates(e: Expr): (found: seq<Expr>)
    ensures forall c :: c in found ==> IsScatterGather(c)
    decreases e, 0
  {
    match e
    case Call(_, args, _, _, _, _, _, _) =>
      (if IsScatterGather(e) then [e] else []) + FindAggregatesIn(args)
    case Binary(_, l, r) => FindAggregates(l) + FindAggregates(r)
    case Unary(_, a) => FindAggregates(a)
    case _ => []
  }

  function FindAggregatesIn(es: seq<Expr>): (found: seq<Expr>)
    ensures forall c :: c in found ==> IsScatterGather(c)
    decreases es, 0
  {
    if es == [] then [] else FindAggregates(es[0]) + FindAggregatesIn(es[1..])
  }

  predicate ContainsSubquery(e: Expr)
    decreases e, 0
  {
    match e
    case Subquery => true
    case Call(_, args, _, filter, orderBy, withinGroup, _, _) =>
      ContainsSubqueryIn(filter) || ContainsSubqueryIn(withinGroup) || ContainsSubqueryIn(orderBy)
        || ContainsSubqueryIn(args)
    case Binary(_, l, r) => ContainsSubquery(l) || ContainsSubquery(r)
    case Unary(_, a) => ContainsSubquery(a)
    case _ => false
  }

  predicate ContainsSubqueryIn(es: seq<Expr>)
    decreases es, 0
  {
    es != [] && (ContainsSubquery(es[0]) || ContainsSubqueryIn(es[1..]))
  }

  /** The first call outside a supported aggregate whose name is not a known aggregate. */
  function UnknownCall(e: Expr, inside: bool): Option<FanOutError>
    decreases e, 0
  {
    match e
    case Call(_, args, _, filter, orderBy, withinGroup, _, _) =>
      var name := FunctionName(e);
      if !inside && name !in SCATTER_GATHER_AGGREGATES && withinGroup == [] then Some(UnknownAggregate(name))
      else
        var nested := inside || IsScatterGather(e);
        var a := UnknownCallIn(args, nested);
        if a.Some? then a else
        var f := UnknownCallIn(filter, nested);
        if f.Some? then f else
        var o := UnknownCallIn(orderBy, nested);
        if o.Some? then o else UnknownCallIn(withinGroup, nested)
    case Binary(_, l, r) =>
      var a := UnknownCall(l, inside);
      if a.Some? then a else UnknownCall(r, inside)
    case Unary(_, a) => UnknownCall(a, inside)
    case _ => None
  }

  function UnknownCallIn(es: seq<Expr>, inside: bool): Option<FanOutError>
    decreases es, 0
  {
    if es == [] then None
    else
      var a := UnknownCall(es[0], inside);
      if a.Some? then a else UnknownCallIn(es[1..], inside)
  }

  lemma {:induction false} CollectRefsAllMember(es: seq<Expr>, i: nat)
    requires i < |es|
    ensures forall n :: n in CollectRefs(es[i]) ==> n in CollectRefsAll(es)
  {
    if i > 0 {
      CollectRefsAllMember(es[1..], i - 1);
    }
  }
}
