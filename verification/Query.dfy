/**
 What a single-table SELECT returns, over tables that are sequences of rows. Operators, scalar
 functions, aggregates, truth and the ORDER BY comparison are parameters, so every statement about
 queries holds for all of them.
 */
module Query {
  import opened Wrappers
  import opened Sequences
  import opened Ast
  import opened Aggregates

  type Row = map<string, Value>

  /** What an aggregate sees of one row that passed its FILTER. */
  datatype AggregateInput = AggregateInput(args: seq<Value>, order: seq<Value>)

  datatype AggregateCall = AggregateCall(name: string, distinct: bool, directions: seq<string>)

  datatype Meaning = Meaning(
    binary: (string, Value, Value) -> Value,
    unary: (string, Value) -> Value,
    scalar: (string, seq<Value>) -> Value,
    other: (string, seq<Value>) -> Value,
    aggregate: (AggregateCall, seq<AggregateInput>) -> Value,
    truthy: Value -> bool,
    before: (seq<string>, seq<Value>, seq<Value>) -> bool)

  datatype Table = Table(cols: seq<string>, rows: seq<Row>)

  /** One line of output together with the values it is ordered by. */
  datatype Item = Item(order: seq<Value>, out: seq<Value>)

  datatype QueryError = InvalidQuery | UndefinedColumn

  // ----- expressions ------------------------------------------------------------------------

  function Cell(row: Row, name: string): Value {
    if name in row then row[name] else Null
  }

  /** The value of an expression on one row. */
  function Eval(I: Meaning, e: Expr, row: Row): Value
    decreases e, 0
  {
    match e
    case Ref(n) => if n == STAR then Int(1) else Cell(row, n)
    case Const(v) => v
    case Binary(op, l, r) => I.binary(op, Eval(I, l, row), Eval(I, r, row))
    case Unary(op, a) => I.unary(op, Eval(I, a, row))
    case Call(_, args, _, _, _, _, _, _) => I.scalar(FunctionName(e), EvalAll(I, args, row))
    case Subquery => Null
    case Other(kind, _, es) => I.other(kind, EvalAll(I, es, row))
  }

  function EvalAll(I: Meaning, es: seq<Expr>, row: Row): (vs: seq<Value>)
    ensures |vs| == |es|
    decreases es, 0
  {
    if es == [] then [] else [Eval(I, es[0], row)] + EvalAll(I, es[1..], row)
  }

  predicate Holds(I: Meaning, conditions: seq<Expr>, row: Row) {
    forall i :: 0 <= i < |conditions| ==> I.truthy(Eval(I, conditions[i], row))
  }

  /** The rows that satisfy all the conditions, in order. */
  function Passing(I: Meaning, conditions: seq<Expr>, rows: seq<Row>): seq<Row> {
    if rows == [] then []
    else (if Holds(I, conditions, rows[0]) then [rows[0]] else []) + Passing(I, conditions, rows[1..])
  }

  function Inputs(I: Meaning, call: Expr, rows: seq<Row>): seq<AggregateInput>
    requires call.Call?
  {
    if rows == [] then []
    else
      (if Holds(I, call.filter, rows[0])
       then [AggregateInput(EvalAll(I, call.args, rows[0]), EvalAll(I, call.orderBy + call.withinGroup, rows[0]))]
       else [])
      + Inputs(I, call, rows[1..])
  }

  function IndexOf(es: seq<Expr>, e: Expr): (i: nat)
    requires e in es
    ensures i < |es| && es[i] == e
  {
    if es[0] == e then 0 else 1 + IndexOf(es[1..], e)
  }

  /** The value of an expression on one group: grouping expressions come from the key. */
  function EvalGroup(I: Meaning, e: Expr, groupBy: seq<Expr>, key: seq<Value>, rows: seq<Row>): Value
    requires |key| == |groupBy|
    decreases e, 0
  {
    if e in groupBy then key[IndexOf(groupBy, e)]
    else match e
      case Ref(n) => if n == STAR then Int(1) else Null
      case Const(v) => v
      case Binary(op, l, r) => I.binary(op, EvalGroup(I, l, groupBy, key, rows), EvalGroup(I, r, groupBy, key, rows))
      case Unary(op, a) => I.unary(op, EvalGroup(I, a, groupBy, key, rows))
      case Call(_, args, distinct, _, _, _, directions, _) =>
        if IsScatterGather(e) then
          I.aggregate(AggregateCall(FunctionName(e), distinct, directions), Inputs(I, e, rows))
        else I.scalar(FunctionName(e), EvalGroupAll(I, args, groupBy, key, rows))
      case Subquery => Null
      case Other(kind, _, es) => I.other(kind, EvalGroupAll(I, es, groupBy, key, rows))
  }

  function EvalGroupAll(I: Meaning, es: seq<Expr>, groupBy: seq<Expr>, key: seq<Value>,
                        rows: seq<Row>): (vs: seq<Value>)
    requires |key| == |groupBy|
    ensures |vs| == |es|
    decreases es, 0
  {
    if es == [] then []
    else [EvalGroup(I, es[0], groupBy, key, rows)] + EvalGroupAll(I, es[1..], groupBy, key, rows)
  }

  // ----- which queries PostgreSQL accepts ---------------------------------------------------

  /** Every column an expression mentions, at any depth and under any node. */
  function Refs(e: Expr): set<string>
    decreases e, 0
  {
    match e
    case Ref(n) => if n == STAR then {} else {n}
    case Const(_) => {}
    case Binary(_, l, r) => Refs(l) + Refs(r)
    case Unary(_, a) => Refs(a)
    case Call(_, args, _, filter, orderBy, withinGroup, _, _) =>
      RefsIn(args) + RefsIn(filter) + RefsIn(orderBy) + RefsIn(withinGroup)
    case Subquery => {}
    case Other(_, _, es) => RefsIn(es)
  }

  function RefsIn(es: seq<Expr>): set<string>
    decreases es, 0
  {
    if es == [] then {} else Refs(es[0]) + RefsIn(es[1..])
  }

  /** Row-level expressions: no aggregate, no window, no subquery. */
  predicate Scalar(e: Expr)
    decreases e, 0
  {
    match e
    case Ref(_) => true
    case Const(_) => true
    case Binary(_, l, r) => Scalar(l) && Scalar(r)
    case Unary(_, a) => Scalar(a)
    case Call(_, args, _, filter, orderBy, withinGroup, _, over) =>
      !IsScatterGather(e) && !over && filter == [] && orderBy == [] && withinGroup == [] && AllScalar(args)
    case Subquery => false
    case Other(_, _, es) => AllScalar(es)
  }

  predicate AllScalar(es: seq<Expr>)
    decreases es, 0
  {
    es == [] || (Scalar(es[0]) && AllScalar(es[1..]))
  }

  /** Group-level expressions: every column is grouped or inside an aggregate, no nested aggregate. */
  predicate Grouped(e: Expr, groupBy: seq<Expr>)
    decreases e, 0
  {
    e in groupBy
    || match e
       case Ref(_) => false
       case Const(_) => true
       case Binary(_, l, r) => Grouped(l, groupBy) && Grouped(r, groupBy)
       case Unary(_, a) => Grouped(a, groupBy)
       case Call(_, args, _, filter, orderBy, withinGroup, _, over) =>
         if IsScatterGather(e) then
           AllScalar(args) && AllScalar(filter) && AllScalar(orderBy) && AllScalar(withinGroup)
         else !over && filter == [] && orderBy == [] && withinGroup == [] && AllGrouped(args, groupBy)
       case Subquery => false
       case Other(_, _, es) => AllGrouped(es, groupBy)
  }

  predicate AllGrouped(es: seq<Expr>, groupBy: seq<Expr>)
    decreases es, 0
  {
    es == [] || (Grouped(es[0], groupBy) && AllGrouped(es[1..], groupBy))
  }

  /** The name PostgreSQL gives to an output column. */
  function OutputName(c: Column): string {
    if c.alias.Some? then c.alias.value
    else match c.expr
      case Ref(n) => n
      case Call(fn, _, _, _, _, _, _, _) => fn
      case Other(_, title, _) => title
      case Const(v) => if v.Bool? then "bool" else "?column?"
      case Binary(op, _, _) => if op == "AT TIME ZONE" then "timezone" else "?column?"
      case _ => "?column?"
  }

  function OutputNames(columns: seq<Column>): (names: seq<string>)
    ensures |names| == |columns|
    ensures forall i :: 0 <= i < |names| ==> names[i] == OutputName(columns[i])
  {
    seq(|columns|, i requires 0 <= i < |columns| => OutputName(columns[i]))
  }

  /** A bare name in ORDER BY means the first output column of that name, if there is one. */
  function OrderTerm(columns: seq<Column>, term: Expr): Expr {
    if columns == [] || !term.Ref? then term
    else if OutputName(columns[0]) == term.name then columns[0].expr
    else OrderTerm(columns[1..], term)
  }

  function OrderTerms(q: Select): (es: seq<Expr>)
    ensures |es| == |q.orderBy|
    ensures forall i :: 0 <= i < |es| ==> es[i] == OrderTerm(q.columns, q.orderBy[i].term)
  {
    seq(|q.orderBy|, i requires 0 <= i < |q.orderBy| => OrderTerm(q.columns, q.orderBy[i].term))
  }

  function Directions(q: Select): seq<string> {
    seq(|q.orderBy|, i requires 0 <= i < |q.orderBy| => q.orderBy[i].direction)
  }

  predicate IsGrouped(q: Select) {
    || q.groupBy != []
    || q.having.Some?
    || !AllScalar(ColumnExprs(q.columns))
    || !AllScalar(OrderTerms(q))
  }

  predicate Valid(q: Select) {
    && q.columns != []
    && AllScalar(OptionExprs(q.where))
    && AllScalar(q.groupBy)
    && (IsGrouped(q) ==>
          && AllGrouped(ColumnExprs(q.columns), q.groupBy)
          && AllGrouped(OptionExprs(q.having), q.groupBy)
          && AllGrouped(OrderTerms(q), q.groupBy))
    && (q.distinct ==> forall i :: 0 <= i < |q.orderBy| ==> OrderTerms(q)[i] in ColumnExprs(q.columns))
  }

  function QueryRefs(q: Select): set<string> {
    RefsIn(ColumnExprs(q.columns)) + RefsIn(OptionExprs(q.where)) + RefsIn(q.groupBy)
    + RefsIn(OptionExprs(q.having)) + RefsIn(OrderTerms(q))
  }

  // ----- execution --------------------------------------------------------------------------

  function Keys(I: Meaning, groupBy: seq<Expr>, rows: seq<Row>): seq<seq<Value>> {
    seq(|rows|, i requires 0 <= i < |rows| => EvalAll(I, groupBy, rows[i]))
  }

  /** The distinct grouping keys by first appearance; without GROUP BY, the one group of all rows. */
  function GroupKeys(I: Meaning, groupBy: seq<Expr>, rows: seq<Row>): seq<seq<Value>> {
    if groupBy == [] then [[]] else Dedup(Keys(I, groupBy, rows))
  }

  function Members(I: Meaning, groupBy: seq<Expr>, key: seq<Value>, rows: seq<Row>): seq<Row> {
    if rows == [] then []
    else (if EvalAll(I, groupBy, rows[0]) == key then [rows[0]] else []) + Members(I, groupBy, key, rows[1..])
  }

  function GroupItem(I: Meaning, q: Select, key: seq<Value>, group: seq<Row>): Item
    requires |key| == |q.groupBy|
  {
    Item(EvalGroupAll(I, OrderTerms(q), q.groupBy, key, group),
         EvalGroupAll(I, ColumnExprs(q.columns), q.groupBy, key, group))
  }

  predicate GroupHolds(I: Meaning, q: Select, key: seq<Value>, group: seq<Row>)
    requires |key| == |q.groupBy|
  {
    q.having.Some? ==> I.truthy(EvalGroup(I, q.having.value, q.groupBy, key, group))
  }

  function GroupItems(I: Meaning, q: Select, keys: seq<seq<Value>>, rows: seq<Row>): seq<Item> {
    if keys == [] then []
    else
      var group := Members(I, q.groupBy, keys[0], rows);
      (if |keys[0]| == |q.groupBy| && GroupHolds(I, q, keys[0], group) then [GroupItem(I, q, keys[0], group)] else [])
      + GroupItems(I, q, keys[1..], rows)
  }

  function RowItem(I: Meaning, q: Select, row: Row): Item {
    Item(EvalAll(I, OrderTerms(q), row), EvalAll(I, ColumnExprs(q.columns), row))
  }

  function RowItems(I: Meaning, q: Select, rows: seq<Row>): (items: seq<Item>)
    ensures |items| == |rows|
    ensures forall i :: 0 <= i < |items| ==> items[i] == RowItem(I, q, rows[i])
  {
    seq(|rows|, i requires 0 <= i < |rows| => RowItem(I, q, rows[i]))
  }

  /** The output lines before DISTINCT, ORDER BY and LIMIT, of rows that passed the WHERE clause. */
  function Lines(I: Meaning, q: Select, rows: seq<Row>): seq<Item> {
    if IsGrouped(q) then GroupItems(I, q, GroupKeys(I, q.groupBy, rows), rows) else RowItems(I, q, rows)
  }

  function InsertSorted(I: Meaning, directions: seq<string>, sorted: seq<Item>, x: Item): seq<Item> {
    if sorted == [] then [x]
    else
      var n := |sorted| - 1;
      if I.before(directions, sorted[n].order, x.order) then sorted + [x]
      else InsertSorted(I, directions, sorted[..n], x) + [sorted[n]]
  }

  /** A stable sort by the ORDER BY comparison. */
  function Sort(I: Meaning, directions: seq<string>, items: seq<Item>): seq<Item> {
    if items == [] then []
    else InsertSorted(I, directions, Sort(I, directions, items[..|items| - 1]), items[|items| - 1])
  }

  /** DISTINCT, then ORDER BY, then LIMIT. (The ORDER BY terms of a DISTINCT query are output columns.) */
  function Finish(I: Meaning, q: Select, lines: seq<Item>): seq<seq<Value>> {
    var distinct := if q.distinct then Dedup(lines) else lines;
    var sorted := if q.orderBy == [] then distinct else Sort(I, Directions(q), distinct);
    var n := if q.limit.Some? && q.limit.value.limit.Some? && q.limit.value.limit.value < |sorted|
             then q.limit.value.limit.value else |sorted|;
    seq(n, i requires 0 <= i < n => sorted[i].out)
  }

  /** `*` stands for all the columns of the table. */
  function ExpandColumns(columns: seq<Column>, cols: seq<string>): seq<Column> {
    if columns == [] then []
    else
      (if columns[0].expr == Ref(STAR) then seq(|cols|, i requires 0 <= i < |cols| => RefColumn(cols[i]))
       else [columns[0]])
      + ExpandColumns(columns[1..], cols)
  }

  function Expand(q: Select, cols: seq<string>): Select {
    q.(columns := ExpandColumns(q.columns, cols))
  }

  function Execute(I: Meaning, q: Select, rows: seq<Row>): seq<seq<Value>> {
    Finish(I, q, Lines(I, q, Passing(I, OptionExprs(q.where), rows)))
  }

  /** A query runs if it is well formed and names only existing columns. */
  function Run(I: Meaning, q: Select, t: Table): Result<seq<seq<Value>>, QueryError> {
    var e := Expand(q, t.cols);
    if !Valid(e) then Failure(InvalidQuery)
    else if !(forall n :: n in QueryRefs(e) ==> n in t.cols) then Failure(UndefinedColumn)
    else Success(Execute(I, e, t.rows))
  }
}
