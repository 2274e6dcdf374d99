/** Aggregates that only ORDER BY computes: for which queries the merged order is right, for all data. */
module GroupRanks {
  import opened Wrappers
  import opened Sequences
  import opened Ast
  import opened Aggregates
  import opened Walkers
  import opened FanOut
  import opened Query
  import opened Locality
  import opened Merge
  import opened Rewrite
  import opened OrderOnly
  import opened Placement
  import opened Grouping
  import opened GroupOrder
  import opened Shadow
  import opened Limits
  import opened DistinctCounts

  // ----- meanings ---------------------------------------------------------------------------

  /** NULL and false do not pass a condition, true does, and ORDER BY compares by a total preorder. */
  ghost predicate Sensible(I: Meaning) {
    && !I.truthy(Null)
    && (forall b :: I.truthy(Bool(b)) == b)
    && (forall directions :: TotalPreorder(I, directions))
  }

  /** Right for all rows on all shards and all meanings, or for the sensible ones among them. */
  ghost predicate RightFor(lenient: bool, q: Select, cols: seq<string>) {
    forall I, shards: seq<seq<Row>> :: shards != [] && (lenient || Sensible(I)) ==>
      SameAnswer(ScatterGather(I, q, cols, shards), Direct(I, q, cols, shards))
  }

  /** A meaning in which aggregates count and conditions hold as far as they can. */
  function Counting(lenient: bool, top: Option<seq<Value>>): Meaning {
    Coded(None, top).(
    aggregate := (call: AggregateCall, inputs: seq<AggregateInput>) => Int(|inputs|),
    truthy := (v: Value) => lenient || (v != Null && v != Bool(false)))
  }

  lemma CountingIsSensible(top: Option<seq<Value>>)
    ensures Sensible(Counting(false, top))
  {
  }

  /** A condition that no row passes. */
  predicate Dead(lenient: bool, condition: Expr) {
    !lenient && condition.Const? && (condition.value == Null || condition.value == Bool(false))
  }

  predicate AnyDead(lenient: bool, conditions: seq<Expr>) {
    exists i :: 0 <= i < |conditions| && Dead(lenient, conditions[i])
  }

  /** An aggregate with inputs is computed outside the grouping expressions. */
  predicate Live(lenient: bool, e: Expr)
    decreases e, 0
  {
    match e
    case Binary(_, l, r) => Live(lenient, l) || Live(lenient, r)
    case Unary(_, a) => Live(lenient, a)
    case Call(_, args, _, filter, _, _, _, _) =>
      if IsScatterGather(e) then !AnyDead(lenient, filter) else AnyLive(lenient, args)
    case Other(_, _, es) => AnyLive(lenient, es)
    case _ => false
  }

  predicate AnyLive(lenient: bool, es: seq<Expr>)
    decreases es, 0
  {
    es != [] && (Live(lenient, es[0]) || AnyLive(lenient, es[1..]))
  }

  lemma {:induction false} ScalarNotLive(lenient: bool, e: Expr)
    requires Scalar(e)
    ensures !Live(lenient, e)
    decreases e, 0
  {
    hide IsScatterGather;
    match e
    case Binary(_, l, r) =>
      ScalarNotLive(lenient, l);
      ScalarNotLive(lenient, r);
    case Unary(_, a) => ScalarNotLive(lenient, a);
    case Call(_, args, _, _, _, _, _, _) => AllScalarNotLive(lenient, args);
    case Other(_, _, es) => AllScalarNotLive(lenient, es);
    case _ =>
  }

  lemma {:induction false} AllScalarNotLive(lenient: bool, es: seq<Expr>)
    requires AllScalar(es)
    ensures !AnyLive(lenient, es)
    decreases es, 0
  {
    hide IsScatterGather;
    if es == [] {
    } else {
      ScalarNotLive(lenient, es[0]);
      AllScalarNotLive(lenient, es[1..]);
    }
  }

  /** For all meanings, an aggregate is live wherever it stands. */
  lemma {:induction false} LiveExactly(e: Expr, groupBy: seq<Expr>)
    requires Grouped(e, groupBy) && AllScalar(groupBy)
    ensures Live(true, e) <==> !Scalar(e)
    decreases e, 0
  {
    hide IsScatterGather;
    if e in groupBy {
      AllScalarMember(groupBy, e);
      ScalarNotLive(true, e);
    } else {
      match e
      case Binary(_, l, r) =>
        LiveExactly(l, groupBy);
        LiveExactly(r, groupBy);
      case Unary(_, a) => LiveExactly(a, groupBy);
      case Call(_, args, _, _, _, _, _, _) =>
        if !IsScatterGather(e) {
          AnyLiveExactly(args, groupBy);
        }
      case Other(_, _, es) => AnyLiveExactly(es, groupBy);
      case _ =>
    }
  }

  lemma {:induction false} AnyLiveExactly(es: seq<Expr>, groupBy: seq<Expr>)
    requires AllGrouped(es, groupBy) && AllScalar(groupBy)
    ensures AnyLive(true, es) <==> !AllScalar(es)
    decreases es, 0
  {
    hide IsScatterGather;
    if es == [] {
    } else {
      LiveExactly(es[0], groupBy);
      AnyLiveExactly(es[1..], groupBy);
    }
  }

  // ----- where the order is right -----------------------------------------------------------

  lemma {:induction false} NoInputs(I: Meaning, call: Expr, rows: seq<Row>)
    requires call.Call? && AnyDead(false, call.filter) && Sensible(I)
    ensures Inputs(I, call, rows) == []
  {
    hide IsScatterGather;
    if rows == [] {
    } else {
      NoInputs(I, call, rows[1..]);
      var i :| 0 <= i < |call.filter| && Dead(false, call.filter[i]);
      assert !I.truthy(Eval(I, call.filter[i], rows[0]));
    }
  }

  /** Without a live aggregate the rows of a group do not matter. */
  lemma {:induction false} NotLiveFixed(lenient: bool, I: Meaning, e: Expr, groupBy: seq<Expr>, key: seq<Value>,
                                        s: seq<Row>, t: seq<Row>)
    requires !Live(lenient, e) && (lenient || Sensible(I)) && |key| == |groupBy|
    ensures EvalGroup(I, e, groupBy, key, s) == EvalGroup(I, e, groupBy, key, t)
    decreases e, 0
  {
    hide IsScatterGather, Sensible;
    if e in groupBy {
    } else {
      match e
      case Binary(_, l, r) =>
        NotLiveFixed(lenient, I, l, groupBy, key, s, t);
        NotLiveFixed(lenient, I, r, groupBy, key, s, t);
      case Unary(_, a) => NotLiveFixed(lenient, I, a, groupBy, key, s, t);
      case Call(_, args, _, filter, _, _, _, _) =>
        if IsScatterGather(e) {
          assert !lenient;
          NoInputs(I, e, s);
          NoInputs(I, e, t);
        } else {
          NoneLiveFixed(lenient, I, args, groupBy, key, s, t);
        }
      case Other(_, _, es) => NoneLiveFixed(lenient, I, es, groupBy, key, s, t);
      case _ =>
    }
  }

  lemma {:induction false} NoneLiveFixed(lenient: bool, I: Meaning, es: seq<Expr>, groupBy: seq<Expr>,
                                         key: seq<Value>, s: seq<Row>, t: seq<Row>)
    requires !AnyLive(lenient, es) && (lenient || Sensible(I)) && |key| == |groupBy|
    ensures EvalGroupAll(I, es, groupBy, key, s) == EvalGroupAll(I, es, groupBy, key, t)
    decreases es, 0
  {
    hide IsScatterGather, Sensible;
    if es == [] {
    } else {
      NotLiveFixed(lenient, I, es[0], groupBy, key, s, t);
      NoneLiveFixed(lenient, I, es[1..], groupBy, key, s, t);
    }
  }

  lemma NotLiveOrderByKey(lenient: bool, I: Meaning, q: Select)
    requires !AnyLive(lenient, OrderTerms(q)) && (lenient || Sensible(I))
    ensures OrderByKey(I, q)
  {
    hide IsScatterGather, OrderTerms, AnyLive, Sensible;
    forall key: seq<Value>, group: seq<Row> | |key| == |q.groupBy| ensures OrderFixed(I, q, key, group) {
      NoneLiveFixed(lenient, I, OrderTerms(q), q.groupBy, key, group, []);
    }
  }

  /** One line, or none, has one order. */
  lemma FewLinesFinish(I: Meaning, q: Select, s: seq<Item>, t: seq<Item>)
    requires |s| <= 1 && Outs(s) == Outs(t)
    ensures Finish(I, q, s) == Finish(I, q, t)
  {
    hide Finish;
    assert |Outs(s)| == |s| == |t|;
    if s == [] {
      assert t == [];
    } else {
      assert s == [s[0]] && t == [t[0]] && Outs(s)[0] == Outs(t)[0];
      SingleLine(I, q, s[0]);
      SingleLine(I, q, t[0]);
    }
  }

  lemma SingleLine(I: Meaning, q: Select, x: Item)
    ensures Finish(I, q, [x]) == if Nothing(q) then [] else [x.out]
  {
    if Nothing(q) {
      hide Sort, Dedup;
      assert |Finish(I, q, [x])| == 0;
    } else {
      OneLine(I, q, x);
    }
  }

  lemma FewLinesAgree(I: Meaning, q: Select, s: seq<Row>, t: seq<Row>)
    requires q.groupBy != [] && !q.distinct && Execute(I, Unordered(q), s) == Execute(I, Unordered(q), t)
    requires |Lines(I, q, Passing(I, OptionExprs(q.where), t))| <= 1
    ensures Execute(I, q, s) == Execute(I, q, t)
  {
    hide Lines, Finish;
    var p, r := Passing(I, OptionExprs(q.where), s), Passing(I, OptionExprs(q.where), t);
    UnorderedShows(I, q, p);
    UnorderedShows(I, q, r);
    LinesUnordered(I, q, p);
    LinesUnordered(I, q, r);
    FewLinesFinish(I, q, Lines(I, q, r), Lines(I, q, p));
  }

  /** What keeps the groups of a query to at most one, or none. */
  ghost predicate FewGroups(lenient: bool, q: Select) {
    || RefsIn(q.groupBy) == {}
    || AnyDead(lenient, OptionExprs(q.where))
    || AnyDead(lenient, OptionExprs(q.having))
  }

  lemma {:induction false} NonePasses(I: Meaning, conditions: seq<Expr>, rows: seq<Row>)
    requires AnyDead(false, conditions) && Sensible(I)
    ensures Passing(I, conditions, rows) == []
  {
    hide IsScatterGather;
    if rows == [] {
    } else {
      NonePasses(I, conditions, rows[1..]);
      var i :| 0 <= i < |conditions| && Dead(false, conditions[i]);
      assert !I.truthy(Eval(I, conditions[i], rows[0]));
    }
  }

  /** A condition that is false or NULL holds of no group, whatever its key. */
  lemma {:induction false} NoGroupHolds(I: Meaning, q: Select, keys: seq<seq<Value>>, rows: seq<Row>)
    requires q.having.Some? && Dead(false, q.having.value) && Sensible(I)
    requires forall k <- keys :: KeyOfSomeRow(I, q.groupBy, k)
    ensures GroupItems(I, q, keys, rows) == []
  {
    hide IsScatterGather, GroupItem, Sensible;
    if keys == [] {
    } else {
      assert keys[0] in keys && forall k <- keys[1..] :: k in keys;
      NoGroupHolds(I, q, keys[1..], rows);
      var row :| keys[0] == EvalAll(I, q.groupBy, row);
      ConstantOfGroup(I, q.having.value, q.groupBy, row, Members(I, q.groupBy, keys[0], rows));
      assert !I.truthy(q.having.value.value) by { DeadFails(I, q.having.value); }
    }
  }

  lemma DeadFails(I: Meaning, e: Expr)
    requires Dead(false, e) && Sensible(I)
    ensures !I.truthy(e.value)
  {
  }

  lemma ConstantOfGroup(I: Meaning, e: Expr, groupBy: seq<Expr>, row: Row, rows: seq<Row>)
    requires e.Const?
    ensures EvalGroup(I, e, groupBy, EvalAll(I, groupBy, row), rows) == e.value
  {
    if e in groupBy {
      KeyAt(I, groupBy, e, row);
    }
  }

  /** Without a column in GROUP BY all rows have the same key. */
  lemma OneKey(I: Meaning, groupBy: seq<Expr>, rows: seq<Row>)
    requires RefsIn(groupBy) == {}
    ensures |Dedup(Keys(I, groupBy, rows))| <= 1
  {
    hide EvalAll;
    var keys := Keys(I, groupBy, rows);
    forall i | 0 <= i < |keys| ensures keys[i] == EvalAll(I, groupBy, map[]) {
      EvalAllLocal(I, groupBy, rows[i], map[]);
    }
    DedupOfSame(keys, EvalAll(I, groupBy, map[]));
  }

  lemma {:induction false} DedupOfSame<T>(s: seq<T>, x: T)
    requires forall i :: 0 <= i < |s| ==> s[i] == x
    ensures Dedup(s) == if s == [] then [] else [x]
  {
    if s == [] {
    } else {
      DedupOfSame(s[..|s| - 1], x);
    }
  }

  lemma {:induction false} NoMoreItemsThanKeys(I: Meaning, q: Select, keys: seq<seq<Value>>, rows: seq<Row>)
    ensures |GroupItems(I, q, keys, rows)| <= |keys|
  {
    hide GroupItem, GroupHolds, Members;
    if keys == [] {
    } else {
      NoMoreItemsThanKeys(I, q, keys[1..], rows);
    }
  }

  lemma FewGroupsFewLines(lenient: bool, I: Meaning, q: Select, rows: seq<Row>)
    requires q.groupBy != [] && FewGroups(lenient, q) && (lenient || Sensible(I))
    ensures |Lines(I, q, Passing(I, OptionExprs(q.where), rows))| <= 1
  {
    hide IsScatterGather, Dedup, GroupItems, Sensible, Keys;
    var p := Passing(I, OptionExprs(q.where), rows);
    var keys := Dedup(Keys(I, q.groupBy, p));
    NoMoreItemsThanKeys(I, q, keys, p);
    if RefsIn(q.groupBy) == {} {
      OneKey(I, q.groupBy, p);
    } else if AnyDead(lenient, OptionExprs(q.where)) {
      NonePasses(I, OptionExprs(q.where), rows);
      NoKeys(I, q.groupBy);
    } else {
      KeysAreOfRows(I, q.groupBy, p);
      NoGroupHolds(I, q, keys, p);
    }
  }

  lemma NoKeys(I: Meaning, groupBy: seq<Expr>)
    ensures Dedup(Keys(I, groupBy, [])) == []
  {
  }

  // ----- where it is wrong ------------------------------------------------------------------

  ghost predicate AllIntegers(names: set<string>, rows: seq<Row>) {
    forall row <- rows :: Integers(names, row)
  }

  /** Over integers every condition holds that can. */
  lemma ConditionHolds(lenient: bool, top: Option<seq<Value>>, e: Expr, row: Row)
    requires Scalar(e) && Integers(Refs(e), row) && !Dead(lenient, e)
    ensures var I := Counting(lenient, top); I.truthy(Eval(I, e, row))
  {
    hide IsScatterGather, Codes, Pair;
  }

  lemma {:induction false} ConditionsHold(lenient: bool, top: Option<seq<Value>>, es: seq<Expr>, row: Row)
    requires AllScalar(es) && Integers(RefsIn(es), row) && !AnyDead(lenient, es)
    ensures Holds(Counting(lenient, top), es, row)
  {
    hide IsScatterGather, Counting, Dead;
    if es == [] {
    } else {
      assert forall i :: 0 <= i < |es[1..]| ==> es[1..][i] == es[i + 1];
      ConditionHolds(lenient, top, es[0], row);
      ConditionsHold(lenient, top, es[1..], row);
      forall i | 0 <= i < |es| ensures Counting(lenient, top).truthy(Eval(Counting(lenient, top), es[i], row)) {
        if i > 0 {
          assert es[i] == es[1..][i - 1];
        }
      }
    }
  }

  /** A live aggregate counts the rows of its group. */
  lemma {:induction false} AllCounted(lenient: bool, top: Option<seq<Value>>, call: Expr, rows: seq<Row>)
    requires call.Call? && AllScalar(call.filter) && !AnyDead(lenient, call.filter)
    requires AllIntegers(RefsIn(call.filter), rows)
    ensures |Inputs(Counting(lenient, top), call, rows)| == |rows|
  {
    hide IsScatterGather, Counting, AnyDead;
    if rows == [] {
    } else {
      ConditionsHold(lenient, top, call.filter, rows[0]);
      assert rows[0] in rows && forall row <- rows[1..] :: row in rows;
      AllCounted(lenient, top, call, rows[1..]);
    }
  }

  /** What contains a live aggregate tells groups of different sizes apart. */
  lemma {:induction false} GroupDiffers(lenient: bool, top: Option<seq<Value>>, e: Expr, groupBy: seq<Expr>,
                                        key: seq<Value>, key': seq<Value>, g: seq<Row>, g': seq<Row>)
    requires Live(lenient, e) && Grouped(e, groupBy) && AllScalar(groupBy) && |key| == |key'| == |groupBy|
    requires AllIntegers(Refs(e), g) && AllIntegers(Refs(e), g') && |g| != |g'|
    ensures var I := Counting(lenient, top);
      Code(EvalGroup(I, e, groupBy, key, g)) != Code(EvalGroup(I, e, groupBy, key', g'))
    decreases e, 0
  {
    hide IsScatterGather, Pair, AnyDead, Codes;
    var I := Counting(lenient, top);
    if e in groupBy {
      AllScalarMember(groupBy, e);
      ScalarNotLive(lenient, e);
      assert false;
    } else {
      match e
      case Binary(_, a, b) =>
        if Live(lenient, a) {
          GroupDiffers(lenient, top, a, groupBy, key, key', g, g');
        } else {
          GroupDiffers(lenient, top, b, groupBy, key, key', g, g');
        }
        var x, y := Code(EvalGroup(I, a, groupBy, key, g)), Code(EvalGroup(I, b, groupBy, key, g));
        var x', y' := Code(EvalGroup(I, a, groupBy, key', g')), Code(EvalGroup(I, b, groupBy, key', g'));
        PairDiffers(x, y, x', y');
      case Unary(_, a) => GroupDiffers(lenient, top, a, groupBy, key, key', g, g');
      case Call(_, args, _, _, _, _, _, _) =>
        if IsScatterGather(e) {
          AllCounted(lenient, top, e, g);
          AllCounted(lenient, top, e, g');
        } else {
          AnyGroupDiffers(lenient, top, args, groupBy, key, key', g, g');
        }
      case Other(_, _, es) => AnyGroupDiffers(lenient, top, es, groupBy, key, key', g, g');
      case _ =>
    }
  }

  lemma {:induction false} AnyGroupDiffers(lenient: bool, top: Option<seq<Value>>, es: seq<Expr>, groupBy: seq<Expr>,
                                           key: seq<Value>, key': seq<Value>, g: seq<Row>, g': seq<Row>)
    requires AnyLive(lenient, es) && AllGrouped(es, groupBy) && AllScalar(groupBy) && |key| == |key'| == |groupBy|
    requires AllIntegers(RefsIn(es), g) && AllIntegers(RefsIn(es), g') && |g| != |g'|
    ensures var I := Counting(lenient, top);
      Codes(EvalGroupAll(I, es, groupBy, key, g)) != Codes(EvalGroupAll(I, es, groupBy, key', g'))
    decreases es, 0
  {
    hide IsScatterGather, Pair, Counting;
    var I := Counting(lenient, top);
    if Live(lenient, es[0]) {
      GroupDiffers(lenient, top, es[0], groupBy, key, key', g, g');
    } else {
      AnyGroupDiffers(lenient, top, es[1..], groupBy, key, key', g, g');
    }
    var v, v' := EvalGroup(I, es[0], groupBy, key, g), EvalGroup(I, es[0], groupBy, key', g');
    var vs, vs' := EvalGroupAll(I, es[1..], groupBy, key, g), EvalGroupAll(I, es[1..], groupBy, key', g');
    assert ([v] + vs)[1..] == vs && ([v'] + vs')[1..] == vs';
    PairDiffers(Code(v), Codes(vs), Code(v'), Codes(vs'));
  }

  lemma PairDiffers(x: nat, y: nat, x': nat, y': nat)
    requires x != x' || y != y'
    ensures Pair(x, y) != Pair(x', y')
  {
    if Pair(x, y) == Pair(x', y') {
      PairInjective(x, y, x', y');
      assert false;
    }
  }

  // ----- one table where the orders differ --------------------------------------------------

  const LEFT := true
  const RIGHT := false

  /** Two rows of one group, and one of another. */
  function Three(cols: seq<string>): seq<Row> {
    [Sample(cols, 0, LEFT), Sample(cols, 0, LEFT), Sample(cols, 0, RIGHT)]
  }

  /** Grouped, well formed over the columns, and with output columns for all it reads. */
  ghost predicate Ranked(q: Select, cols: seq<string>) {
    KeyQuery(q) && Valid(q) && Faithful(q) && forall n <- QueryRefs(q) :: n in cols
  }

  /** The keys of the two groups differ, and so does what is shown of them. */
  lemma SidesShow(q: Select, cols: seq<string>)
    requires Ranked(q, cols) && RefsIn(q.groupBy) != {}
    ensures var I := Coded(None, None); var r, s := Sample(cols, 0, LEFT), Sample(cols, 0, RIGHT);
      && EvalAll(I, q.groupBy, r) != EvalAll(I, q.groupBy, s)
      && EvalAll(I, ColumnExprs(q.columns), r) != EvalAll(I, ColumnExprs(q.columns), s)
  {
    hide IsScatterGather, Coded, NoShadow, Sample, Codes;
    var n :| n in RefsIn(q.groupBy);
    SidesDiffer(q.groupBy, n, cols, 0);
    assert n in QueryRefs(q);
    var i :| 0 <= i < |q.columns| && OutputNames(q.columns)[i] == n;
    StarNotReferenced(q.groupBy);
    ColumnShows(q, n, i);
    SidesDiffer(ColumnExprs(q.columns), n, cols, 0);
  }

  lemma ColumnShows(q: Select, n: string, i: nat)
    requires NoShadow(q.columns, QueryRefs(q)) && n in QueryRefs(q) && n != STAR
    requires i < |q.columns| && OutputNames(q.columns)[i] == n
    ensures n in RefsIn(ColumnExprs(q.columns))
  {
    RefsInMember(ColumnExprs(q.columns), i);
    assert ColumnExprs(q.columns)[i] == Ref(n);
  }

  /** The meanings differ at most in how they compare. */
  ghost predicate SameValues(I: Meaning, J: Meaning) {
    && SameOperators(I, J)
    && (forall v :: I.truthy(v) == J.truthy(v))
    && (forall call, inputs :: I.aggregate(call, inputs) == J.aggregate(call, inputs))
  }

  ghost predicate SameOperators(I: Meaning, J: Meaning) {
    && (forall op, l, r :: I.binary(op, l, r) == J.binary(op, l, r))
    && (forall op, v :: I.unary(op, v) == J.unary(op, v))
    && (forall name, vs :: I.scalar(name, vs) == J.scalar(name, vs))
    && (forall kind, vs :: I.other(kind, vs) == J.other(kind, vs))
  }

  lemma {:induction false} EvalSame(I: Meaning, J: Meaning, e: Expr, row: Row)
    requires SameOperators(I, J)
    ensures Eval(I, e, row) == Eval(J, e, row)
    decreases e, 0
  {
    match e
    case Binary(_, l, r) =>
      EvalSame(I, J, l, row);
      EvalSame(I, J, r, row);
    case Unary(_, a) => EvalSame(I, J, a, row);
    case Call(_, args, _, _, _, _, _, _) => EvalAllSame(I, J, args, row);
    case Other(_, _, es) => EvalAllSame(I, J, es, row);
    case _ =>
  }

  lemma {:induction false} EvalAllSame(I: Meaning, J: Meaning, es: seq<Expr>, row: Row)
    requires SameOperators(I, J)
    ensures EvalAll(I, es, row) == EvalAll(J, es, row)
    decreases es, 0
  {
    if es == [] {
    } else {
      EvalSame(I, J, es[0], row);
      EvalAllSame(I, J, es[1..], row);
    }
  }

  lemma {:induction false} InputsSame(I: Meaning, J: Meaning, call: Expr, rows: seq<Row>)
    requires call.Call? && SameValues(I, J)
    ensures Inputs(I, call, rows) == Inputs(J, call, rows)
  {
    hide IsScatterGather, SameOperators;
    if rows == [] {
    } else {
      InputsSame(I, J, call, rows[1..]);
      EvalAllSame(I, J, call.args, rows[0]);
      EvalAllSame(I, J, call.orderBy + call.withinGroup, rows[0]);
      forall i | 0 <= i < |call.filter| ensures Eval(I, call.filter[i], rows[0]) == Eval(J, call.filter[i], rows[0]) {
        EvalSame(I, J, call.filter[i], rows[0]);
      }
    }
  }

  lemma {:induction false} EvalGroupSame(I: Meaning, J: Meaning, e: Expr, groupBy: seq<Expr>, key: seq<Value>,
                                         rows: seq<Row>)
    requires SameValues(I, J) && |key| == |groupBy|
    ensures EvalGroup(I, e, groupBy, key, rows) == EvalGroup(J, e, groupBy, key, rows)
    decreases e, 0
  {
    hide IsScatterGather;
    match e
    case Binary(_, l, r) =>
      EvalGroupSame(I, J, l, groupBy, key, rows);
      EvalGroupSame(I, J, r, groupBy, key, rows);
    case Unary(_, a) => EvalGroupSame(I, J, a, groupBy, key, rows);
    case Call(_, args, _, _, _, _, _, _) =>
      InputsSame(I, J, e, rows);
      EvalGroupAllSame(I, J, args, groupBy, key, rows);
    case Other(_, _, es) => EvalGroupAllSame(I, J, es, groupBy, key, rows);
    case _ =>
  }

  lemma {:induction false} EvalGroupAllSame(I: Meaning, J: Meaning, es: seq<Expr>, groupBy: seq<Expr>,
                                            key: seq<Value>, rows: seq<Row>)
    requires SameValues(I, J) && |key| == |groupBy|
    ensures EvalGroupAll(I, es, groupBy, key, rows) == EvalGroupAll(J, es, groupBy, key, rows)
    decreases es, 0
  {
    hide IsScatterGather, SameValues;
    if es == [] {
    } else {
      EvalGroupSame(I, J, es[0], groupBy, key, rows);
      EvalGroupAllSame(I, J, es[1..], groupBy, key, rows);
    }
  }

  lemma CountingSame(lenient: bool, top: Option<seq<Value>>)
    ensures SameValues(Counting(lenient, top), Counting(lenient, None))
    ensures SameOperators(Counting(lenient, top), Coded(None, None))
  {
  }

  // ----- a table of two groups --------------------------------------------------------------

  /** All these rows have this key. */
  ghost predicate Keyed(I: Meaning, groupBy: seq<Expr>, rows: seq<Row>, key: seq<Value>) {
    forall i :: 0 <= i < |rows| ==> EvalAll(I, groupBy, rows[i]) == key
  }

  lemma {:induction false} MembersOfTwo(I: Meaning, groupBy: seq<Expr>, g: seq<Row>, h: seq<Row>, k: seq<Value>,
                                        l: seq<Value>)
    requires Keyed(I, groupBy, g, k) && Keyed(I, groupBy, h, l) && k != l
    ensures Members(I, groupBy, k, g + h) == g && Members(I, groupBy, l, g + h) == h
  {
    hide EvalAll;
    if g == [] {
      assert g + h == h;
      MembersOfOne(I, groupBy, h, k, l);
    } else {
      assert (g + h)[1..] == g[1..] + h && g == [g[0]] + g[1..];
      MembersOfTwo(I, groupBy, g[1..], h, k, l);
    }
  }

  lemma {:induction false} MembersOfOne(I: Meaning, groupBy: seq<Expr>, h: seq<Row>, k: seq<Value>, l: seq<Value>)
    requires Keyed(I, groupBy, h, l) && k != l
    ensures Members(I, groupBy, k, h) == [] && Members(I, groupBy, l, h) == h
  {
    hide EvalAll;
    if h == [] {
    } else {
      MembersOfOne(I, groupBy, h[1..], k, l);
    }
  }

  lemma KeysOfTwo(I: Meaning, groupBy: seq<Expr>, g: seq<Row>, h: seq<Row>, k: seq<Value>, l: seq<Value>)
    requires Keyed(I, groupBy, g, k) && Keyed(I, groupBy, h, l) && k != l && g != [] && h != []
    ensures Dedup(Keys(I, groupBy, g + h)) == [k, l]
  {
    hide EvalAll, Dedup;
    var a, b := Keys(I, groupBy, g), Keys(I, groupBy, h);
    assert Keys(I, groupBy, g + h) == a + b;
    DedupOfSame(a, k);
    DedupOfSame(b, l);
    DedupAppendDedup(a, b);
    DedupAppendDedupRight([k], b);
    DedupOfDistinct([k] + [l]);
  }

  /** The lines of two groups that both pass HAVING. */
  lemma LinesOfTwo(I: Meaning, q: Select, g: seq<Row>, h: seq<Row>, k: seq<Value>, l: seq<Value>)
    requires q.groupBy != [] && Keyed(I, q.groupBy, g, k) && Keyed(I, q.groupBy, h, l) && k != l && g != [] && h != []
    requires |k| == |l| == |q.groupBy| && GroupHolds(I, q, k, g) && GroupHolds(I, q, l, h)
    ensures Lines(I, q, g + h) == [GroupItem(I, q, k, g), GroupItem(I, q, l, h)]
  {
    hide IsScatterGather, Keyed, GroupItem, GroupHolds, Dedup, Keys, Members;
    KeysOfTwo(I, q.groupBy, g, h, k, l);
    MembersOfTwo(I, q.groupBy, g, h, k, l);
    var keys := [k, l];
    assert keys[1..] == [l] && [l][1..] == [] && GroupItems(I, q, [], g + h) == [];
    assert GroupItems(I, q, [l], g + h) == [GroupItem(I, q, l, h)] + [];
    assert GroupItems(I, q, keys, g + h) == [GroupItem(I, q, k, g)] + GroupItems(I, q, [l], g + h);
  }

  lemma HavingByKey(I: Meaning, q: Select, row: Row, group: seq<Row>)
    requires KeyQuery(q) && Valid(q) && Holds(I, OptionExprs(q.having), row)
    ensures GroupHolds(I, q, EvalAll(I, q.groupBy, row), group)
  {
    hide IsScatterGather, OrderTerms;
    if q.having.Some? {
      var having := q.having.value;
      assert OptionExprs(q.having)[0] == having;
      EvalByKey(I, having, q.groupBy, row, group);
    }
  }

  lemma OutByKey(I: Meaning, q: Select, row: Row, group: seq<Row>)
    requires KeyQuery(q) && Valid(q)
    ensures GroupItem(I, q, EvalAll(I, q.groupBy, row), group).out == EvalAll(I, ColumnExprs(q.columns), row)
  {
    hide IsScatterGather, OrderTerms;
    EvalAllByKey(I, ColumnExprs(q.columns), q.groupBy, row, group);
  }

  /** What the group of a row is ordered by. */
  function OrderOf(I: Meaning, q: Select, row: Row, group: seq<Row>): seq<Value> {
    EvalGroupAll(I, OrderTerms(q), q.groupBy, EvalAll(I, q.groupBy, row), group)
  }

  lemma ExecuteTwo(I: Meaning, q: Select, g: seq<Row>, h: seq<Row>, r: Row, s: Row)
    requires KeyQuery(q) && Valid(q) && !q.distinct && q.orderBy != [] && !Nothing(q) && g != [] && h != []
    requires Keyed(I, q.groupBy, g, EvalAll(I, q.groupBy, r)) && Keyed(I, q.groupBy, h, EvalAll(I, q.groupBy, s))
    requires EvalAll(I, q.groupBy, r) != EvalAll(I, q.groupBy, s)
    requires forall i :: 0 <= i < |g + h| ==> Holds(I, OptionExprs(q.where), (g + h)[i])
    requires Holds(I, OptionExprs(q.having), r) && Holds(I, OptionExprs(q.having), s)
    ensures Execute(I, q, g + h) != []
    ensures Execute(I, q, g + h)[0] == EvalAll(I, ColumnExprs(q.columns),
      if I.before(Directions(q), OrderOf(I, q, r, g), OrderOf(I, q, s, h)) then r else s)
  {
    assert q.groupBy != [] by { KeyQueryGroups(q); }
    hide IsScatterGather, Holds, KeyQuery, Valid, OrderTerms, EvalAll, Keyed, Lines, Finish;
    var k, l := EvalAll(I, q.groupBy, r), EvalAll(I, q.groupBy, s);
    PassingAll(I, OptionExprs(q.where), g + h);
    HavingByKey(I, q, r, g);
    HavingByKey(I, q, s, h);
    LinesOfTwo(I, q, g, h, k, l);
    TwoLines(I, q, GroupItem(I, q, k, g), GroupItem(I, q, l, h));
    OutByKey(I, q, r, g);
    OutByKey(I, q, s, h);
  }

  lemma LoadedTwo(I: Meaning, q: Select, g: seq<Row>, h: seq<Row>, r: Row, s: Row)
    requires KeyQuery(q) && Valid(q) && g != [] && h != []
    requires Keyed(I, q.groupBy, g, EvalAll(I, q.groupBy, r)) && Keyed(I, q.groupBy, h, EvalAll(I, q.groupBy, s))
    requires EvalAll(I, q.groupBy, r) != EvalAll(I, q.groupBy, s)
    requires forall i :: 0 <= i < |g + h| ==> Holds(I, OptionExprs(q.where), (g + h)[i])
    requires Holds(I, OptionExprs(q.having), r) && Holds(I, OptionExprs(q.having), s)
    ensures LoadedKeys(I, q, [g + h]) == [Image(I, q, r)] + [Image(I, q, s)]
  {
    hide IsScatterGather, Holds, KeyQuery, Valid, OrderTerms, EvalAll, Keyed, KeyImage, Image, Held, Dedup, Keys;
    hide GroupHolds;
    var f := Unordered(q);
    var k, l := EvalAll(I, q.groupBy, r), EvalAll(I, q.groupBy, s);
    KeyQueryUnordered(q);
    UnorderedReady(q);
    PassingAll(I, OptionExprs(q.where), g + h);
    KeysOfTwo(I, q.groupBy, g, h, k, l);
    HavingByKey(I, f, r, []);
    HavingByKey(I, f, s, []);
    HeldAll(I, f, [k, l]);
    assert [g + h][1..] == [] && AllShardKeys(I, f, []) == [];
    assert AllShardKeys(I, f, [g + h]) == [k, l] + [];
    KeyImageIsImage(I, f, r);
    KeyImageIsImage(I, f, s);
    SameImage(I, q, r);
    SameImage(I, q, s);
    assert KeyImage(I, f, k) == Image(I, q, r) && KeyImage(I, f, l) == Image(I, q, s);
  }

  lemma SameImage(I: Meaning, q: Select, row: Row)
    ensures Image(I, Unordered(q), row) == Image(I, q, row)
  {
  }

  /** An image stands for its row. */
  lemma ImageStands(I: Meaning, q: Select, cols: seq<string>, row: Row)
    requires Ranked(q, cols) && Holds(I, OptionExprs(q.where), row) && Integers(QueryRefs(q), row)
    ensures var image := Image(I, q, row);
      && EvalAll(I, q.groupBy, image) == EvalAll(I, q.groupBy, row)
      && Holds(I, OptionExprs(q.where), image) && Integers(QueryRefs(q), image)
  {
    hide IsScatterGather, Valid, OrderTerms, KeyQuery, Image, KeyImage, Covered, NoShadow, Distinct, Holds, EvalAll;
    StarNotInQuery(q);
    ImageSame(I, q, QueryRefs(q), row);
    KeyImageReads(I, q, row);
    KeyImageIsImage(I, q, row);
    var image := Image(I, q, row);
    assert SameOn(QueryRefs(q), row, image);
    assert forall n <- QueryRefs(q) :: Cell(image, n) == Cell(row, n);
  }

  /** On the sample all conditions hold, and its groups are told apart. */
  lemma SampleStands(lenient: bool, top: Option<seq<Value>>, q: Select, cols: seq<string>, left: bool)
    requires Ranked(q, cols) && !FewGroups(lenient, q)
    ensures var I, row := Counting(lenient, top), Sample(cols, 0, left);
      && Holds(I, OptionExprs(q.where), row) && Holds(I, OptionExprs(q.having), row) && Integers(QueryRefs(q), row)
  {
    hide IsScatterGather, Sample, Counting, Faithful, OrderTerms, AnyDead;
    var row := Sample(cols, 0, left);
    SampleIntegers(cols, 0, left, QueryRefs(q));
    assert Integers(RefsIn(OptionExprs(q.where)), row) && Integers(RefsIn(OptionExprs(q.having)), row);
    ConditionsHold(lenient, top, OptionExprs(q.where), row);
    ConditionsHold(lenient, top, OptionExprs(q.having), row);
  }

  lemma SamplesDiffer(lenient: bool, top: Option<seq<Value>>, q: Select, cols: seq<string>)
    requires Ranked(q, cols) && RefsIn(q.groupBy) != {}
    ensures var I := Counting(lenient, top); var r, s := Sample(cols, 0, LEFT), Sample(cols, 0, RIGHT);
      && EvalAll(I, q.groupBy, r) != EvalAll(I, q.groupBy, s)
      && EvalAll(I, ColumnExprs(q.columns), r) != EvalAll(I, ColumnExprs(q.columns), s)
  {
    hide IsScatterGather, Sample, Counting, Coded, SameOperators, SameValues, Ranked;
    var I, J := Counting(lenient, top), Coded(None, None);
    SidesShow(q, cols);
    CountingSame(lenient, top);
    forall row, es ensures EvalAll(I, es, row) == EvalAll(J, es, row) {
      EvalAllSame(I, J, es, row);
    }
  }

  /** The order keys of groups of different sizes differ, and do not depend on the comparison. */
  lemma OrdersDiffer(lenient: bool, top: Option<seq<Value>>, q: Select, g: seq<Row>, h: seq<Row>, r: Row, s: Row)
    requires Valid(q) && IsGrouped(q) && AnyLive(lenient, OrderTerms(q)) && |g| != |h|
    requires AllIntegers(QueryRefs(q), g) && AllIntegers(QueryRefs(q), h)
    ensures OrderOf(Counting(lenient, top), q, r, g) != OrderOf(Counting(lenient, top), q, s, h)
  {
    hide IsScatterGather, Counting, OrderTerms, AnyLive, Codes, IsGrouped;
    var I := Counting(lenient, top);
    forall row | row in g || row in h ensures Integers(RefsIn(OrderTerms(q)), row) {
    }
    AnyGroupDiffers(lenient, top, OrderTerms(q), q.groupBy, EvalAll(I, q.groupBy, r), EvalAll(I, q.groupBy, s), g, h);
  }

  lemma OrderOfSame(lenient: bool, top: Option<seq<Value>>, q: Select, row: Row, group: seq<Row>)
    ensures OrderOf(Counting(lenient, top), q, row, group) == OrderOf(Counting(lenient, None), q, row, group)
  {
    hide IsScatterGather, Counting, OrderTerms, SameOperators;
    var I, J := Counting(lenient, top), Counting(lenient, None);
    CountingSame(lenient, top);
    assert SameOperators(I, J) by { SameValuesOperators(I, J); }
    EvalAllSame(I, J, q.groupBy, row);
    EvalGroupAllSame(I, J, OrderTerms(q), q.groupBy, EvalAll(J, q.groupBy, row), group);
  }

  lemma SameValuesOperators(I: Meaning, J: Meaning)
    requires SameValues(I, J)
    ensures SameOperators(I, J)
  {
  }

  ghost predicate BeginsWith<E>(answer: Result<seq<seq<Value>>, E>, out: seq<Value>) {
    answer.Success? && answer.value != [] && answer.value[0] == out
  }

  /** The direct answer over the sample begins with one group, and the merged answer with the other. */
  lemma FirstRows(lenient: bool, top: Option<seq<Value>>, q: Select, fanOut: Select, cols: seq<string>)
    requires Splits(q, fanOut, false) && Ranked(q, cols) && !FewGroups(lenient, q)
    requires !q.distinct && q.orderBy != [] && !Nothing(q)
    ensures var I := Counting(lenient, top); var r, s := Sample(cols, 0, LEFT), Sample(cols, 0, RIGHT);
      var r', s' := Image(I, q, r), Image(I, q, s);
      && BeginsWith(Direct(I, q, cols, [Three(cols)]), EvalAll(I, ColumnExprs(q.columns),
           if I.before(Directions(q), OrderOf(I, q, r, [r, r]), OrderOf(I, q, s, [s])) then r else s))
      && BeginsWith(ScatterGather(I, q, cols, [Three(cols)]), EvalAll(I, ColumnExprs(q.columns),
           if I.before(Directions(q), OrderOf(I, q, r, [r']), OrderOf(I, q, s, [s'])) then r else s))
  {
    hide IsScatterGather, Sample, Counting, KeyQuery, Valid, Faithful, OrderTerms, FewGroups, Holds, EvalAll, Execute;
    hide Image, Splits, ScatterGather, LoadedKeys, OrderOf, Nothing, QueryRefs;
    var I := Counting(lenient, top);
    var r, s := Sample(cols, 0, LEFT), Sample(cols, 0, RIGHT);
    var r', s' := Image(I, q, r), Image(I, q, s);
    SampleStands(lenient, top, q, cols, LEFT);
    SampleStands(lenient, top, q, cols, RIGHT);
    assert RefsIn(q.groupBy) != {} by { ManyGroupsRead(lenient, q); }
    SamplesDiffer(lenient, top, q, cols);
    ImageStands(I, q, cols, r);
    ImageStands(I, q, cols, s);
    var g, h := [r, r], [s];
    assert Three(cols) == g + h && [g + h][1..] == [] && Flatten([g + h]) == (g + h) + Flatten([]) == g + h;
    DirectSucceeds(I, q, cols, [g + h]);
    MergedOnKeys(I, q, fanOut, cols, [g + h]);
    LoadedTwo(I, q, g, h, r, s);
    ExecuteTwo(I, q, g, h, r, s);
    ExecuteTwo(I, q, [r'], [s'], r, s);
  }

  lemma ManyGroupsRead(lenient: bool, q: Select)
    requires !FewGroups(lenient, q)
    ensures RefsIn(q.groupBy) != {}
  {
  }

  lemma DirectSucceeds(I: Meaning, q: Select, cols: seq<string>, shards: seq<seq<Row>>)
    requires Ranked(q, cols)
    ensures Direct(I, q, cols, shards).Success?
  {
    hide Valid, Faithful, Execute, QueryRefs, AllScalar;
    ExpandWithoutStar(q.columns, cols);
    RunsPlain(I, q, cols, Flatten(shards));
  }

  /** Two groups come back in the other order. */
  lemma OrderIsLost(lenient: bool, q: Select, fanOut: Select, cols: seq<string>)
    requires Splits(q, fanOut, false) && Ranked(q, cols) && !FewGroups(lenient, q) && !Nothing(q)
    requires AnyLive(lenient, OrderTerms(q))
    ensures !RightFor(lenient, q, cols)
  {
    hide IsScatterGather, Sample, KeyQuery, Valid, Faithful, OrderTerms, FewGroups, EvalAll, IsGrouped, Coded;
    hide Image, Splits, ScatterGather, Direct, OrderOf, Nothing, QueryRefs, AnyLive, Sensible, AllScalar;
    LiveIsOrdered(lenient, q);
    var r, s := Sample(cols, 0, LEFT), Sample(cols, 0, RIGHT);
    var top := Some(OrderOf(Counting(lenient, None), q, r, [r, r]));
    var I := Counting(lenient, top);
    var r', s' := Image(I, q, r), Image(I, q, s);
    SampleStands(lenient, top, q, cols, LEFT);
    SampleStands(lenient, top, q, cols, RIGHT);
    ImageStands(I, q, cols, r);
    ImageStands(I, q, cols, s);
    FirstRows(lenient, top, q, fanOut, cols);
    assert RefsIn(q.groupBy) != {} by { ManyGroupsRead(lenient, q); }
    SamplesDiffer(lenient, top, q, cols);
    OrderOfSame(lenient, top, q, r, [r, r]);
    OrdersDiffer(lenient, top, q, [r, r], [s], r, s);
    OrdersDiffer(lenient, top, q, [r, r], [r'], r, r);
    Comparison(lenient, top, Directions(q));
    CountingIsSensible(top);
    assert !SameAnswer(ScatterGather(I, q, cols, [Three(cols)]), Direct(I, q, cols, [Three(cols)]));
  }

  lemma Comparison(lenient: bool, top: Option<seq<Value>>, directions: seq<string>)
    ensures forall x, y :: Counting(lenient, top).before(directions, x, y) <==> (top == Some(x) ==> top == Some(y))
  {
  }

  /** A query whose ORDER BY computes a live aggregate has an ORDER BY and no DISTINCT. */
  lemma LiveIsOrdered(lenient: bool, q: Select)
    requires KeyQuery(q) && Valid(q) && AnyLive(lenient, OrderTerms(q))
    ensures !q.distinct && q.orderBy != [] && IsGrouped(q)
  {
    hide IsScatterGather;
    if q.distinct {
      DistinctOrdersByKey(q);
      AllScalarNotLive(lenient, OrderTerms(q));
      assert false;
    }
  }

  // ----- the theorems -----------------------------------------------------------------------

  lemma RightWhereFixed(lenient: bool, I: Meaning, q: Select, fanOut: Select, cols: seq<string>, shards: seq<seq<Row>>)
    requires Splits(q, fanOut, false) && Ranked(q, cols) && shards != [] && (lenient || Sensible(I))
    requires Nothing(q) || FewGroups(lenient, q) || !AnyLive(lenient, OrderTerms(q))
    ensures SameAnswer(ScatterGather(I, q, cols, shards), Direct(I, q, cols, shards))
  {
    hide IsScatterGather, KeyQuery, Valid, Faithful, OrderTerms, FewGroups, IsGrouped, AnyLive, Sensible, AllScalar;
    hide Splits, ScatterGather, Direct, LoadedKeys, Execute, QueryRefs, OrderByKey, Lines;
    DirectSucceeds(I, q, cols, shards);
    if !AnyLive(lenient, OrderTerms(q)) {
      NotLiveOrderByKey(lenient, I, q);
      FaithfulKeysAgree(I, q, fanOut, cols, shards);
    } else {
      LiveIsOrdered(lenient, q);
      assert q.groupBy != [] by { KeyQueryGroups(q); }
      MergedOnKeys(I, q, fanOut, cols, shards);
      if Nothing(q) {
        NothingExecutes(I, q, LoadedKeys(I, q, shards));
        NothingExecutes(I, q, Flatten(shards));
      } else {
        FewGroupsFewLines(lenient, I, q, Flatten(shards));
        FewLinesAgree(I, q, LoadedKeys(I, q, shards), Flatten(shards));
      }
    }
  }

  lemma NothingExecutes(I: Meaning, q: Select, rows: seq<Row>)
    requires Nothing(q)
    ensures Execute(I, q, rows) == []
  {
    hide Lines, Sort, Dedup;
    assert |Execute(I, q, rows)| == 0;
  }

  /** A right answer means that the temporary table carries what the query reads. */
  lemma RightNeedsNames(lenient: bool, q: Select, fanOut: Select, cols: seq<string>)
    requires Splits(q, fanOut, false) && KeyQuery(q) && Valid(q) && (forall n <- QueryRefs(q) :: n in cols)
    requires RightFor(lenient, q, cols)
    ensures Distinct(OutputNames(q.columns)) && Covered(q.columns, QueryRefs(q))
  {
    hide IsScatterGather, Valid, Execute, Splits, ScatterGather, QueryRefs, Counting, Sensible, AllScalar, Distinct;
    var I := Counting(lenient, None);
    CountingIsSensible(None);
    ExpandWithoutStar(q.columns, cols);
    RunsPlain(I, q, cols, Flatten([[]]));
    assert SameAnswer(ScatterGather(I, q, cols, [[]]), Direct(I, q, cols, [[]]));
    MergedNeeds(I, q, fanOut, cols, [[]]);
  }

  /**
   A grouped query that one database answers, with no aggregate in the SELECT list or HAVING, is merged
   correctly for all rows and shards and for all meanings, or all sensible ones, exactly when its
   output names are distinct and cover what it reads and: LIMIT is 0, or there is at most one group,
   or ORDER BY computes no aggregate that has inputs. Under sensible meanings a condition that is a
   literal NULL or false lets nothing in.
   */
  lemma GroupOrderExact(lenient: bool, q: Select, fanOut: Select, cols: seq<string>)
    requires Splits(q, fanOut, false) && KeyQuery(q) && Valid(q) && (forall n <- QueryRefs(q) :: n in cols)
    requires NoShadow(q.columns, QueryRefs(q))
    ensures RightFor(lenient, q, cols)
       <==> && Distinct(OutputNames(q.columns)) && Covered(q.columns, QueryRefs(q))
            && (Nothing(q) || FewGroups(lenient, q) || !AnyLive(lenient, OrderTerms(q)))
  {
    hide IsScatterGather, KeyQuery, Valid, OrderTerms, FewGroups, AnyLive, Sensible, NoShadow, Distinct, Covered;
    hide Splits, ScatterGather, Direct, QueryRefs, SameAnswer, Nothing;
    if Distinct(OutputNames(q.columns)) && Covered(q.columns, QueryRefs(q)) {
      assert Ranked(q, cols);
      if Nothing(q) || FewGroups(lenient, q) || !AnyLive(lenient, OrderTerms(q)) {
        forall I, shards: seq<seq<Row>> | shards != [] && (lenient || Sensible(I))
          ensures SameAnswer(ScatterGather(I, q, cols, shards), Direct(I, q, cols, shards))
        {
          RightWhereFixed(lenient, I, q, fanOut, cols, shards);
        }
      } else {
        OrderIsLost(lenient, q, fanOut, cols);
      }
    } else if RightFor(lenient, q, cols) {
      RightNeedsNames(lenient, q, fanOut, cols);
    }
  }

  /** For all meanings: LIMIT 0, no column in GROUP BY, or no aggregate in ORDER BY at all. */
  lemma AnyGroupOrderExact(q: Select, fanOut: Select, cols: seq<string>)
    requires Splits(q, fanOut, false) && KeyQuery(q) && Valid(q) && (forall n <- QueryRefs(q) :: n in cols)
    requires NoShadow(q.columns, QueryRefs(q))
    ensures AlwaysRight(q, cols)
       <==> && Distinct(OutputNames(q.columns)) && Covered(q.columns, QueryRefs(q))
            && (Nothing(q) || RefsIn(q.groupBy) == {} || AllScalar(OrderTerms(q)))
  {
    hide IsScatterGather, OrderTerms, AnyLive, Distinct, Covered, Splits, ScatterGather, Direct, SameAnswer, NoShadow;
    hide QueryRefs, Nothing, AllScalar;
    GroupOrderExact(true, q, fanOut, cols);
    assert AlwaysRight(q, cols) <==> RightFor(true, q, cols);
    OrderTermsLive(q);
  }

  lemma OrderTermsLive(q: Select)
    requires Valid(q) && q.groupBy != []
    ensures AnyLive(true, OrderTerms(q)) <==> !AllScalar(OrderTerms(q))
  {
    hide IsScatterGather, OrderTerms, AnyLive, AllScalar, AllGrouped;
    AnyLiveExactly(OrderTerms(q), q.groupBy);
  }

  // ----- an instance ------------------------------------------------------------------------

  /** `SELECT a FROM t GROUP BY a ORDER BY count(a)` */
  const RANKING := Select(
    [RefColumn("a")], [TableRef("t", None)], None, [Ref("a")], None, [Order(Count(Ref("a")), "ASC")], None, false)

  lemma RankingCalls()
    ensures SelectCalls(RANKING) == [Count(Ref("a"))] && !HasAggregates(RANKING)
  {
    hide IsScatterGather;
    var a := Ref("a");
    CountWalked(a);
    assert ColumnExprs(RANKING.columns) == [a] && OrderExprs(RANKING.orderBy) == [Count(a)] && [a][1..] == [];
    assert AllCallsIn([a]) == AllCalls(a) + AllCallsIn([]);
    assert FindAggregatesIn([a]) == FindAggregates(a) + FindAggregatesIn([]);
  }

  lemma RankingSplits()
    ensures Splits(RANKING, Unordered(RANKING), false)
  {
    hide IsScatterGather, SelectCalls, HasAggregates, FirstUnsupported, FirstInvalid, RequiresValidation;
    var a := Ref("a");
    RankingCalls();
    CountWalked(a);
    CountSupported(a);
    assert ColumnExprs(RANKING.columns) == [a] && [a][1..] == [];
    assert FirstUnknown(RANKING, [a]) == FirstUnknown(RANKING, []);
  }

  lemma RankingRefs()
    ensures QueryRefs(RANKING) == {"a"} && Valid(RANKING)
  {
    hide IsScatterGather;
    var a := Ref("a");
    CountGrouped(a);
    CountRefs(a);
    RankingTerms();
    assert [a][1..] == [] && RefsIn([a]) == Refs(a) + RefsIn([]);
    assert AllScalar([a]) && AllGrouped([a], [a]);
    RankingGrouped();
  }

  lemma RankingTerms()
    ensures ColumnExprs(RANKING.columns) == [Ref("a")] && OrderTerms(RANKING) == [Count(Ref("a"))]
  {
  }

  lemma RankingGrouped()
    ensures AllGrouped([Count(Ref("a"))], [Ref("a")])
  {
    hide IsScatterGather;
    var a := Ref("a");
    CountIsAggregate(Count(a));
    assert [a][1..] == [] && [Count(a)][1..] == [];
    assert AllScalar([a]);
    assert Grouped(Count(a), [a]);
  }

  lemma RankingIsFine()
    ensures KeyQuery(RANKING) && Faithful(RANKING) && NoStar(RANKING.columns)
  {
    hide IsScatterGather, QueryRefs;
    RankingRefs();
    RankingTerms();
    assert [Ref("a")][1..] == [] && AllScalar([Ref("a")]);
    assert OutputNames(RANKING.columns) == ["a"];
  }

  /**
   `SELECT a FROM t GROUP BY a ORDER BY count(a)`: the re-run counts one row for each group of each shard,
   and for some sensible meaning the groups come in another order than on one database.
   */
  lemma RankingIsLost()
    ensures !RightFor(false, RANKING, ["a"])
  {
    hide IsScatterGather, KeyQuery, Valid, RightFor, Splits, Unordered, Live;
    var a := Ref("a");
    RankingSplits();
    RankingRefs();
    RankingIsFine();
    RankingTerms();
    CountIsAggregate(Count(a));
    assert [Count(a)][1..] == [] && [a][1..] == [];
    assert AnyLive(false, OrderTerms(RANKING)) by { CountIsLive(); }
    assert RefsIn([a]) == Refs(a) + RefsIn([]);
    GroupOrderExact(false, RANKING, Unordered(RANKING), ["a"]);
  }

  lemma CountIsLive()
    ensures AnyLive(false, [Count(Ref("a"))])
  {
    hide IsScatterGather;
    CountIsAggregate(Count(Ref("a")));
  }
}
