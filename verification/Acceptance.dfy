/**
 Which queries the split accepts and which of them it merges, said by the calls that occur and where
 they stand, without the walkers that look for them.
 */
module Acceptance {
  import opened Wrappers
  import opened Ast
  import opened Aggregates
  import opened Walkers
  import opened FanOut
  import opened Validator

  // ----- names ------------------------------------------------------------------------------

  /** The two characters are the same letter, or the same character. */
  predicate SameLetter(a: char, b: char) {
    || a == b
    || ('A' <= a <= 'Z' && b as int == a as int + 32)
    || ('A' <= b <= 'Z' && a as int == b as int + 32)
  }

  ghost predicate SameLetters(s: string, t: string) {
    |s| == |t| && forall i :: 0 <= i < |s| ==> SameLetter(s[i], t[i])
  }

  /** Names of functions differ in case only exactly when they are one name; the name has no capitals. */
  lemma NameIgnoresCase(s: string, t: string)
    ensures Lower(s) == Lower(t) <==> SameLetters(s, t)
    ensures SameLetters(Lower(s), s) && forall c <- Lower(s) :: !('A' <= c <= 'Z')
  {
    if Lower(s) == Lower(t) {
      assert |s| == |Lower(s)| == |t|;
      forall i | 0 <= i < |s| ensures SameLetter(s[i], t[i]) {
        assert Lower(s)[i] == Lower(t)[i];
      }
    }
    if SameLetters(s, t) {
      forall i | 0 <= i < |s| ensures Lower(s)[i] == Lower(t)[i] {
        assert SameLetter(s[i], t[i]);
      }
    }
  }

  // ----- where calls stand ------------------------------------------------------------------

  predicate Rejected(c: Expr) { c.Call? && Lower(c.fn) in REJECTED_FANOUT_AGGREGATES }

  /** Named like an aggregate that can be recomputed from rows, or used like one. */
  predicate Named(c: Expr) {
    c.Call? && (Lower(c.fn) in SCATTER_GATHER_AGGREGATES || c.withinGroup != [])
  }

  /** An aggregate that the merge computes. */
  predicate Aggregate(c: Expr) { Named(c) && !c.over && !Rejected(c) }

  lemma AggregateExact(c: Expr)
    ensures IsScatterGather(c) <==> Aggregate(c)
    ensures IsRejected(c) <==> Rejected(c)
    ensures IsWindowCall(c) <==> c.Call? && c.over
  {
  }

  /** `c` is a call in `e` that no aggregate stands around. */
  ghost predicate Outside(c: Expr, e: Expr)
    decreases e, 0
  {
    match e
    case Binary(_, l, r) => Outside(c, l) || Outside(c, r)
    case Unary(_, a) => Outside(c, a)
    case Call(_, args, _, filter, orderBy, withinGroup, _, _) =>
      || c == e
      || (!Aggregate(e)
          && (OutsideIn(c, args) || OutsideIn(c, filter) || OutsideIn(c, orderBy) || OutsideIn(c, withinGroup)))
    case _ => false
  }

  ghost predicate OutsideIn(c: Expr, es: seq<Expr>)
    decreases es, 0
  {
    es != [] && (Outside(c, es[0]) || OutsideIn(c, es[1..]))
  }

  /** `c` is reached from `e` through operands and arguments only, not through the clauses of a call. */
  ghost predicate Operand(c: Expr, e: Expr)
    decreases e, 0
  {
    || c == e
    || match e
       case Binary(_, l, r) => Operand(c, l) || Operand(c, r)
       case Unary(_, a) => Operand(c, a)
       case Call(_, args, _, _, _, _, _, _) => OperandIn(c, args)
       case _ => false
  }

  ghost predicate OperandIn(c: Expr, es: seq<Expr>)
    decreases es, 0
  {
    es != [] && (Operand(c, es[0]) || OperandIn(c, es[1..]))
  }

  lemma {:induction false} OutsideIsCall(c: Expr, e: Expr)
    requires Outside(c, e)
    ensures c.Call?
    decreases e, 0
  {
    hide Aggregate;
    match e
    case Binary(_, l, r) =>
      if Outside(c, l) {
        OutsideIsCall(c, l);
      } else {
        OutsideIsCall(c, r);
      }
    case Unary(_, a) => OutsideIsCall(c, a);
    case Call(_, args, _, filter, orderBy, withinGroup, _, _) =>
      if c == e {
      } else if OutsideIn(c, args) {
        OutsideInIsCall(c, args);
      } else if OutsideIn(c, filter) {
        OutsideInIsCall(c, filter);
      } else if OutsideIn(c, orderBy) {
        OutsideInIsCall(c, orderBy);
      } else {
        OutsideInIsCall(c, withinGroup);
      }
    case _ =>
  }

  lemma {:induction false} OutsideInIsCall(c: Expr, es: seq<Expr>)
    requires OutsideIn(c, es)
    ensures c.Call?
    decreases es, 0
  {
    if Outside(c, es[0]) {
      OutsideIsCall(c, es[0]);
    } else {
      OutsideInIsCall(c, es[1..]);
    }
  }

  /** The walk finds exactly the aggregates that stand as operands. */
  lemma {:induction false} FindAggregatesExact(e: Expr, c: Expr)
    ensures c in FindAggregates(e) <==> Aggregate(c) && Operand(c, e)
    decreases e, 0
  {
    AggregateExact(e);
    hide IsScatterGather, Aggregate;
    match e
    case Binary(_, l, r) =>
      FindAggregatesExact(l, c);
      FindAggregatesExact(r, c);
      NoAggregate(e);
    case Unary(_, a) =>
      FindAggregatesExact(a, c);
      NoAggregate(e);
    case Call(_, args, _, _, _, _, _, _) => FindAggregatesInExact(args, c);
    case _ => NoAggregate(e);
  }

  lemma NoAggregate(e: Expr)
    requires !e.Call?
    ensures !Aggregate(e)
  {
  }

  lemma {:induction false} FindAggregatesInExact(es: seq<Expr>, c: Expr)
    ensures c in FindAggregatesIn(es) <==> Aggregate(c) && OperandIn(c, es)
    decreases es, 0
  {
    hide Aggregate;
    if es == [] {
    } else {
      FindAggregatesExact(es[0], c);
      FindAggregatesInExact(es[1..], c);
    }
  }

  // ----- unknown calls ----------------------------------------------------------------------

  /** Below an aggregate no call is unknown. */
  lemma {:induction false} NoneUnknownInside(e: Expr)
    ensures UnknownCall(e, true).None?
    decreases e, 0
  {
    hide IsScatterGather, FunctionName;
    match e
    case Binary(_, l, r) =>
      NoneUnknownInside(l);
      NoneUnknownInside(r);
    case Unary(_, a) => NoneUnknownInside(a);
    case Call(_, args, _, filter, orderBy, withinGroup, _, _) =>
      NoneUnknownInsideAny(args);
      NoneUnknownInsideAny(filter);
      NoneUnknownInsideAny(orderBy);
      NoneUnknownInsideAny(withinGroup);
    case _ =>
  }

  lemma {:induction false} NoneUnknownInsideAny(es: seq<Expr>)
    ensures UnknownCallIn(es, true).None?
    decreases es, 0
  {
    if es == [] {
    } else {
      NoneUnknownInside(es[0]);
      NoneUnknownInsideAny(es[1..]);
    }
  }

  /** If the check finds nothing, every call outside the aggregates is named like one. */
  lemma {:induction false} NoneUnknown(e: Expr, c: Expr)
    requires UnknownCall(e, false).None? && Outside(c, e)
    ensures Named(c)
    decreases e, 0
  {
    AggregateExact(e);
    hide IsScatterGather, Aggregate, Lower;
    match e
    case Binary(_, l, r) =>
      if Outside(c, l) {
        NoneUnknown(l, c);
      } else {
        NoneUnknown(r, c);
      }
    case Unary(_, a) => NoneUnknown(a, c);
    case Call(_, args, _, filter, orderBy, withinGroup, _, _) =>
      if c == e {
      } else if OutsideIn(c, args) {
        NoneUnknownIn(args, c);
      } else if OutsideIn(c, filter) {
        NoneUnknownIn(filter, c);
      } else if OutsideIn(c, orderBy) {
        NoneUnknownIn(orderBy, c);
      } else {
        NoneUnknownIn(withinGroup, c);
      }
    case _ =>
  }

  lemma {:induction false} NoneUnknownIn(es: seq<Expr>, c: Expr)
    requires UnknownCallIn(es, false).None? && OutsideIn(c, es)
    ensures Named(c)
    decreases es, 0
  {
    hide Aggregate, Named;
    if Outside(c, es[0]) {
      NoneUnknown(es[0], c);
    } else {
      NoneUnknownIn(es[1..], c);
    }
  }

  /** If it finds something, it names a call outside the aggregates that is not named like one. */
  lemma {:induction false} SomeUnknown(e: Expr) returns (c: Expr)
    requires UnknownCall(e, false).Some?
    ensures c.Call? && Outside(c, e) && !Named(c) && UnknownCall(e, false) == Some(UnknownAggregate(Lower(c.fn)))
    decreases e, 0
  {
    AggregateExact(e);
    hide IsScatterGather, Aggregate, Lower;
    match e
    case Binary(_, l, r) =>
      if UnknownCall(l, false).Some? {
        c := SomeUnknown(l);
      } else {
        c := SomeUnknown(r);
      }
    case Unary(_, a) => c := SomeUnknown(a);
    case Call(_, args, _, filter, orderBy, withinGroup, _, _) =>
      if !Named(e) {
        c := e;
      } else if Aggregate(e) {
        NoneUnknownInsideAny(args);
        NoneUnknownInsideAny(filter);
        NoneUnknownInsideAny(orderBy);
        NoneUnknownInsideAny(withinGroup);
        assert false;
      } else if UnknownCallIn(args, false).Some? {
        c := SomeUnknownIn(args);
      } else if UnknownCallIn(filter, false).Some? {
        c := SomeUnknownIn(filter);
      } else if UnknownCallIn(orderBy, false).Some? {
        c := SomeUnknownIn(orderBy);
      } else {
        c := SomeUnknownIn(withinGroup);
      }
  }

  lemma {:induction false} SomeUnknownIn(es: seq<Expr>) returns (c: Expr)
    requires UnknownCallIn(es, false).Some?
    ensures c.Call? && OutsideIn(c, es) && !Named(c)
    ensures UnknownCallIn(es, false) == Some(UnknownAggregate(Lower(c.fn)))
    decreases es, 0
  {
    hide Aggregate, Named, Lower;
    if UnknownCall(es[0], false).Some? {
      c := SomeUnknown(es[0]);
    } else {
      c := SomeUnknownIn(es[1..]);
    }
  }

  /** Nothing is found exactly when every call outside the aggregates is named like one. */
  lemma UnknownCallExact(e: Expr)
    ensures UnknownCall(e, false).None? <==> forall c :: Outside(c, e) ==> Named(c)
  {
    hide Outside, Named, UnknownCall;
    if UnknownCall(e, false).None? {
      forall c | Outside(c, e) ensures Named(c) {
        NoneUnknown(e, c);
      }
    } else {
      var c := SomeUnknown(e);
    }
  }

  // ----- acceptance -------------------------------------------------------------------------

  /** A call in the SELECT list, outside the grouping expressions, or in HAVING. */
  ghost predicate OutsideInSelect(c: Expr, q: Select) {
    || (exists i :: 0 <= i < |q.columns| && q.columns[i].expr !in q.groupBy && Outside(c, q.columns[i].expr))
    || OutsideIn(c, OptionExprs(q.having))
  }

  lemma {:induction false} FirstUnknownExact(q: Select, es: seq<Expr>)
    ensures FirstUnknown(q, es).None?
       <==> forall i :: 0 <= i < |es| ==> es[i] in q.groupBy || UnknownCall(es[i], false).None?
  {
    hide UnknownCall;
    if es == [] {
    } else {
      FirstUnknownExact(q, es[1..]);
      assert forall i :: 0 < i < |es| ==> es[i] == es[1..][i - 1];
      assert forall i :: 0 <= i < |es[1..]| ==> es[1..][i] == es[i + 1];
    }
  }

  /** The check of a grouped query finds nothing exactly when all calls outside the aggregates are named like one. */
  lemma GroupedCallsExact(q: Select)
    ensures FirstUnknown(q, ColumnExprs(q.columns)).None? && UnknownCallIn(OptionExprs(q.having), false).None?
       <==> forall c :: OutsideInSelect(c, q) ==> Named(c)
  {
    hide Outside, Named, UnknownCall, FirstUnknown;
    var es := ColumnExprs(q.columns);
    FirstUnknownExact(q, es);
    HavingExact(q);
    if FirstUnknown(q, es).None? && UnknownCallIn(OptionExprs(q.having), false).None? {
      forall c | OutsideInSelect(c, q) ensures Named(c) {
        if !OutsideIn(c, OptionExprs(q.having)) {
          var i :| 0 <= i < |q.columns| && q.columns[i].expr !in q.groupBy && Outside(c, q.columns[i].expr);
          assert es[i] == q.columns[i].expr;
          UnknownCallExact(es[i]);
        }
      }
    }
    if forall c :: OutsideInSelect(c, q) ==> Named(c) {
      forall i | 0 <= i < |es| ensures es[i] in q.groupBy || UnknownCall(es[i], false).None? {
        UnknownCallExact(es[i]);
        if es[i] !in q.groupBy {
          forall c | Outside(c, es[i]) ensures Named(c) {
            assert OutsideInSelect(c, q);
          }
        }
      }
    }
  }

  lemma HavingExact(q: Select)
    ensures UnknownCallIn(OptionExprs(q.having), false).None?
       <==> forall c :: OutsideIn(c, OptionExprs(q.having)) ==> Named(c)
  {
    hide Outside, Named, UnknownCall;
    var es := OptionExprs(q.having);
    if UnknownCallIn(es, false).None? {
      forall c | OutsideIn(c, es) ensures Named(c) {
        NoneUnknownIn(es, c);
      }
    } else {
      var c := SomeUnknownIn(es);
    }
  }

  /** Nothing in the query needs rows of several shards at once in a way that the merge cannot give. */
  ghost predicate Acceptable(q: Select) {
    && (forall c: Expr :: c.Call? && OccursInSelect(c, q) ==> !c.over && !Rejected(c))
    && (forall c :: Aggregate(c) && OccursInSelect(c, q) ==> Mergeable(c))
    && (q.groupBy != [] ==> forall c :: OutsideInSelect(c, q) ==> Named(c))
  }

  /** Queries that are looked at: others pass unseen. */
  ghost predicate Checked(q: Select) {
    || q.orderBy != []
    || (q.groupBy != [] && exists i :: 0 <= i < |q.columns| && q.columns[i].expr.Call?)
    || exists c: Expr :: c.Call? && (c.over || Rejected(c) || Aggregate(c)) && OccursInSelect(c, q)
  }

  /** Queries whose shard answers are merged. */
  ghost predicate Merges(q: Select) {
    || q.orderBy != []
    || exists c :: Aggregate(c) && (OperandIn(c, ColumnExprs(q.columns)) || OperandIn(c, OptionExprs(q.having)))
  }

  predicate OneTable(q: Select) { |q.from| == 1 && q.from[0].TableRef? }

  predicate HasOffset(q: Select) { q.limit.Some? && q.limit.value.offset.Some? }

  lemma SupportExact(q: Select)
    ensures SupportError(q).None? <==> Acceptable(q)
  {
    hide FirstUnsupported, FirstInvalid, FirstUnknown, UnknownCallIn, OutsideInSelect, Named, SelectCalls;
    hide OccursInSelect;
    hide Aggregate, Mergeable, Rejected;
    UnsupportedExact(q);
    InvalidExact(q);
    GroupedCallsExact(q);
  }

  lemma UnsupportedExact(q: Select)
    ensures FirstUnsupported(SelectCalls(q)).None?
       <==> forall c: Expr :: c.Call? && OccursInSelect(c, q) ==> !c.over && !Rejected(c)
  {
    hide FirstUnsupported, FirstInvalid, SelectCalls, OccursInSelect;
    SupportedCalls(SelectCalls(q));
    CallsOccur(q);
  }

  lemma InvalidExact(q: Select)
    ensures FirstInvalid(SelectCalls(q)).None?
       <==> forall c :: Aggregate(c) && OccursInSelect(c, q) ==> Mergeable(c)
  {
    hide FirstUnsupported, FirstInvalid, SelectCalls, OccursInSelect, AggregateError, Aggregate, Mergeable;
    SupportedCalls(SelectCalls(q));
    CallsOccur(q);
    forall c: Expr | c.Call? ensures AggregateError(c).None? <==> (Aggregate(c) ==> Mergeable(c)) {
      ErrorExact(c);
    }
    assert forall c :: Aggregate(c) ==> c.Call? by { AggregatesAreCalls(); }
  }

  lemma AggregatesAreCalls()
    ensures forall c :: Aggregate(c) ==> c.Call?
  {
  }

  lemma ErrorExact(c: Expr)
    requires c.Call?
    ensures AggregateError(c).None? <==> (Aggregate(c) ==> Mergeable(c))
  {
    AggregateExact(c);
    hide Mergeable, Aggregate;
    if IsScatterGather(c) {
      MergeableExact(c);
    }
  }

  lemma CallsOccur(q: Select)
    ensures forall c: Expr :: c in SelectCalls(q) <==> c.Call? && OccursInSelect(c, q)
  {
    hide AllCallsIn, OccursIn;
    forall c: Expr ensures c in SelectCalls(q) <==> c.Call? && OccursInSelect(c, q) {
      if c.Call? {
        AllCallsInExact(ColumnExprs(q.columns), c);
        AllCallsInExact(OptionExprs(q.having), c);
        AllCallsInExact(OrderExprs(q.orderBy), c);
      }
    }
  }

  lemma MergesExact(q: Select)
    ensures Merges(q) <==> q.orderBy != [] || HasAggregates(q)
  {
    hide FindAggregatesIn, OperandIn, Aggregate;
    var columns, having := ColumnExprs(q.columns), OptionExprs(q.having);
    var found := FindAggregatesIn(columns) + FindAggregatesIn(having);
    forall c ensures c in found <==> Aggregate(c) && (OperandIn(c, columns) || OperandIn(c, having)) {
      FindAggregatesInExact(columns, c);
      FindAggregatesInExact(having, c);
    }
    if HasAggregates(q) {
      assert found[0] in found;
    }
  }

  /** An operand occurs. */
  lemma {:induction false} OperandOccurs(c: Expr, e: Expr)
    requires Operand(c, e)
    ensures Occurs(c, e)
    decreases e, 0
  {
    match e
    case Binary(_, l, r) =>
      if Operand(c, l) {
        OperandOccurs(c, l);
      } else if Operand(c, r) {
        OperandOccurs(c, r);
      }
    case Unary(_, a) =>
      if Operand(c, a) {
        OperandOccurs(c, a);
      }
    case Call(_, args, _, _, _, _, _, _) =>
      if OperandIn(c, args) {
        OperandInOccurs(c, args);
      }
    case _ =>
  }

  lemma {:induction false} OperandInOccurs(c: Expr, es: seq<Expr>)
    requires OperandIn(c, es)
    ensures OccursIn(c, es)
    decreases es, 0
  {
    if Operand(c, es[0]) {
      OperandOccurs(c, es[0]);
    } else {
      OperandInOccurs(c, es[1..]);
    }
  }

  lemma CheckedExact(q: Select)
    ensures Checked(q) <==> RequiresValidation(q)
  {
    hide IsScatterGather, IsRejected, Aggregate, Rejected, SelectCalls, OperandIn, OccursInSelect;
    CallsOccur(q);
    forall c: Expr | c.Call?
      ensures (IsWindowCall(c) <==> c.over) && (IsRejected(c) <==> Rejected(c))
        && (IsScatterGather(c) <==> Aggregate(c))
    {
      AggregateExact(c);
    }
    MergesExact(q);
    if HasAggregates(q) && q.orderBy == [] {
      var c :| Aggregate(c) && (OperandIn(c, ColumnExprs(q.columns)) || OperandIn(c, OptionExprs(q.having)));
      AggregateOccurs(c, q);
    }
  }

  lemma AggregateOccurs(c: Expr, q: Select)
    requires Aggregate(c) && (OperandIn(c, ColumnExprs(q.columns)) || OperandIn(c, OptionExprs(q.having)))
    ensures c.Call? && OccursInSelect(c, q)
  {
    if OperandIn(c, ColumnExprs(q.columns)) {
      OperandInOccurs(c, ColumnExprs(q.columns));
    } else {
      OperandInOccurs(c, OptionExprs(q.having));
    }
  }

  /**
   A query is accepted exactly when, if it is looked at, all its calls are acceptable, and, if it is
   merged, it reads one table and has no OFFSET. It is then merged exactly when it has an ORDER BY or
   an aggregate among the operands of its SELECT list or HAVING, under the name of its table.
   */
  lemma AcceptedExactly(q: Select)
    ensures SplitOf(q).Success?
       <==> (Checked(q) ==> Acceptable(q)) && (Merges(q) ==> OneTable(q) && !HasOffset(q))
    ensures SplitOf(q).Success? ==>
      if !Merges(q) then SplitOf(q).value == NoMerge
      else SplitOf(q).value.LocalMerge? && SplitOf(q).value.full == q && SplitOf(q).value.table == q.from[0].name
    ensures SplitOf(q) == Failure(NotSingleTable) <==> (Checked(q) ==> Acceptable(q)) && Merges(q) && !OneTable(q)
    ensures SplitOf(q) == Failure(OffsetUnsupported)
       <==> (Checked(q) ==> Acceptable(q)) && Merges(q) && OneTable(q) && HasOffset(q)
  {
    hide RequiresValidation, SupportError, Checked, Acceptable, Merges, HasAggregates, FanOutSelect;
    CheckedExact(q);
    SupportExact(q);
    MergesExact(q);
    if SupportError(q).Some? {
      var c := BlamedCall(q);
    }
  }

  // ----- errors -----------------------------------------------------------------------------

  /** The call is one that the error is right about. */
  ghost predicate Blames(error: FanOutError, c: Expr)
    requires c.Call?
  {
    match error
    case WindowFunction => c.over
    case RejectedAggregate(name) => Rejected(c) && name == Lower(c.fn)
    case NeedsOrderBy(name) =>
      Aggregate(c) && name == Lower(c.fn) && name in ORDER_SENSITIVE_AGGREGATES && c.orderBy + c.withinGroup == []
    case NeedsWithinGroup(name) =>
      Aggregate(c) && name == Lower(c.fn) && name in ORDERED_SET_AGGREGATES && c.withinGroup == []
    case WithinGroupUnsupported(name) =>
      Aggregate(c) && name == Lower(c.fn) && name !in SCATTER_GATHER_AGGREGATES && c.withinGroup != []
    case SubqueryInAggregate => Aggregate(c) && Occurs(Subquery, c)
    case UnknownAggregate(name) => !Named(c) && name == Lower(c.fn)
    case _ => false
  }

  /** Each error of the checks is right about a call of the query; an unknown one stands outside the aggregates. */
  lemma BlamedCall(q: Select) returns (c: Expr)
    requires SupportError(q).Some?
    ensures c.Call? && Blames(SupportError(q).value, c)
    ensures if SupportError(q).value.UnknownAggregate? then OutsideInSelect(c, q) else OccursInSelect(c, q)
  {
    hide FirstUnsupported, FirstInvalid, FirstUnknown, UnknownCallIn, SelectCalls;
    hide Blames, OutsideInSelect, OccursInSelect;
    var calls := SelectCalls(q);
    CallsOccur(q);
    if FirstUnsupported(calls).Some? {
      c := UnsupportedBlames(calls);
    } else if FirstInvalid(calls).Some? {
      c := InvalidBlames(calls);
    } else {
      c := UnknownBlames(q);
    }
  }

  lemma {:induction false} UnsupportedBlames(calls: seq<Expr>) returns (c: Expr)
    requires (forall c <- calls :: c.Call?) && FirstUnsupported(calls).Some?
    ensures c in calls && Blames(FirstUnsupported(calls).value, c) && !FirstUnsupported(calls).value.UnknownAggregate?
  {
    if IsWindowCall(calls[0]) || IsRejected(calls[0]) {
      c := calls[0];
    } else {
      c := UnsupportedBlames(calls[1..]);
    }
  }

  lemma {:induction false} InvalidBlames(calls: seq<Expr>) returns (c: Expr)
    requires (forall c <- calls :: c.Call?) && FirstInvalid(calls).Some?
    ensures c in calls && Blames(FirstInvalid(calls).value, c) && !FirstInvalid(calls).value.UnknownAggregate?
  {
    hide AggregateError, Blames;
    if AggregateError(calls[0]).Some? {
      c := calls[0];
      ErrorBlames(c);
    } else {
      c := InvalidBlames(calls[1..]);
    }
  }

  lemma ErrorBlames(c: Expr)
    requires c.Call? && AggregateError(c).Some?
    ensures Blames(AggregateError(c).value, c) && !AggregateError(c).value.UnknownAggregate?
  {
    AggregateExact(c);
    ContainsSubqueryExact(c);
    hide IsScatterGather, Aggregate, Occurs, ContainsSubquery, ValidateCall, Rejected, Named, Lower;
    if ValidateCall(c).Some? {
      hide Blames;
      ValidateBlames(c);
    }
  }

  lemma ValidateBlames(c: Expr)
    requires c.Call? && IsScatterGather(c) && Aggregate(c) && ValidateCall(c).Some?
    ensures Blames(ValidateCall(c).value, c) && !ValidateCall(c).value.UnknownAggregate?
  {
    NotRejectedToo(c);
    hide IsScatterGather, Aggregate, Occurs, Named, Lower;
  }

  lemma NotRejectedToo(c: Expr)
    requires c.Call? && IsScatterGather(c)
    ensures !Rejected(c)
  {
  }

  lemma UnknownBlames(q: Select) returns (c: Expr)
    requires FirstUnsupported(SelectCalls(q)).None? && FirstInvalid(SelectCalls(q)).None? && SupportError(q).Some?
    ensures c.Call? && Blames(SupportError(q).value, c)
    ensures SupportError(q).value.UnknownAggregate? && OutsideInSelect(c, q)
  {
    hide UnknownCallIn, UnknownCall, FirstUnknown, Outside, Named, SelectCalls, Lower, FirstUnsupported, FirstInvalid;
    hide Rejected, Aggregate, Occurs;
    var es := ColumnExprs(q.columns);
    if FirstUnknown(q, es).Some? {
      var i := FirstUnknownAt(q, es);
      c := SomeUnknown(es[i]);
      assert q.columns[i].expr == es[i];
    } else {
      c := SomeUnknownIn(OptionExprs(q.having));
    }
  }

  lemma {:induction false} FirstUnknownAt(q: Select, es: seq<Expr>) returns (i: nat)
    requires FirstUnknown(q, es).Some?
    ensures i < |es| && es[i] !in q.groupBy && FirstUnknown(q, es) == UnknownCall(es[i], false)
  {
    hide UnknownCall;
    if es[0] !in q.groupBy && UnknownCall(es[0], false).Some? {
      i := 0;
    } else {
      i := FirstUnknownAt(q, es[1..]);
      i := i + 1;
    }
  }

  // ----- three queries ----------------------------------------------------------------------

  function Plain(fn: string, arg: Expr): Expr { Call(fn, [arg], false, [], [], [], [], false) }

  /** `SELECT a, e FROM t GROUP BY a` */
  function ByA(e: Expr): Select {
    Select([RefColumn("a"), Column(e, None)], [TableRef("t", None)], None, [Ref("a")], None, [], None, false)
  }

  const X := Ref("x")

  lemma MedianIsUnknown()
    ensures "median" !in SCATTER_GATHER_AGGREGATES && "abs" !in SCATTER_GATHER_AGGREGATES
    ensures Lower("median") == "median" && Lower("abs") == "abs" && Lower("SUM") == "sum"
  {
    NotAssociative();
    NotOrdered();
    assert Lower("SUM") == ['s', 'u', 'm'];
  }

  lemma NotAssociative()
    ensures "median" !in ASSOCIATIVE_AGGREGATES && "abs" !in ASSOCIATIVE_AGGREGATES
  {
  }

  lemma NotOrdered()
    ensures "median" !in ORDER_SENSITIVE_AGGREGATES && "abs" !in ORDER_SENSITIVE_AGGREGATES
    ensures "median" !in ORDERED_SET_AGGREGATES && "abs" !in ORDERED_SET_AGGREGATES
  {
  }

  lemma NotRejected()
    ensures "median" !in REJECTED_FANOUT_AGGREGATES && "abs" !in REJECTED_FANOUT_AGGREGATES
    ensures "sum" !in REJECTED_FANOUT_AGGREGATES
  {
  }

  lemma SumIsKnown()
    ensures "sum" in SCATTER_GATHER_AGGREGATES
  {
    assert "sum" in ASSOCIATIVE_AGGREGATES;
  }

  lemma SumNeedsNoOrder()
    ensures "sum" !in ORDER_SENSITIVE_AGGREGATES && "sum" !in ORDERED_SET_AGGREGATES
  {
  }

  lemma OneCall(fn: string)
    ensures AllCalls(Plain(fn, X)) == [Plain(fn, X)] && AllCallsIn([Plain(fn, X)]) == [Plain(fn, X)]
  {
    assert [X][1..] == [] && AllCalls(X) == [] && AllCallsIn([X]) == [];
    assert [Plain(fn, X)][1..] == [];
  }

  /** Calls are looked at from the outside in and from the left to the right, so the first bad one is reported. */
  lemma CallsInOrder()
    ensures var f, g, h := Plain("f", X), Plain("g", X), Plain("h", X);
      var i, j, k := Plain("i", X), Plain("j", X), Plain("k", X);
      var c := Call("c", [f, g], false, [h], [i], [j], [], false);
      AllCalls(Binary("+", c, k)) == [c, f, g, h, i, j, k]
  {
    var f, g, h, i, j, k := Plain("f", X), Plain("g", X), Plain("h", X), Plain("i", X), Plain("j", X), Plain("k", X);
    OneCall("f"); OneCall("g"); OneCall("h"); OneCall("i"); OneCall("j"); OneCall("k");
    assert [f, g][1..] == [g] && AllCallsIn([f, g]) == [f] + [g];
    hide Plain;
    var c := Call("c", [f, g], false, [h], [i], [j], [], false);
    assert AllCalls(c) == [c] + AllCallsIn([f, g]) + AllCallsIn([h]) + AllCallsIn([i]) + AllCallsIn([j]);
  }

  /** One aggregate of each kind: merged as it stands, with an order of its own, within a group, and never. */
  lemma KindsOfAggregates()
    ensures Aggregate(Plain("count", X)) && Mergeable(Plain("count", X))
    ensures Aggregate(Plain("string_agg", X)) && !Mergeable(Plain("string_agg", X))
    ensures Mergeable(Call("string_agg", [X], false, [], [X], [], ["ASC"], false))
    ensures Aggregate(Plain("percentile_cont", X)) && !Mergeable(Plain("percentile_cont", X))
    ensures !Mergeable(Call("percentile_cont", [X], false, [], [X], [], ["ASC"], false))
    ensures Mergeable(Call("percentile_cont", [X], false, [], [], [X], ["ASC"], false))
    ensures Rejected(Plain("any_value", X)) && Rejected(Plain("rank", X))
  {
    LowerNames();
    NamesInLists();
    NoSubqueryIn();
    hide Lower, Occurs, OccursIn;
  }

  lemma NoSubqueryIn()
    ensures forall name :: !Occurs(Subquery, Plain(name, X))
    ensures forall name :: !Occurs(Subquery, Call(name, [X], false, [], [X], [], ["ASC"], false))
    ensures forall name :: !Occurs(Subquery, Call(name, [X], false, [], [], [X], ["ASC"], false))
  {
    assert !OccursIn(Subquery, [X]) && !OccursIn(Subquery, []) by { assert [X][1..] == []; }
  }

  lemma LowerNames()
    ensures Lower("count") == "count" && Lower("string_agg") == "string_agg"
    ensures Lower("percentile_cont") == "percentile_cont"
    ensures Lower("any_value") == "any_value" && Lower("rank") == "rank"
  {
  }

  lemma NamesInLists()
    ensures "count" in ASSOCIATIVE_AGGREGATES && "string_agg" in ORDER_SENSITIVE_AGGREGATES
    ensures "percentile_cont" in ORDERED_SET_AGGREGATES
    ensures "any_value" in REJECTED_FANOUT_AGGREGATES && "rank" in REJECTED_FANOUT_AGGREGATES
    ensures "count" !in ORDER_SENSITIVE_AGGREGATES && "count" !in ORDERED_SET_AGGREGATES
    ensures "string_agg" !in ORDERED_SET_AGGREGATES && "percentile_cont" !in ORDER_SENSITIVE_AGGREGATES
    ensures "count" !in REJECTED_FANOUT_AGGREGATES && "string_agg" !in REJECTED_FANOUT_AGGREGATES
    ensures "percentile_cont" !in REJECTED_FANOUT_AGGREGATES
  {
  }

  /** The calls and aggregates of such a query are those of its second column. */
  lemma CallsByA(e: Expr)
    ensures SelectCalls(ByA(e)) == AllCalls(e) && HasAggregates(ByA(e)) == (FindAggregates(e) != [])
    ensures ColumnExprs(ByA(e).columns) == [Ref("a"), e]
  {
    var es := [Ref("a"), e];
    assert AllCalls(es[0]) == [] && FindAggregates(es[0]) == [];
    hide AllCalls, FindAggregates;
    assert ColumnExprs(ByA(e).columns) == es && es[1..] == [e];
    OnlyOne(e);
    assert AllCallsIn(es) == [] + AllCalls(e) && FindAggregatesIn(es) == [] + FindAggregates(e);
    assert AllCallsIn([]) == [] && FindAggregatesIn([]) == [];
    hide AllCallsIn, FindAggregatesIn;
    assert AllCalls(e) + [] + [] == AllCalls(e) && FindAggregates(e) + [] == FindAggregates(e);
  }

  lemma OnlyOne(e: Expr)
    ensures AllCallsIn([e]) == AllCalls(e) && FindAggregatesIn([e]) == FindAggregates(e)
  {
    assert [e][1..] == [] && AllCalls(e) + [] == AllCalls(e) && FindAggregates(e) + [] == FindAggregates(e);
  }

  const MEDIAN := Plain("median", X)
  const HIDDEN := Binary("+", Const(Int(1)), MEDIAN)

  lemma MedianIs()
    ensures !IsScatterGather(MEDIAN) && !IsRejected(MEDIAN) && !IsWindowCall(MEDIAN)
    ensures AllCalls(MEDIAN) == [MEDIAN] && FindAggregates(MEDIAN) == []
    ensures UnknownCall(MEDIAN, false) == Some(UnknownAggregate("median"))
  {
    MedianIsUnknown();
    NotRejected();
    OneCall("median");
    OnlyOne(X);
  }

  /** `SELECT a, median(x) FROM t GROUP BY a` is refused. */
  lemma MedianIsRefused()
    ensures SplitOf(ByA(Plain("median", X))) == Failure(UnknownAggregate("median"))
  {
    MedianIs();
    CallsByA(MEDIAN);
    hide IsScatterGather, IsRejected, SelectCalls, HasAggregates, UnknownCall, AllCalls, Lower, FindAggregates;
    var q := ByA(MEDIAN);
    var es := [Ref("a"), MEDIAN];
    assert es[1..] == [MEDIAN] && [MEDIAN][1..] == [] && q.groupBy == [es[0]] && q.columns[1].expr == MEDIAN;
    assert AggregateError(MEDIAN).None? && FirstUnsupported([]).None? && FirstInvalid([]).None?;
    assert FirstUnsupported([MEDIAN]).None? && FirstInvalid([MEDIAN]).None?;
    assert FirstUnknown(q, es) == FirstUnknown(q, [MEDIAN]) == Some(UnknownAggregate("median"));
  }

  lemma HiddenCalls()
    ensures SelectCalls(ByA(HIDDEN)) == [MEDIAN] && !HasAggregates(ByA(HIDDEN))
  {
    MedianIs();
    CallsByA(HIDDEN);
    hide IsScatterGather, SelectCalls, HasAggregates;
    assert AllCalls(HIDDEN) == [] + [MEDIAN] && FindAggregates(HIDDEN) == [];
  }

  /** `SELECT a, 1 + median(x) FROM t GROUP BY a` is not looked at, so the groups of the shards are not merged. */
  lemma HiddenMedianIsNotMerged()
    ensures SplitOf(ByA(Binary("+", Const(Int(1)), Plain("median", X)))) == Success(NoMerge)
  {
    MedianIs();
    HiddenCalls();
    hide IsScatterGather, IsRejected, SelectCalls, HasAggregates, SupportError;
    var q := ByA(HIDDEN);
    assert forall c <- SelectCalls(q) :: c == MEDIAN;
    assert !HasGroupByWithColumnCalls(q);
  }

  const ABS := Plain("abs", X)
  const SUM_ABS := Plain("SUM", ABS)

  lemma SumAbsIs()
    ensures IsScatterGather(SUM_ABS) && !IsScatterGather(ABS) && !IsRejected(SUM_ABS) && !IsRejected(ABS)
    ensures ValidateCall(SUM_ABS).None? && !ContainsSubquery(SUM_ABS)
    ensures UnknownCall(SUM_ABS, false).None?
  {
    MedianIsUnknown();
    NotRejected();
    SumIsKnown();
    SumNeedsNoOrder();
    assert IsScatterGather(SUM_ABS) && !IsScatterGather(ABS);
    hide IsScatterGather;
    NoneUnknownInsideAny([ABS]);
    assert [ABS][1..] == [] && [X][1..] == [] && ContainsSubqueryIn([X]) == ContainsSubquery(X);
  }

  lemma SumAbsCalls()
    ensures SelectCalls(ByA(SUM_ABS)) == [SUM_ABS, ABS] && HasAggregates(ByA(SUM_ABS))
  {
    SumAbsIs();
    CallsByA(SUM_ABS);
    OneCall("abs");
    hide IsScatterGather, SelectCalls, HasAggregates;
    assert AllCalls(SUM_ABS) == [SUM_ABS] + AllCallsIn([ABS]);
    assert FindAggregates(SUM_ABS) != [];
  }

  /** `SELECT a, SUM(abs(x)) FROM t GROUP BY a` is merged: abs stands inside an aggregate. */
  lemma AbsInsideIsMerged()
    ensures var split := SplitOf(ByA(SUM_ABS)); split.Success? && split.value.LocalMerge?
  {
    hide IsScatterGather, IsRejected, SelectCalls, HasAggregates, UnknownCall, ValidateCall, ContainsSubquery;
    hide RequiresValidation, FanOutSelect;
    SumAbsIs();
    SumAbsCalls();
    var q, es := ByA(SUM_ABS), [Ref("a"), SUM_ABS];
    assert ColumnExprs(q.columns) == es && es[1..] == [SUM_ABS] && [SUM_ABS][1..] == [] && [SUM_ABS, ABS][1..] == [ABS];
    assert [ABS][1..] == [] && AggregateError(SUM_ABS).None? && AggregateError(ABS).None?;
    assert FirstUnsupported([ABS]).None? && FirstInvalid([]).None? && FirstInvalid([ABS]).None?;
    assert FirstUnsupported([SUM_ABS, ABS]).None? && FirstInvalid([SUM_ABS, ABS]).None?;
    assert FirstUnknown(q, [SUM_ABS]).None? && q.groupBy == [es[0]];
    assert FirstUnknown(q, es).None?;
  }
}
