/** A query sees of its rows only the columns it mentions. */
module Locality {
  import opened Wrappers
  import opened Sequences
  import opened Ast
  import opened Aggregates
  import opened Query

  ghost predicate SameOn(names: set<string>, r: Row, r': Row) {
    forall n :: n in names ==> Cell(r, n) == Cell(r', n)
  }

  ghost predicate SameRows(names: set<string>, s: seq<Row>, s': seq<Row>) {
    |s| == |s'| && forall i :: 0 <= i < |s| ==> SameOn(names, s[i], s'[i])
  }

  /** The value of an expression depends only on the columns it mentions. */
  lemma {:induction false} EvalLocal(I: Meaning, e: Expr, r: Row, r': Row)
    requires SameOn(Refs(e), r, r')
    ensures Eval(I, e, r) == Eval(I, e, r')
    decreases e, 0
  {
    match e
    case Ref(_) =>
    case Const(_) =>
    case Binary(_, a, b) => EvalLocal(I, a, r, r'); EvalLocal(I, b, r, r');
    case Unary(_, a) => EvalLocal(I, a, r, r');
    case Call(_, args, _, _, _, _, _, _) => EvalAllLocal(I, args, r, r');
    case Subquery =>
    case Other(_, _, es) => EvalAllLocal(I, es, r, r');
  }

  lemma {:induction false} EvalAllLocal(I: Meaning, es: seq<Expr>, r: Row, r': Row)
    requires SameOn(RefsIn(es), r, r')
    ensures EvalAll(I, es, r) == EvalAll(I, es, r')
    decreases es, 0
  {
    if es == [] {
    } else {
      EvalLocal(I, es[0], r, r');
      EvalAllLocal(I, es[1..], r, r');
    }
  }

  lemma {:induction false} RefsInMember(es: seq<Expr>, i: nat)
    requires i < |es|
    ensures Refs(es[i]) <= RefsIn(es)
  {
    if i > 0 {
      RefsInMember(es[1..], i - 1);
    }
  }

  lemma {:induction false} RefsInAppend(es: seq<Expr>, fs: seq<Expr>)
    ensures RefsIn(es + fs) == RefsIn(es) + RefsIn(fs)
  {
    if es == [] {
      assert es + fs == fs;
    } else {
      assert (es + fs)[1..] == es[1..] + fs;
      RefsInAppend(es[1..], fs);
    }
  }

  lemma HoldsLocal(I: Meaning, conditions: seq<Expr>, r: Row, r': Row)
    requires SameOn(RefsIn(conditions), r, r')
    ensures Holds(I, conditions, r) == Holds(I, conditions, r')
  {
    forall i | 0 <= i < |conditions|
      ensures Eval(I, conditions[i], r) == Eval(I, conditions[i], r')
    {
      RefsInMember(conditions, i);
      EvalLocal(I, conditions[i], r, r');
    }
  }

  lemma {:induction false} InputsLocal(I: Meaning, call: Expr, s: seq<Row>, s': seq<Row>)
    requires call.Call? && SameRows(Refs(call), s, s')
    ensures Inputs(I, call, s) == Inputs(I, call, s')
  {
    hide IsScatterGather;
    if s == [] {
    } else {
      HoldsLocal(I, call.filter, s[0], s'[0]);
      EvalAllLocal(I, call.args, s[0], s'[0]);
      RefsInAppend(call.orderBy, call.withinGroup);
      EvalAllLocal(I, call.orderBy + call.withinGroup, s[0], s'[0]);
      InputsLocal(I, call, s[1..], s'[1..]);
    }
  }

  lemma {:induction false} EvalGroupLocal(I: Meaning, e: Expr, groupBy: seq<Expr>, key: seq<Value>, s: seq<Row>,
                                          s': seq<Row>)
    requires |key| == |groupBy| && SameRows(Refs(e), s, s')
    ensures EvalGroup(I, e, groupBy, key, s) == EvalGroup(I, e, groupBy, key, s')
    decreases e, 0
  {
    hide IsScatterGather;
    match e
    case Ref(_) =>
    case Const(_) =>
    case Binary(_, a, b) => EvalGroupLocal(I, a, groupBy, key, s, s'); EvalGroupLocal(I, b, groupBy, key, s, s');
    case Unary(_, a) => EvalGroupLocal(I, a, groupBy, key, s, s');
    case Call(_, args, _, _, _, _, _, _) =>
      InputsLocal(I, e, s, s');
      EvalGroupAllLocal(I, args, groupBy, key, s, s');
    case Subquery =>
    case Other(_, _, es) => EvalGroupAllLocal(I, es, groupBy, key, s, s');
  }

  lemma {:induction false} EvalGroupAllLocal(I: Meaning, es: seq<Expr>, groupBy: seq<Expr>, key: seq<Value>,
                                             s: seq<Row>, s': seq<Row>)
    requires |key| == |groupBy| && SameRows(RefsIn(es), s, s')
    ensures EvalGroupAll(I, es, groupBy, key, s) == EvalGroupAll(I, es, groupBy, key, s')
    decreases es, 0
  {
    if es == [] {
    } else {
      EvalGroupLocal(I, es[0], groupBy, key, s, s');
      EvalGroupAllLocal(I, es[1..], groupBy, key, s, s');
    }
  }

  lemma {:induction false} MembersLocal(I: Meaning, groupBy: seq<Expr>, key: seq<Value>, names: set<string>,
                                        s: seq<Row>, s': seq<Row>)
    requires SameRows(names, s, s') && RefsIn(groupBy) <= names
    ensures SameRows(names, Members(I, groupBy, key, s), Members(I, groupBy, key, s'))
  {
    if s == [] {
    } else {
      EvalAllLocal(I, groupBy, s[0], s'[0]);
      MembersLocal(I, groupBy, key, names, s[1..], s'[1..]);
    }
  }

  lemma GroupKeysLocal(I: Meaning, groupBy: seq<Expr>, s: seq<Row>, s': seq<Row>)
    requires SameRows(RefsIn(groupBy), s, s')
    ensures GroupKeys(I, groupBy, s) == GroupKeys(I, groupBy, s')
  {
    forall i | 0 <= i < |s| ensures Keys(I, groupBy, s)[i] == Keys(I, groupBy, s')[i] {
      EvalAllLocal(I, groupBy, s[i], s'[i]);
    }
    assert Keys(I, groupBy, s) == Keys(I, groupBy, s');
  }

  lemma GroupLocal(I: Meaning, q: Select, key: seq<Value>, g: seq<Row>, g': seq<Row>)
    requires |key| == |q.groupBy| && SameRows(QueryRefs(q), g, g')
    ensures GroupHolds(I, q, key, g) == GroupHolds(I, q, key, g')
    ensures GroupItem(I, q, key, g) == GroupItem(I, q, key, g')
  {
    if q.having.Some? {
      assert OptionExprs(q.having)[0] == q.having.value;
      RefsInMember(OptionExprs(q.having), 0);
      EvalGroupLocal(I, q.having.value, q.groupBy, key, g, g');
    }
    EvalGroupAllLocal(I, OrderTerms(q), q.groupBy, key, g, g');
    EvalGroupAllLocal(I, ColumnExprs(q.columns), q.groupBy, key, g, g');
  }

  lemma {:induction false} GroupItemsLocal(I: Meaning, q: Select, keys: seq<seq<Value>>, s: seq<Row>, s': seq<Row>)
    requires SameRows(QueryRefs(q), s, s')
    ensures GroupItems(I, q, keys, s) == GroupItems(I, q, keys, s')
  {
    if keys == [] {
    } else {
      MembersLocal(I, q.groupBy, keys[0], QueryRefs(q), s, s');
      if |keys[0]| == |q.groupBy| {
        GroupLocal(I, q, keys[0], Members(I, q.groupBy, keys[0], s), Members(I, q.groupBy, keys[0], s'));
      }
      GroupItemsLocal(I, q, keys[1..], s, s');
    }
  }

  /** Two tables that agree row by row on the columns a query mentions give it the same lines. */
  lemma LinesLocal(I: Meaning, q: Select, s: seq<Row>, s': seq<Row>)
    requires SameRows(QueryRefs(q), s, s')
    ensures Lines(I, q, s) == Lines(I, q, s')
  {
    hide IsScatterGather;
    GroupKeysLocal(I, q.groupBy, s, s');
    GroupItemsLocal(I, q, GroupKeys(I, q.groupBy, s), s, s');
    forall i | 0 <= i < |s| ensures RowItem(I, q, s[i]) == RowItem(I, q, s'[i]) {
      EvalAllLocal(I, OrderTerms(q), s[i], s'[i]);
      EvalAllLocal(I, ColumnExprs(q.columns), s[i], s'[i]);
    }
    assert RowItems(I, q, s) == RowItems(I, q, s');
  }

  lemma {:induction false} PassingAppend(I: Meaning, conditions: seq<Expr>, s: seq<Row>, t: seq<Row>)
    ensures Passing(I, conditions, s + t) == Passing(I, conditions, s) + Passing(I, conditions, t)
  {
    if s == [] {
      assert s + t == t;
    } else {
      assert (s + t)[1..] == s[1..] + t;
      PassingAppend(I, conditions, s[1..], t);
    }
  }

  lemma {:induction false} PassingHolds(I: Meaning, conditions: seq<Expr>, s: seq<Row>)
    ensures forall i :: 0 <= i < |Passing(I, conditions, s)| ==> Holds(I, conditions, Passing(I, conditions, s)[i])
  {
    if s == [] {
    } else {
      PassingHolds(I, conditions, s[1..]);
    }
  }

  lemma {:induction false} PassingAll(I: Meaning, conditions: seq<Expr>, s: seq<Row>)
    requires forall i :: 0 <= i < |s| ==> Holds(I, conditions, s[i])
    ensures Passing(I, conditions, s) == s
  {
    if s == [] {
    } else {
      PassingAll(I, conditions, s[1..]);
    }
  }
}
