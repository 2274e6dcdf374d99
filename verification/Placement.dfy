/** For commutative aggregates the answer does not depend on which shard holds which row. */
module Placement {
  import opened Wrappers
  import opened Sequences
  import opened Ast
  import opened Aggregates
  import opened FanOut
  import opened Query
  import opened Locality
  import opened Merge
  import opened Rewrite

  // ----- collecting from a permuted list ----------------------------------------------------

  function FlatMap<T, U>(f: T -> seq<U>, s: seq<T>): seq<U> {
    if s == [] then [] else f(s[0]) + FlatMap(f, s[1..])
  }

  lemma {:induction false} FlatMapAppend<T, U>(f: T -> seq<U>, s: seq<T>, t: seq<T>)
    ensures FlatMap(f, s + t) == FlatMap(f, s) + FlatMap(f, t)
  {
    if s == [] {
      assert s + t == t;
    } else {
      assert (s + t)[1..] == s[1..] + t;
      FlatMapAppend(f, s[1..], t);
    }
  }

  /** Taking out one element that both have. */
  lemma TakeOut<T>(s: seq<T>, t: seq<T>) returns (i: nat)
    requires s != [] && multiset(s) == multiset(t)
    ensures i < |t| && t[i] == s[0] && multiset(s[1..]) == multiset(t[..i] + t[i + 1..])
  {
    assert s[0] in t by { SameMember(s, t, s[0]); }
    i :| 0 <= i < |t| && t[i] == s[0];
    FirstOut(s);
    Without(t, i);
  }

  lemma SameMember<T>(s: seq<T>, t: seq<T>, x: T)
    requires multiset(s) == multiset(t) && x in s
    ensures x in t
  {
    assert x in multiset(t);
  }

  lemma FirstOut<T>(s: seq<T>)
    requires s != []
    ensures multiset(s[1..]) == multiset(s) - multiset{s[0]}
  {
    assert s == [s[0]] + s[1..];
  }

  lemma Without<T>(s: seq<T>, i: nat)
    requires i < |s|
    ensures multiset(s[..i] + s[i + 1..]) == multiset(s) - multiset{s[i]}
  {
    assert s == s[..i] + ([s[i]] + s[i + 1..]);
  }

  lemma FlatMapFirst<T, U>(f: T -> seq<U>, x: T, rest: seq<T>)
    ensures FlatMap(f, [x] + rest) == f(x) + FlatMap(f, rest)
  {
    assert ([x] + rest)[1..] == rest;
  }

  lemma FlatMapWithout<T, U>(f: T -> seq<U>, t: seq<T>, i: nat)
    requires i < |t|
    ensures multiset(FlatMap(f, t)) == multiset(f(t[i])) + multiset(FlatMap(f, t[..i] + t[i + 1..]))
  {
    hide FlatMap;
    var a, b := t[..i], t[i + 1..];
    assert t == a + ([t[i]] + b);
    FlatMapAppend(f, a, b);
    FlatMapAppend(f, a, [t[i]] + b);
    FlatMapFirst(f, t[i], b);
  }

  lemma {:induction false} FlatMapPermutation<T, U>(f: T -> seq<U>, s: seq<T>, t: seq<T>)
    requires multiset(s) == multiset(t)
    ensures multiset(FlatMap(f, s)) == multiset(FlatMap(f, t))
  {
    if s == [] {
      assert |multiset(t)| == 0;
    } else {
      var i := TakeOut(s, t);
      FlatMapPermutation(f, s[1..], t[..i] + t[i + 1..]);
      FlatMapWithout(f, t, i);
      FlatMapWithout(f, s, 0);
      assert s[..0] + s[1..] == s[1..];
    }
  }

  lemma {:induction false} PassingIsFlatMap(I: Meaning, conditions: seq<Expr>, rows: seq<Row>)
    ensures Passing(I, conditions, rows) == FlatMap((r: Row) => if Holds(I, conditions, r) then [r] else [], rows)
  {
    if rows == [] {
    } else {
      PassingIsFlatMap(I, conditions, rows[1..]);
    }
  }

  lemma {:induction false} MembersIsFlatMap(I: Meaning, groupBy: seq<Expr>, key: seq<Value>, rows: seq<Row>)
    ensures Members(I, groupBy, key, rows)
      == FlatMap((r: Row) => if EvalAll(I, groupBy, r) == key then [r] else [], rows)
  {
    if rows == [] {
    } else {
      MembersIsFlatMap(I, groupBy, key, rows[1..]);
    }
  }

  function InputOf(I: Meaning, call: Expr, row: Row): seq<AggregateInput>
    requires call.Call?
  {
    if Holds(I, call.filter, row)
    then [AggregateInput(EvalAll(I, call.args, row), EvalAll(I, call.orderBy + call.withinGroup, row))]
    else []
  }

  lemma {:induction false} InputsIsFlatMap(I: Meaning, call: Expr, rows: seq<Row>)
    requires call.Call?
    ensures Inputs(I, call, rows) == FlatMap((r: Row) => InputOf(I, call, r), rows)
  {
    if rows == [] {
    } else {
      InputsIsFlatMap(I, call, rows[1..]);
    }
  }

  function KeyItems(I: Meaning, q: Select, rows: seq<Row>, key: seq<Value>): seq<Item> {
    var group := Members(I, q.groupBy, key, rows);
    if |key| == |q.groupBy| && GroupHolds(I, q, key, group) then [GroupItem(I, q, key, group)] else []
  }

  lemma {:induction false} GroupItemsIsFlatMap(I: Meaning, q: Select, keys: seq<seq<Value>>, rows: seq<Row>)
    ensures GroupItems(I, q, keys, rows) == FlatMap((k: seq<Value>) => KeyItems(I, q, rows, k), keys)
  {
    if keys == [] {
    } else {
      GroupItemsIsFlatMap(I, q, keys[1..], rows);
    }
  }

  lemma {:induction false} DistinctCount<T>(s: seq<T>, x: T)
    requires Distinct(s)
    ensures multiset(s)[x] == if x in s then 1 else 0
  {
    if s == [] {
    } else {
      assert s == [s[0]] + s[1..];
      assert forall i, j :: 0 <= i < j < |s[1..]| ==> s[1..][i] == s[i + 1] && s[1..][j] == s[j + 1];
      assert s[0] !in s[1..];
      DistinctCount(s[1..], x);
    }
  }

  lemma SameElementsSameMultiset<T>(s: seq<T>, t: seq<T>)
    requires Distinct(s) && Distinct(t) && forall x :: x in s <==> x in t
    ensures multiset(s) == multiset(t)
  {
    hide Distinct;
    forall x ensures multiset(s)[x] == multiset(t)[x] {
      DistinctCount(s, x);
      DistinctCount(t, x);
    }
  }

  // ----- evaluation over permuted rows ------------------------------------------------------

  /** No aggregate sees the order of its inputs (an inner ORDER BY is part of each input). */
  ghost predicate Commutative(I: Meaning) {
    forall c, xs, ys :: multiset(xs) == multiset(ys) ==> I.aggregate(c, xs) == I.aggregate(c, ys)
  }

  ghost predicate Permuted<T>(s: seq<T>, t: seq<T>) { multiset(s) == multiset(t) }

  lemma PassingPermuted(I: Meaning, conditions: seq<Expr>, s: seq<Row>, t: seq<Row>)
    requires Permuted(s, t)
    ensures Permuted(Passing(I, conditions, s), Passing(I, conditions, t))
  {
    PassingIsFlatMap(I, conditions, s);
    PassingIsFlatMap(I, conditions, t);
    FlatMapPermutation((r: Row) => if Holds(I, conditions, r) then [r] else [], s, t);
  }

  lemma MembersPermuted(I: Meaning, groupBy: seq<Expr>, key: seq<Value>, s: seq<Row>, t: seq<Row>)
    requires Permuted(s, t)
    ensures Permuted(Members(I, groupBy, key, s), Members(I, groupBy, key, t))
  {
    MembersIsFlatMap(I, groupBy, key, s);
    MembersIsFlatMap(I, groupBy, key, t);
    FlatMapPermutation((r: Row) => if EvalAll(I, groupBy, r) == key then [r] else [], s, t);
  }

  lemma InputsPermuted(I: Meaning, call: Expr, s: seq<Row>, t: seq<Row>)
    requires call.Call? && Permuted(s, t)
    ensures Permuted(Inputs(I, call, s), Inputs(I, call, t))
  {
    InputsIsFlatMap(I, call, s);
    InputsIsFlatMap(I, call, t);
    FlatMapPermutation((r: Row) => InputOf(I, call, r), s, t);
  }

  lemma {:induction false} EvalGroupPermuted(I: Meaning, e: Expr, groupBy: seq<Expr>, key: seq<Value>, s: seq<Row>,
                                             t: seq<Row>)
    requires Commutative(I) && |key| == |groupBy| && Permuted(s, t)
    ensures EvalGroup(I, e, groupBy, key, s) == EvalGroup(I, e, groupBy, key, t)
    decreases e, 0
  {
    hide IsScatterGather;
    match e
    case Ref(_) =>
    case Const(_) =>
    case Binary(_, a, b) => EvalGroupPermuted(I, a, groupBy, key, s, t); EvalGroupPermuted(I, b, groupBy, key, s, t);
    case Unary(_, a) => EvalGroupPermuted(I, a, groupBy, key, s, t);
    case Call(_, args, _, _, _, _, _, _) =>
      InputsPermuted(I, e, s, t);
      EvalGroupAllPermuted(I, args, groupBy, key, s, t);
    case Subquery =>
    case Other(_, _, es) => EvalGroupAllPermuted(I, es, groupBy, key, s, t);
  }

  lemma {:induction false} EvalGroupAllPermuted(I: Meaning, es: seq<Expr>, groupBy: seq<Expr>, key: seq<Value>,
                                                s: seq<Row>, t: seq<Row>)
    requires Commutative(I) && |key| == |groupBy| && Permuted(s, t)
    ensures EvalGroupAll(I, es, groupBy, key, s) == EvalGroupAll(I, es, groupBy, key, t)
    decreases es, 0
  {
    if es == [] {
    } else {
      EvalGroupPermuted(I, es[0], groupBy, key, s, t);
      EvalGroupAllPermuted(I, es[1..], groupBy, key, s, t);
    }
  }

  /** Each group has the same line, or none, in both. */
  lemma KeyItemsPermuted(I: Meaning, q: Select, key: seq<Value>, s: seq<Row>, t: seq<Row>)
    requires Commutative(I) && Permuted(s, t)
    ensures KeyItems(I, q, s, key) == KeyItems(I, q, t, key)
  {
    MembersPermuted(I, q.groupBy, key, s, t);
    if |key| == |q.groupBy| {
      var g, h := Members(I, q.groupBy, key, s), Members(I, q.groupBy, key, t);
      if q.having.Some? {
        EvalGroupPermuted(I, q.having.value, q.groupBy, key, g, h);
      }
      EvalGroupAllPermuted(I, OrderTerms(q), q.groupBy, key, g, h);
      EvalGroupAllPermuted(I, ColumnExprs(q.columns), q.groupBy, key, g, h);
    }
  }

  lemma GroupKeysPermuted(I: Meaning, groupBy: seq<Expr>, s: seq<Row>, t: seq<Row>)
    requires Permuted(s, t)
    ensures Permuted(GroupKeys(I, groupBy, s), GroupKeys(I, groupBy, t))
  {
    if groupBy != [] {
      DedupElements(Keys(I, groupBy, s));
      DedupElements(Keys(I, groupBy, t));
      KeysIncluded(I, groupBy, s, t);
      KeysIncluded(I, groupBy, t, s);
      SameElementsSameMultiset(GroupKeys(I, groupBy, s), GroupKeys(I, groupBy, t));
    }
  }

  lemma KeysIncluded(I: Meaning, groupBy: seq<Expr>, s: seq<Row>, t: seq<Row>)
    requires Permuted(s, t)
    ensures forall k :: k in Keys(I, groupBy, s) ==> k in Keys(I, groupBy, t)
  {
    forall k | k in Keys(I, groupBy, s) ensures k in Keys(I, groupBy, t) {
      var i :| 0 <= i < |s| && Keys(I, groupBy, s)[i] == k;
      assert s[i] in multiset(t);
      var j :| 0 <= j < |t| && t[j] == s[i];
      assert Keys(I, groupBy, t)[j] == k;
    }
  }

  lemma {:induction false} FlatMapSame<T, U>(f: T -> seq<U>, g: T -> seq<U>, s: seq<T>)
    requires forall x :: x in s ==> f(x) == g(x)
    ensures FlatMap(f, s) == FlatMap(g, s)
  {
    if s == [] {
    } else {
      FlatMapSame(f, g, s[1..]);
    }
  }

  lemma GroupItemsPermuted(I: Meaning, q: Select, s: seq<Row>, t: seq<Row>)
    requires Commutative(I) && Permuted(s, t)
    ensures Permuted(GroupItems(I, q, GroupKeys(I, q.groupBy, s), s), GroupItems(I, q, GroupKeys(I, q.groupBy, t), t))
  {
    hide GroupKeys, KeyItems;
    var ks, kt := GroupKeys(I, q.groupBy, s), GroupKeys(I, q.groupBy, t);
    var f, g := (k: seq<Value>) => KeyItems(I, q, s, k), (k: seq<Value>) => KeyItems(I, q, t, k);
    GroupKeysPermuted(I, q.groupBy, s, t);
    GroupItemsIsFlatMap(I, q, ks, s);
    GroupItemsIsFlatMap(I, q, kt, t);
    forall k | k in kt ensures f(k) == g(k) {
      KeyItemsPermuted(I, q, k, s, t);
    }
    FlatMapPermutation(f, ks, kt);
    FlatMapSame(f, g, kt);
    assert FlatMap(f, ks) == GroupItems(I, q, ks, s) && FlatMap(g, kt) == GroupItems(I, q, kt, t);
  }

  // ----- sorting is a permutation -----------------------------------------------------------

  lemma {:induction false} InsertSortedPermutes(I: Meaning, directions: seq<string>, sorted: seq<Item>, x: Item)
    ensures multiset(InsertSorted(I, directions, sorted, x)) == multiset(sorted) + multiset{x}
  {
    if sorted == [] {
    } else {
      var n := |sorted| - 1;
      assert sorted == sorted[..n] + [sorted[n]];
      InsertSortedPermutes(I, directions, sorted[..n], x);
    }
  }

  lemma {:induction false} SortPermutes(I: Meaning, directions: seq<string>, items: seq<Item>)
    ensures multiset(Sort(I, directions, items)) == multiset(items)
  {
    if items == [] {
    } else {
      var n := |items| - 1;
      assert items == items[..n] + [items[n]];
      SortPermutes(I, directions, items[..n]);
      InsertSortedPermutes(I, directions, Sort(I, directions, items[..n]), items[n]);
    }
  }

  /** The ORDER BY comparison is a total preorder. */
  ghost predicate TotalPreorder(I: Meaning, directions: seq<string>) {
    && (forall x, y :: I.before(directions, x, y) || I.before(directions, y, x))
    && (forall x, y, z :: I.before(directions, x, y) && I.before(directions, y, z) ==> I.before(directions, x, z))
  }

  ghost predicate Sorted(I: Meaning, directions: seq<string>, items: seq<Item>) {
    forall i, j :: 0 <= i < j < |items| ==> I.before(directions, items[i].order, items[j].order)
  }

  lemma {:induction false} InsertSortedSorts(I: Meaning, directions: seq<string>, sorted: seq<Item>, x: Item)
    requires TotalPreorder(I, directions) && Sorted(I, directions, sorted)
    ensures Sorted(I, directions, InsertSorted(I, directions, sorted, x))
  {
    if sorted == [] {
    } else {
      var n := |sorted| - 1;
      var r := InsertSorted(I, directions, sorted[..n], x);
      if I.before(directions, sorted[n].order, x.order) {
        SortedSnoc(I, directions, sorted, x);
      } else {
        InsertSortedSorts(I, directions, sorted[..n], x);
        InsertSortedPermutes(I, directions, sorted[..n], x);
        forall y | y in r ensures I.before(directions, y.order, sorted[n].order) {
          assert y in multiset(r);
          assert y == x || y in sorted[..n];
        }
        SortedSnoc(I, directions, r, sorted[n]);
      }
    }
  }

  lemma SortedSnoc(I: Meaning, directions: seq<string>, s: seq<Item>, x: Item)
    requires TotalPreorder(I, directions) && Sorted(I, directions, s)
    requires || s == [] || I.before(directions, s[|s| - 1].order, x.order)
             || (forall y <- s :: I.before(directions, y.order, x.order))
    ensures Sorted(I, directions, s + [x])
  {
    forall i | 0 <= i < |s| ensures I.before(directions, s[i].order, x.order) {
      assert s[i] in s;
      if i < |s| - 1 {
        assert I.before(directions, s[i].order, s[|s| - 1].order);
      }
    }
  }

  lemma {:induction false} SortSorts(I: Meaning, directions: seq<string>, items: seq<Item>)
    requires TotalPreorder(I, directions)
    ensures Sorted(I, directions, Sort(I, directions, items))
  {
    if items == [] {
    } else {
      var n := |items| - 1;
      SortSorts(I, directions, items[..n]);
      InsertSortedSorts(I, directions, Sort(I, directions, items[..n]), items[n]);
    }
  }

  function Out(item: Item): seq<seq<Value>> { [item.out] }

  lemma {:induction false} OutsIsFlatMap(items: seq<Item>)
    ensures Map((item: Item) => item.out, items) == FlatMap(Out, items)
  {
    if items == [] {
    } else {
      OutsIsFlatMap(items[1..]);
      var f := (item: Item) => item.out;
      assert Map(f, items) == [f(items[0])] + Map(f, items[1..]);
    }
  }

  /** The ORDER BY comparison does not tell the two lines apart. */
  ghost predicate Tied(I: Meaning, directions: seq<string>, x: Item, y: Item) {
    I.before(directions, x.order, y.order) && I.before(directions, y.order, x.order)
  }

  /** Only equal lines are tied. */
  ghost predicate Decides(I: Meaning, directions: seq<string>, items: seq<Item>) {
    forall x, y :: x in items && y in items && Tied(I, directions, x, y) ==> x == y
  }

  lemma SortedHeads(I: Meaning, directions: seq<string>, s: seq<Item>, t: seq<Item>)
    requires Decides(I, directions, s) && multiset(s) == multiset(t) && s != []
    requires Sorted(I, directions, s) && Sorted(I, directions, t)
    ensures t != [] && s[0] == t[0]
  {
    hide Decides;
    assert s[0] in multiset(t) && t[0] in multiset(s);
    var j :| 0 <= j < |t| && t[j] == s[0];
    var k :| 0 <= k < |s| && s[k] == t[0];
    if s[0] != t[0] {
      assert Tied(I, directions, s[0], t[0]);
      OnlyEqualTied(I, directions, s, s[0], t[0]);
    }
  }

  lemma OnlyEqualTied(I: Meaning, directions: seq<string>, items: seq<Item>, x: Item, y: Item)
    requires Decides(I, directions, items) && x in items && y in items && Tied(I, directions, x, y)
    ensures x == y
  {
  }

  /** Then there is only one sorted arrangement of the lines. */
  lemma {:induction false} SortedIsUnique(I: Meaning, directions: seq<string>, s: seq<Item>, t: seq<Item>)
    requires Decides(I, directions, s) && multiset(s) == multiset(t)
    requires Sorted(I, directions, s) && Sorted(I, directions, t)
    ensures s == t
  {
    if s == [] {
      assert |multiset(t)| == 0;
    } else {
      SortedHeads(I, directions, s, t);
      hide Tied;
      TailsPermuted(s, t);
      assert forall x <- s[1..] :: x in s;
      SortedIsUnique(I, directions, s[1..], t[1..]);
      assert s == [s[0]] + s[1..] && t == [t[0]] + t[1..];
    }
  }

  lemma TailsPermuted<T>(s: seq<T>, t: seq<T>)
    requires s != [] && t != [] && s[0] == t[0] && multiset(s) == multiset(t)
    ensures multiset(s[1..]) == multiset(t[1..])
  {
    assert s == [s[0]] + s[1..] && t == [t[0]] + t[1..];
    assert multiset(s[1..]) == multiset(s) - multiset{s[0]} && multiset(t[1..]) == multiset(t) - multiset{t[0]};
  }

  function Arranged(I: Meaning, q: Select, lines: seq<Item>): seq<Item> {
    var distinct := if q.distinct then Dedup(lines) else lines;
    if q.orderBy == [] then distinct else Sort(I, Directions(q), distinct)
  }

  predicate Unlimited(q: Select) { q.limit.None? || q.limit.value.limit.None? }

  lemma ArrangedPermuted(I: Meaning, q: Select, s: seq<Item>, t: seq<Item>)
    requires Permuted(s, t)
    ensures Permuted(Arranged(I, q, s), Arranged(I, q, t))
    ensures q.orderBy != [] && TotalPreorder(I, Directions(q)) && Decides(I, Directions(q), s)
      ==> Arranged(I, q, s) == Arranged(I, q, t)
  {
    hide Dedup, Sort, Sorted, Distinct;
    var d := Directions(q);
    var s', t' := if q.distinct then Dedup(s) else s, if q.distinct then Dedup(t) else t;
    DedupElements(s);
    DedupElements(t);
    forall x ensures x in s <==> x in t {
      assert x in multiset(s) <==> x in multiset(t);
    }
    if q.distinct {
      SameElementsSameMultiset(s', t');
    }
    SortPermutes(I, d, s');
    SortPermutes(I, d, t');
    if q.orderBy != [] && TotalPreorder(I, d) && Decides(I, d, s) {
      SortSorts(I, d, s');
      SortSorts(I, d, t');
      var sorted := Sort(I, d, s');
      forall x | x in sorted ensures x in s {
        assert x in multiset(sorted);
      }
      SortedIsUnique(I, d, sorted, Sort(I, d, t'));
    }
  }

  /** Permuted lines give permuted answers, and with LIMIT the same answer if the sort leaves no choice. */
  lemma FinishPermuted(I: Meaning, q: Select, s: seq<Item>, t: seq<Item>)
    requires Permuted(s, t)
    ensures Unlimited(q) ==> Permuted(Finish(I, q, s), Finish(I, q, t))
    ensures |Finish(I, q, s)| == |Finish(I, q, t)|
    ensures q.orderBy != [] && TotalPreorder(I, Directions(q)) && Decides(I, Directions(q), s)
      ==> Finish(I, q, s) == Finish(I, q, t)
  {
    hide FlatMap, Dedup, Sort, TotalPreorder, Decides;
    var s', t' := Arranged(I, q, s), Arranged(I, q, t);
    ArrangedPermuted(I, q, s, t);
    assert |s'| == |multiset(s')| == |multiset(t')| == |t'|;
    FlatMapPermutation(Out, s', t');
    OutsIsFlatMap(s');
    OutsIsFlatMap(t');
    if Unlimited(q) {
      assert Finish(I, q, s) == Map((item: Item) => item.out, s');
      assert Finish(I, q, t) == Map((item: Item) => item.out, t');
    }
  }

  // ----- the theorem ------------------------------------------------------------------------

  /** The lines of a query over all rows, before DISTINCT, ORDER BY and LIMIT. */
  function AllLines(I: Meaning, q: Select, shards: seq<seq<Row>>): seq<Item> {
    Lines(I, q, Passing(I, OptionExprs(q.where), Flatten(shards)))
  }

  /** The sort leaves LIMIT no choice. */
  ghost predicate NoTies(I: Meaning, q: Select, shards: seq<seq<Row>>) {
    q.orderBy != [] && TotalPreorder(I, Directions(q)) && Decides(I, Directions(q), AllLines(I, q, shards))
  }

  /**
   Moving rows between shards, or reordering them, changes at most the order of the answer, with or
   without DISTINCT; with LIMIT it keeps the number of rows; and it changes nothing when the ORDER BY
   keys tell the lines apart.
   */
  lemma DirectPlacement(I: Meaning, q: Select, cols: seq<string>, shards: seq<seq<Row>>, moved: seq<seq<Row>>)
    requires Commutative(I) && IsGrouped(q) && NoStar(q.columns) && Permuted(Flatten(shards), Flatten(moved))
    ensures var a, b := Direct(I, q, cols, shards), Direct(I, q, cols, moved);
      if a.Failure? then b == a
      else
        && b.Success? && |a.value| == |b.value|
        && (Unlimited(q) ==> Permuted(a.value, b.value))
        && (NoTies(I, q, shards) ==> a == b)
  {
    hide IsScatterGather, GroupKeys, GroupItems, Finish, Valid, IsGrouped, TotalPreorder, Decides, Unlimited;
    hide QueryRefs, Permuted, Commutative, NoStar;
    ExpandWithoutStar(q.columns, cols);
    PassingPermuted(I, OptionExprs(q.where), Flatten(shards), Flatten(moved));
    var s := Passing(I, OptionExprs(q.where), Flatten(shards));
    var t := Passing(I, OptionExprs(q.where), Flatten(moved));
    GroupItemsPermuted(I, q, s, t);
    FinishPermuted(I, q, Lines(I, q, s), Lines(I, q, t));
  }

  /**
   When all aggregates are commutative, two placements of the same rows on shards give merged answers
   that agree in the same way, provided that DISTINCT, if there is one, drops nothing on the shards.
   */
  lemma MergedPlacement(I: Meaning, q: Select, fanOut: Select, cols: seq<string>, shards: seq<seq<Row>>,
                        moved: seq<seq<Row>>)
    requires Commutative(I) && Splits(q, fanOut, true) && Transparent(q)
    requires shards != [] && moved != [] && Permuted(Flatten(shards), Flatten(moved))
    requires NothingDropped(I, fanOut, shards) && NothingDropped(I, fanOut, moved)
    requires NoShadow(fanOut.columns, QueryRefs(q))
    requires Distinct(OutputNames(fanOut.columns)) && Covered(fanOut.columns, QueryRefs(q))
    ensures var a, b := ScatterGather(I, q, cols, shards), ScatterGather(I, q, cols, moved);
      if a.Failure? then b.Failure?
      else
        && b.Success? && |a.value| == |b.value|
        && (Unlimited(q) ==> Permuted(a.value, b.value))
        && (NoTies(I, q, shards) ==> a == b)
  {
    hide IsScatterGather, ScatterGather, Direct, IsGrouped, Distinct, Covered, NoShadow, OutputNames, RowLevelColumns;
    hide RequiresValidation, SupportError, NothingDropped, NoTies, Unlimited;
    assert IsGrouped(q) by { AggregateIsGrouped(q); }
    DirectPlacement(I, q, cols, shards, moved);
    AggregateRewriteExact(I, q, fanOut, cols, shards);
    AggregateRewriteExact(I, q, fanOut, cols, moved);
  }
}
