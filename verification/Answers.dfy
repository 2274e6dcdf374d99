/** What a query returns, said of the rows of its table and not of the steps of its execution. */
module Answers {
  import opened Wrappers
  import opened Sequences
  import opened Ast
  import opened Aggregates
  import opened Query
  import opened Placement

  // ----- picking ----------------------------------------------------------------------------

  /** t holds the elements of s with the property, in the order of their places. */
  ghost predicate Picks<T(!new)>(s: seq<T>, p: T -> bool, at: seq<nat>, t: seq<T>) {
    && |at| == |t|
    && (forall i :: 0 <= i < |at| ==> at[i] < |s| && t[i] == s[at[i]] && p(s[at[i]]))
    && (forall i, j :: 0 <= i < j < |at| ==> at[i] < at[j])
    && (forall k: nat :: k < |s| && p(s[k]) ==> k in at)
  }

  function Later(at: seq<nat>): (r: seq<nat>)
    ensures |r| == |at| && forall i :: 0 <= i < |at| ==> r[i] == at[i] + 1
  {
    seq(|at|, i requires 0 <= i < |at| => at[i] + 1)
  }

  /** The elements behind the first are picked. */
  ghost predicate PicksBehind<T(!new)>(s: seq<T>, p: T -> bool, at: seq<nat>, t: seq<T>) {
    && |at| == |t|
    && (forall i :: 0 <= i < |at| ==> 0 < at[i] < |s| && t[i] == s[at[i]] && p(s[at[i]]))
    && (forall i, j :: 0 <= i < j < |at| ==> at[i] < at[j])
    && (forall k: nat :: 0 < k < |s| && p(s[k]) ==> k in at)
  }

  lemma PickLater<T(!new)>(s: seq<T>, p: T -> bool, at: seq<nat>, t: seq<T>)
    requires s != [] && Picks(s[1..], p, at, t)
    ensures PicksBehind(s, p, Later(at), t)
  {
    forall k: nat | 0 < k < |s| && p(s[k]) ensures k in Later(at) {
      assert s[1..][k - 1] == s[k];
      var i :| 0 <= i < |at| && at[i] == k - 1;
      assert Later(at)[i] == k;
    }
  }

  lemma PickFirst<T(!new)>(s: seq<T>, p: T -> bool, at: seq<nat>, t: seq<T>)
    requires s != [] && PicksBehind(s, p, at, t) && p(s[0])
    ensures Picks(s, p, [0] + at, [s[0]] + t)
  {
    var all, u := [0] + at, [s[0]] + t;
    forall i | 0 <= i < |all| ensures all[i] < |s| && u[i] == s[all[i]] && p(s[all[i]]) {
      if i > 0 {
        assert all[i] == at[i - 1] && u[i] == t[i - 1];
      }
    }
    assert forall i, j :: 0 <= i < j < |all| ==> all[i] < all[j];
    forall k: nat | k < |s| && p(s[k]) ensures k in all {
      PickedBehind(s, p, at, t, k);
    }
  }

  lemma PickedBehind<T(!new)>(s: seq<T>, p: T -> bool, at: seq<nat>, t: seq<T>, k: nat)
    requires PicksBehind(s, p, at, t) && k < |s| && p(s[k])
    ensures k in [0] + at
  {
  }

  lemma PickNotFirst<T(!new)>(s: seq<T>, p: T -> bool, at: seq<nat>, t: seq<T>)
    requires s != [] && PicksBehind(s, p, at, t) && !p(s[0])
    ensures Picks(s, p, at, t)
  {
  }

  lemma PickCons<T(!new)>(s: seq<T>, p: T -> bool, at: seq<nat>, t: seq<T>) returns (all: seq<nat>)
    requires s != [] && Picks(s[1..], p, at, t)
    ensures Picks(s, p, all, (if p(s[0]) then [s[0]] else []) + t)
  {
    hide Picks, PicksBehind;
    PickLater(s, p, at, t);
    if p(s[0]) {
      PickFirst(s, p, Later(at), t);
    } else {
      PickNotFirst(s, p, Later(at), t);
    }
    all := if p(s[0]) then [0] + Later(at) else Later(at);
    assert [] + t == t;
  }

  ghost predicate Meets(I: Meaning, condition: Option<Expr>, row: Row) {
    condition.Some? ==> I.truthy(Eval(I, condition.value, row))
  }

  lemma MeetsExact(I: Meaning, condition: Option<Expr>, row: Row)
    ensures Holds(I, OptionExprs(condition), row) <==> Meets(I, condition, row)
  {
    hide Eval;
    if condition.Some? {
      assert OptionExprs(condition)[0] == condition.value;
    }
  }

  /** The rows that WHERE lets pass. */
  lemma {:induction false} PassingPicks(I: Meaning, where: Option<Expr>, rows: seq<Row>) returns (at: seq<nat>)
    ensures Picks(rows, (r: Row) => Meets(I, where, r), at, Passing(I, OptionExprs(where), rows))
  {
    hide Holds, Meets;
    if rows == [] {
      at := [];
    } else {
      var rest := PassingPicks(I, where, rows[1..]);
      MeetsExact(I, where, rows[0]);
      at := PickCons(rows, (r: Row) => Meets(I, where, r), rest, Passing(I, OptionExprs(where), rows[1..]));
    }
  }

  lemma {:induction false} ValuesAt(I: Meaning, es: seq<Expr>, row: Row)
    ensures forall j :: 0 <= j < |es| ==> EvalAll(I, es, row)[j] == Eval(I, es[j], row)
  {
    hide Eval;
    if es != [] {
      ValuesAt(I, es[1..], row);
    }
  }

  lemma {:induction false} GroupValuesAt(I: Meaning, es: seq<Expr>, groupBy: seq<Expr>, key: seq<Value>, rows: seq<Row>)
    requires |key| == |groupBy|
    ensures forall j :: 0 <= j < |es| ==>
      EvalGroupAll(I, es, groupBy, key, rows)[j] == EvalGroup(I, es[j], groupBy, key, rows)
  {
    hide EvalGroup;
    if es != [] {
      GroupValuesAt(I, es[1..], groupBy, key, rows);
    }
  }

  /** The grouping expressions have these values on the row. */
  ghost predicate HasKey(I: Meaning, groupBy: seq<Expr>, key: seq<Value>, row: Row) {
    |key| == |groupBy| && forall j :: 0 <= j < |groupBy| ==> Eval(I, groupBy[j], row) == key[j]
  }

  lemma HasKeyExact(I: Meaning, groupBy: seq<Expr>, key: seq<Value>, row: Row)
    ensures HasKey(I, groupBy, key, row) <==> EvalAll(I, groupBy, row) == key
  {
    ValuesAt(I, groupBy, row);
  }

  /** A group holds the rows with its key. */
  lemma {:induction false} MembersPicks(I: Meaning, groupBy: seq<Expr>, key: seq<Value>, rows: seq<Row>)
    returns (at: seq<nat>)
    ensures Picks(rows, (r: Row) => HasKey(I, groupBy, key, r), at, Members(I, groupBy, key, rows))
  {
    hide EvalAll, HasKey;
    if rows == [] {
      at := [];
    } else {
      var rest := MembersPicks(I, groupBy, key, rows[1..]);
      HasKeyExact(I, groupBy, key, rows[0]);
      at := PickCons(rows, (r: Row) => HasKey(I, groupBy, key, r), rest, Members(I, groupBy, key, rows[1..]));
    }
  }

  // ----- queries without groups -------------------------------------------------------------

  function Most(q: Select, n: nat): nat {
    if q.limit.Some? && q.limit.value.limit.Some? then
      (if q.limit.value.limit.value < n then q.limit.value.limit.value else n)
    else n
  }

  /** The rows that pass, in the table's order and as many as LIMIT allows, each as the values of the columns. */
  lemma RowAnswer(I: Meaning, q: Select, rows: seq<Row>) returns (at: seq<nat>, passing: seq<Row>)
    requires !IsGrouped(q) && !q.distinct && q.orderBy == []
    ensures Picks(rows, (r: Row) => Meets(I, q.where, r), at, passing)
    ensures |Execute(I, q, rows)| == Most(q, |passing|)
    ensures forall i :: 0 <= i < Most(q, |passing|) ==> |Execute(I, q, rows)[i]| == |q.columns|
    ensures forall i, j :: 0 <= i < Most(q, |passing|) && 0 <= j < |q.columns| ==>
      Execute(I, q, rows)[i][j] == Eval(I, q.columns[j].expr, passing[i])
  {
    passing := Passing(I, OptionExprs(q.where), rows);
    at := PassingPicks(I, q.where, rows);
    hide Eval, EvalAll, IsGrouped, Picks, Meets, Passing;
    forall i | 0 <= i < |passing|
      ensures forall j :: 0 <= j < |q.columns| ==>
        EvalAll(I, ColumnExprs(q.columns), passing[i])[j] == Eval(I, q.columns[j].expr, passing[i])
    {
      ValuesAt(I, ColumnExprs(q.columns), passing[i]);
    }
  }

  // ----- queries with groups ----------------------------------------------------------------

  /** The keys of the groups: each key that a row has, once. */
  lemma GroupKeysExact(I: Meaning, groupBy: seq<Expr>, rows: seq<Row>)
    requires groupBy != []
    ensures Distinct(GroupKeys(I, groupBy, rows))
    ensures forall key :: key in GroupKeys(I, groupBy, rows) <==> exists r <- rows :: HasKey(I, groupBy, key, r)
  {
    hide EvalAll, HasKey;
    var keys := Keys(I, groupBy, rows);
    DedupElements(keys);
    forall key ensures key in keys <==> exists r <- rows :: HasKey(I, groupBy, key, r) {
      if key in keys {
        var i :| 0 <= i < |keys| && keys[i] == key;
        HasKeyExact(I, groupBy, key, rows[i]);
        assert rows[i] in rows;
      }
      if r :| r in rows && HasKey(I, groupBy, key, r) {
        var i :| 0 <= i < |rows| && rows[i] == r;
        HasKeyExact(I, groupBy, key, r);
        assert keys[i] == key;
      }
    }
  }

  ghost predicate GroupMeets(I: Meaning, q: Select, key: seq<Value>, rows: seq<Row>) {
    && |key| == |q.groupBy|
    && (q.having.Some? ==>
          I.truthy(EvalGroup(I, q.having.value, q.groupBy, key, Members(I, q.groupBy, key, rows))))
  }

  /** One line for each key whose group HAVING lets pass, with the values of the query on the group. */
  lemma {:induction false} LinePerKey(I: Meaning, q: Select, keys: seq<seq<Value>>, rows: seq<Row>)
    returns (at: seq<nat>, kept: seq<seq<Value>>)
    ensures Picks(keys, (key: seq<Value>) => GroupMeets(I, q, key, rows), at, kept)
    ensures |GroupItems(I, q, keys, rows)| == |kept|
    ensures forall i :: 0 <= i < |kept| ==> |kept[i]| == |q.groupBy|
    ensures forall i :: 0 <= i < |kept| ==>
      GroupItems(I, q, keys, rows)[i] == GroupItem(I, q, kept[i], Members(I, q.groupBy, kept[i], rows))
  {
    hide EvalGroup, EvalGroupAll, Members, GroupItem;
    if keys == [] {
      at, kept := [], [];
    } else {
      var at0, kept0 := LinePerKey(I, q, keys[1..], rows);
      at := PickCons(keys, (key: seq<Value>) => GroupMeets(I, q, key, rows), at0, kept0);
      kept := (if GroupMeets(I, q, keys[0], rows) then [keys[0]] else []) + kept0;
    }
  }

  lemma FinishPlain(I: Meaning, q: Select, lines: seq<Item>)
    requires !q.distinct && q.orderBy == []
    ensures |Finish(I, q, lines)| == Most(q, |lines|)
    ensures forall i :: 0 <= i < Most(q, |lines|) ==> Finish(I, q, lines)[i] == lines[i].out
  {
  }

  lemma LineValues(I: Meaning, q: Select, key: seq<Value>, group: seq<Row>)
    requires |key| == |q.groupBy|
    ensures |GroupItem(I, q, key, group).out| == |q.columns|
    ensures forall j :: 0 <= j < |q.columns| ==>
      GroupItem(I, q, key, group).out[j] == EvalGroup(I, q.columns[j].expr, q.groupBy, key, group)
  {
    hide EvalGroup, EvalGroupAll;
    GroupValuesAt(I, ColumnExprs(q.columns), q.groupBy, key, group);
  }

  lemma ExecuteGroups(I: Meaning, q: Select, rows: seq<Row>)
    requires q.groupBy != []
    ensures var passing := Passing(I, OptionExprs(q.where), rows);
      Execute(I, q, rows) == Finish(I, q, GroupItems(I, q, GroupKeys(I, q.groupBy, passing), passing))
  {
  }

  /**
   One line for each group of the passing rows that HAVING lets pass, as many as LIMIT allows, each with
   the values of the columns on the group.
   */
  lemma GroupAnswer(I: Meaning, q: Select, rows: seq<Row>)
    returns (at: seq<nat>, passing: seq<Row>, keys: seq<seq<Value>>, places: seq<nat>, kept: seq<seq<Value>>)
    requires q.groupBy != [] && !q.distinct && q.orderBy == []
    ensures Picks(rows, (r: Row) => Meets(I, q.where, r), at, passing)
    ensures Distinct(keys) && forall key :: key in keys <==> exists r <- passing :: HasKey(I, q.groupBy, key, r)
    ensures Picks(keys, (key: seq<Value>) => GroupMeets(I, q, key, passing), places, kept)
    ensures forall i :: 0 <= i < |kept| ==> |kept[i]| == |q.groupBy|
    ensures |Execute(I, q, rows)| == Most(q, |kept|)
    ensures forall i :: 0 <= i < Most(q, |kept|) ==> |Execute(I, q, rows)[i]| == |q.columns|
    ensures forall i, j :: 0 <= i < Most(q, |kept|) && 0 <= j < |q.columns| ==>
      Execute(I, q, rows)[i][j]
      == EvalGroup(I, q.columns[j].expr, q.groupBy, kept[i], Members(I, q.groupBy, kept[i], passing))
  {
    passing := Passing(I, OptionExprs(q.where), rows);
    at := PassingPicks(I, q.where, rows);
    keys := GroupKeys(I, q.groupBy, passing);
    GroupKeysExact(I, q.groupBy, passing);
    places, kept := LinePerKey(I, q, keys, passing);
    hide EvalGroup, Members, Picks, Meets, HasKey, Passing, GroupMeets, GroupItems, GroupKeys, Distinct, GroupItem;
    hide Execute, Finish, Most;
    ExecuteGroups(I, q, rows);
    FinishPlain(I, q, GroupItems(I, q, keys, passing));
    forall i | 0 <= i < |kept|
      ensures var out := GroupItem(I, q, kept[i], Members(I, q.groupBy, kept[i], passing)).out;
        |out| == |q.columns| && forall j :: 0 <= j < |q.columns| ==>
          out[j] == EvalGroup(I, q.columns[j].expr, q.groupBy, kept[i], Members(I, q.groupBy, kept[i], passing))
    {
      LineValues(I, q, kept[i], Members(I, q.groupBy, kept[i], passing));
    }
  }

  // ----- aggregates -------------------------------------------------------------------------

  ghost predicate MeetsAll(I: Meaning, conditions: seq<Expr>, row: Row) {
    forall c <- conditions :: I.truthy(Eval(I, c, row))
  }

  lemma HoldsAll(I: Meaning, conditions: seq<Expr>, row: Row)
    ensures Holds(I, conditions, row) <==> MeetsAll(I, conditions, row)
  {
    hide Eval;
  }

  /** An aggregate sees the rows that its FILTER lets pass, each with its arguments and then its sort keys. */
  lemma {:induction false} InputsPick(I: Meaning, call: Expr, rows: seq<Row>) returns (at: seq<nat>, seen: seq<Row>)
    requires call.Call?
    ensures Picks(rows, (r: Row) => MeetsAll(I, call.filter, r), at, seen)
    ensures |Inputs(I, call, rows)| == |seen|
    ensures forall i :: 0 <= i < |seen| ==>
      Inputs(I, call, rows)[i].args == EvalAll(I, call.args, seen[i])
      && Inputs(I, call, rows)[i].order == EvalAll(I, call.orderBy + call.withinGroup, seen[i])
  {
    hide Eval, EvalAll, Holds, MeetsAll;
    if rows == [] {
      at, seen := [], [];
    } else {
      var at0, seen0 := InputsPick(I, call, rows[1..]);
      HoldsAll(I, call.filter, rows[0]);
      at := PickCons(rows, (r: Row) => MeetsAll(I, call.filter, r), at0, seen0);
      hide Picks;
      seen := (if MeetsAll(I, call.filter, rows[0]) then [rows[0]] else []) + seen0;
    }
  }

  // ----- DISTINCT, ORDER BY, LIMIT ----------------------------------------------------------

  /** Lines are dropped only where they repeat another, sorted if the query sorts, and then cut off behind LIMIT. */
  lemma FinishExact(I: Meaning, q: Select, lines: seq<Item>) returns (arranged: seq<Item>)
    ensures q.distinct ==> Distinct(arranged) && forall x :: x in arranged <==> x in lines
    ensures !q.distinct ==> multiset(arranged) == multiset(lines)
    ensures !q.distinct && q.orderBy == [] ==> arranged == lines
    ensures q.orderBy != [] && TotalPreorder(I, Directions(q)) ==> Sorted(I, Directions(q), arranged)
    ensures |Finish(I, q, lines)| == Most(q, |arranged|)
    ensures forall i :: 0 <= i < Most(q, |arranged|) ==> Finish(I, q, lines)[i] == arranged[i].out
  {
    var some := if q.distinct then Dedup(lines) else lines;
    arranged := if q.orderBy == [] then some else Sort(I, Directions(q), some);
    DedupElements(lines);
    hide Dedup, Sort;
    SortPermutes(I, Directions(q), some);
    if q.distinct && q.orderBy != [] {
      PermutedDistinct(some, arranged);
    }
    if TotalPreorder(I, Directions(q)) {
      SortSorts(I, Directions(q), some);
    }
  }

  lemma PermutedDistinct<T>(s: seq<T>, t: seq<T>)
    requires Distinct(s) && multiset(s) == multiset(t)
    ensures Distinct(t) && forall x :: x in t <==> x in s
  {
    forall x ensures x in t <==> x in s {
      assert x in multiset(s) <==> x in multiset(t);
    }
    DistinctCounts(s);
    forall i, j | 0 <= i < j < |t| ensures t[i] != t[j] {
      assert t[i] in t && t[i] in s && multiset(t)[t[i]] == 1;
      if t[i] == t[j] {
        RepeatCounts(t, i, j);
      }
    }
  }

  lemma RepeatCounts<T>(t: seq<T>, i: nat, j: nat)
    requires i < j < |t| && t[i] == t[j]
    ensures multiset(t)[t[i]] >= 2
  {
    assert t == t[..j] + [t[j]] + t[j + 1..];
    assert t[..j][i] == t[i];
  }

  lemma {:induction false} DistinctCounts<T>(s: seq<T>)
    requires Distinct(s)
    ensures forall x <- s :: multiset(s)[x] == 1
  {
    if s != [] {
      var n := |s| - 1;
      assert s == s[..n] + [s[n]];
      DistinctCounts(s[..n]);
      forall x | x in s ensures multiset(s)[x] == 1 {
        if x == s[n] {
          assert x !in s[..n];
        }
      }
    }
  }

  // ----- names ------------------------------------------------------------------------------

  /** The first of the output columns that has the name. */
  ghost predicate FirstNamed(columns: seq<Column>, name: string, i: nat) {
    i < |columns| && OutputName(columns[i]) == name && forall j :: 0 <= j < i ==> OutputName(columns[j]) != name
  }

  /** A name in ORDER BY means the first output column of that name, and the table's column if there is none. */
  lemma {:induction false} OrderTermExact(columns: seq<Column>, name: string, i: nat)
    ensures FirstNamed(columns, name, i) ==> OrderTerm(columns, Ref(name)) == columns[i].expr
    ensures (forall c <- columns :: OutputName(c) != name) ==> OrderTerm(columns, Ref(name)) == Ref(name)
  {
    hide OutputName;
    if columns != [] {
      OrderTermExact(columns[1..], name, if i == 0 then 0 else i - 1);
      assert columns[0] in columns && forall c <- columns[1..] :: c in columns;
      if i > 0 && FirstNamed(columns, name, i) {
        assert OutputName(columns[0]) != name && columns[1..][i - 1] == columns[i];
        assert forall j :: 0 <= j < i - 1 ==> columns[1..][j] == columns[j + 1];
      }
    }
  }

  /** An expression in ORDER BY means itself. */
  lemma OrderTermOther(columns: seq<Column>, term: Expr)
    requires !term.Ref?
    ensures OrderTerm(columns, term) == term
  {
  }
}
