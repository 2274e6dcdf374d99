/** Option and Result values, used where the program has null, undefined or a thrown error. */
module Wrappers {
  datatype Option<+T> = None | Some(value: T)

  datatype Result<+T, +E> = Success(value: T) | Failure(error: E)
}

/** Small facts about sequences that several components share. */
module Sequences {

  /** All elements of all sequences, in order. */
  function Flatten<T>(ss: seq<seq<T>>): seq<T> {
    if ss == [] then [] else ss[0] + Flatten(ss[1..])
  }

  lemma {:induction false} FlattenAppend<T>(ss: seq<seq<T>>, tt: seq<seq<T>>)
    ensures Flatten(ss + tt) == Flatten(ss) + Flatten(tt)
  {
    if ss == [] {
      assert ss + tt == tt;
    } else {
      assert (ss + tt)[1..] == ss[1..] + tt;
      FlattenAppend(ss[1..], tt);
    }
  }

  lemma FlattenSnoc<T>(ss: seq<seq<T>>, s: seq<T>)
    ensures Flatten(ss + [s]) == Flatten(ss) + s
  {
    FlattenAppend(ss, [s]);
    assert Flatten([s]) == s + Flatten([s][1..]) == s;
  }

  ghost predicate Distinct<T>(s: seq<T>) {
    forall i, j :: 0 <= i < j < |s| ==> s[i] != s[j]
  }

  /** The first occurrence of each element, in order: what inserting the elements one by one
      into an insertion-ordered set leaves in it. */
  function Dedup<T(==)>(s: seq<T>): seq<T> {
    if s == [] then []
    else
      var d := Dedup(s[..|s| - 1]);
      var x := s[|s| - 1];
      if x in d then d else d + [x]
  }

  lemma {:induction false} DedupElements<T>(s: seq<T>)
    ensures Distinct(Dedup(s))
    ensures forall x :: x in Dedup(s) <==> x in s
  {
    if s == [] {
    } else {
      var n := |s| - 1;
      DedupElements(s[..n]);
      assert s == s[..n] + [s[n]];
    }
  }

  lemma DedupSnoc<T>(s: seq<T>, x: T)
    ensures Dedup(s + [x]) == if x in s then Dedup(s) else Dedup(s) + [x]
  {
    assert (s + [x])[..|s|] == s;
    DedupElements(s);
  }

  lemma {:induction false} DedupOfDistinct<T>(s: seq<T>)
    requires Distinct(s)
    ensures Dedup(s) == s
  {
    if s == [] {
    } else {
      var n := |s| - 1;
      DedupOfDistinct(s[..n]);
      assert s == s[..n] + [s[n]];
    }
  }

  /** Only the first occurrences of the left part matter. */
  lemma {:induction false} DedupAppendDedup<T>(s: seq<T>, t: seq<T>)
    ensures Dedup(Dedup(s) + t) == Dedup(s + t)
  {
    if t == [] {
      assert Dedup(s) + t == Dedup(s) && s + t == s;
      DedupElements(s);
      DedupOfDistinct(Dedup(s));
    } else {
      var n := |t| - 1;
      DedupAppendDedup(s, t[..n]);
      assert s + t == (s + t[..n]) + [t[n]];
      assert Dedup(s) + t == (Dedup(s) + t[..n]) + [t[n]];
      DedupSnoc(s + t[..n], t[n]);
      DedupSnoc(Dedup(s) + t[..n], t[n]);
      DedupElements(s);
    }
  }

  /** ... and of the right part. */
  lemma {:induction false} DedupAppendDedupRight<T>(s: seq<T>, t: seq<T>)
    ensures Dedup(s + Dedup(t)) == Dedup(s + t)
  {
    if t == [] {
    } else {
      var n := |t| - 1;
      var t0, x := t[..n], t[n];
      DedupAppendDedupRight(s, t0);
      DedupElements(t0);
      assert s + t == (s + t0) + [x];
      DedupSnoc(s + t0, x);
      if x !in t0 {
        assert s + Dedup(t) == (s + Dedup(t0)) + [x];
        DedupSnoc(s + Dedup(t0), x);
      }
    }
  }

  function Map<T, U>(f: T -> U, s: seq<T>): (r: seq<U>)
    ensures |r| == |s| && forall i :: 0 <= i < |s| ==> r[i] == f(s[i])
  {
    seq(|s|, i requires 0 <= i < |s| => f(s[i]))
  }

  lemma MapMember<T, U>(f: T -> U, s: seq<T>, u: U)
    ensures u in Map(f, s) <==> exists x :: x in s && f(x) == u
  {
    if u in Map(f, s) {
      var i :| 0 <= i < |s| && Map(f, s)[i] == u;
      assert s[i] in s && f(s[i]) == u;
    }
    if x :| x in s && f(x) == u {
      var i :| 0 <= i < |s| && s[i] == x;
      assert Map(f, s)[i] == u;
    }
  }

  /** Removing repetitions before a function is applied changes no distinct result. */
  lemma {:induction false} DedupMap<T, U>(f: T -> U, s: seq<T>)
    ensures Dedup(Map(f, Dedup(s))) == Dedup(Map(f, s))
  {
    if s == [] {
    } else {
      var n := |s| - 1;
      var s0, x := s[..n], s[n];
      DedupMap(f, s0);
      DedupElements(s0);
      assert s == s0 + [x];
      assert Map(f, s) == Map(f, s0) + [f(x)];
      DedupSnoc(Map(f, s0), f(x));
      MapMember(f, s0, f(x));
      if x !in s0 {
        assert Map(f, Dedup(s0) + [x]) == Map(f, Dedup(s0)) + [f(x)];
        DedupSnoc(Map(f, Dedup(s0)), f(x));
        MapMember(f, Dedup(s0), f(x));
      }
    }
  }

  lemma {:induction false} DedupLength<T>(s: seq<T>)
    ensures |Dedup(s)| <= |s|
    ensures |Dedup(s)| == |s| <==> Distinct(s)
  {
    if s == [] {
    } else {
      var n := |s| - 1;
      DedupLength(s[..n]);
      DedupElements(s[..n]);
      if s[n] in s[..n] {
        var i :| 0 <= i < n && s[..n][i] == s[n];
        assert s[i] == s[n];
      }
    }
  }
}
