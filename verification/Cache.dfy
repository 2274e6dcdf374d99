/** The in-memory classification cache (src/ast-classify-cache.ts) under classifyQuery (src/sql-parse.ts). */
module Cache {
  import opened Wrappers
  import opened Sequences
  import Splitter

  const CACHE_MAX := 500

  datatype Classification = Classification(commandType: string, hasReturning: bool)

  const UNKNOWN := Classification("UNKNOWN", false)

  /** What computeClassification does: a classification, or None where it throws. */
  type Compute = string -> Option<Classification>

  /** delete and set on an insertion-ordered map move a key to the end. */
  function Without(keys: seq<string>, key: string): seq<string> {
    if keys == [] then [] else (if keys[0] == key then [] else [keys[0]]) + Without(keys[1..], key)
  }

  predicate Cacheable(compute: Compute, text: string) {
    Splitter.Trim(text) != "" && compute(text).Some?
  }

  /** The texts that were classified, each once, the one used last at the end. */
  function Recent(compute: Compute, history: seq<string>): seq<string> {
    if history == [] then []
    else
      var text := history[|history| - 1];
      var before := Recent(compute, history[..|history| - 1]);
      if Cacheable(compute, text) then Without(before, text) + [text] else before
  }

  function LastN<T>(s: seq<T>, n: nat): seq<T> { if |s| <= n then s else s[|s| - n..] }

  /** What classifyQuery returns when nothing is cached. */
  function Answer(compute: Compute, text: string): Option<Classification> {
    if Splitter.Trim(text) == "" then Some(UNKNOWN) else compute(text)
  }

  // ----- the order of Recent ----------------------------------------------------------------

  lemma {:induction false} WithoutExact(keys: seq<string>, key: string)
    ensures forall k :: k in Without(keys, key) <==> k in keys && k != key
    ensures key !in keys ==> Without(keys, key) == keys
    ensures Distinct(keys) ==> Distinct(Without(keys, key))
  {
    if keys == [] {
    } else {
      WithoutExact(keys[1..], key);
      assert keys == [keys[0]] + keys[1..];
      if Distinct(keys) {
        assert forall i, j :: 0 <= i < j < |keys[1..]| ==> keys[1..][i] == keys[i + 1] && keys[1..][j] == keys[j + 1];
        assert keys[0] !in keys[1..];
      }
    }
  }

  lemma {:induction false} WithoutAppend(a: seq<string>, b: seq<string>, key: string)
    ensures Without(a + b, key) == Without(a, key) + Without(b, key)
  {
    if a == [] {
      assert a + b == b;
    } else {
      assert (a + b)[1..] == a[1..] + b;
      WithoutAppend(a[1..], b, key);
    }
  }

  lemma {:induction false} WithoutLength(keys: seq<string>, key: string)
    requires Distinct(keys) && key in keys
    ensures |Without(keys, key)| == |keys| - 1
  {
    if keys[0] == key {
      assert forall j :: 0 <= j < |keys[1..]| ==> keys[1..][j] == keys[j + 1];
      WithoutExact(keys[1..], key);
    } else {
      assert forall i, j :: 0 <= i < j < |keys[1..]| ==> keys[1..][i] == keys[i + 1] && keys[1..][j] == keys[j + 1];
      WithoutLength(keys[1..], key);
    }
  }

  /** Recent holds exactly the cacheable texts of the history, each once. */
  lemma {:induction false} RecentExact(compute: Compute, history: seq<string>)
    ensures Distinct(Recent(compute, history))
    ensures forall t :: t in Recent(compute, history) <==> t in history && Cacheable(compute, t)
  {
    if history == [] {
    } else {
      var n := |history| - 1;
      RecentExact(compute, history[..n]);
      assert history == history[..n] + [history[n]];
      WithoutExact(Recent(compute, history[..n]), history[n]);
    }
  }

  /** Nothing but white space. */
  ghost predicate Blank(text: string) { forall i :: 0 <= i < |text| ==> text[i] in Splitter.SPACES }

  lemma {:induction false} TrimmedBlank(text: string)
    ensures Splitter.TrimStart(text) == "" <==> Blank(text)
    ensures Splitter.TrimEnd(text) == "" <==> Blank(text)
  {
    hide Splitter.IsSpace;
    if text != "" {
      var n := |text| - 1;
      Splitter.SpaceExactly(text[0]);
      Splitter.SpaceExactly(text[n]);
      TrimmedBlank(text[1..]);
      TrimmedBlank(text[..n]);
      assert forall i :: 0 <= i < n ==> text[1..][i] == text[i + 1] && text[..n][i] == text[i];
      assert forall i :: 0 < i <= n ==> text[i] == text[1..][i - 1];
    }
  }

  lemma {:induction false} TrimmedSolid(text: string)
    ensures Blank(text) <==> Blank(Splitter.TrimStart(text))
  {
    hide Splitter.IsSpace;
    if text != "" {
      Splitter.SpaceExactly(text[0]);
      TrimmedSolid(text[1..]);
      assert forall i :: 0 < i < |text| ==> text[i] == text[1..][i - 1];
    }
  }

  /**
   * A text of white space is UNKNOWN without being parsed, and every other one is what parsing it gives. The cached
   * texts are the others that could be parsed.
   */
  lemma AnswersExactly(compute: Compute, history: seq<string>, text: string)
    ensures Answer(compute, text) == if Blank(text) then Some(Classification("UNKNOWN", false)) else compute(text)
    ensures text in Recent(compute, history) <==> text in history && !Blank(text) && compute(text).Some?
    ensures |LastN(history, CACHE_MAX)| == if |history| < 500 then |history| else 500
  {
    hide Splitter.TrimStart, Splitter.TrimEnd, Blank;
    TrimmedBlank(text);
    TrimmedBlank(Splitter.TrimStart(text));
    TrimmedSolid(text);
    RecentExact(compute, history);
  }

  /** The position of the last use of a text. */
  function LastUse(history: seq<string>, text: string): (i: nat)
    requires text in history
    ensures i < |history| && history[i] == text && text !in history[i + 1..]
  {
    var n := |history| - 1;
    assert history == history[..n] + [history[n]];
    if history[n] == text then n
    else
      var i := LastUse(history[..n], text);
      assert history[i + 1..] == history[..n][i + 1..] + [history[n]];
      i
  }

  /** Each key was last used before every key behind it. */
  ghost predicate ByLastUse(history: seq<string>, keys: seq<string>)
    requires forall t <- keys :: t in history
  {
    || keys == []
    || ((forall t <- keys[1..] :: LastUse(history, keys[0]) < LastUse(history, t)) && ByLastUse(history, keys[1..]))
  }

  lemma {:induction false} WithoutKeepsOrder(history: seq<string>, keys: seq<string>, key: string)
    requires (forall t <- keys :: t in history) && ByLastUse(history, keys)
    ensures forall t <- Without(keys, key) :: t in history
    ensures ByLastUse(history, Without(keys, key))
  {
    hide LastUse;
    WithoutExact(keys, key);
    if keys == [] {
    } else {
      var rest := Without(keys[1..], key);
      WithoutKeepsOrder(history, keys[1..], key);
      WithoutExact(keys[1..], key);
      assert keys[0] != key ==> ([keys[0]] + rest)[1..] == rest;
      assert [] + rest == rest;
    }
  }

  lemma LastUseLater(history: seq<string>, text: string, t: string)
    requires t in history && t != text
    ensures t in history + [text] && LastUse(history + [text], t) == LastUse(history, t)
  {
    assert (history + [text])[..|history|] == history;
  }

  lemma LastUseOfLast(history: seq<string>, text: string)
    ensures text in history + [text] && LastUse(history + [text], text) == |history|
  {
  }

  /** A later use moves its text behind all others. */
  lemma {:induction false} UsedLast(history: seq<string>, keys: seq<string>, text: string)
    requires (forall t <- keys :: t in history && t != text) && ByLastUse(history, keys)
    ensures forall t <- keys + [text] :: t in history + [text]
    ensures ByLastUse(history + [text], keys + [text])
  {
    hide LastUse;
    var later := history + [text];
    if keys == [] {
      assert [text][1..] == [];
    } else {
      var rest := keys[1..];
      assert forall t <- rest :: t in keys;
      UsedLast(history, rest, text);
      assert (keys + [text])[1..] == rest + [text];
      assert keys[0] in keys;
      LastUseLater(history, text, keys[0]);
      LastUseOfLast(history, text);
      forall t | t in rest ensures LastUse(later, t) == LastUse(history, t) {
        LastUseLater(history, text, t);
      }
    }
  }

  lemma {:induction false} UnusedLast(history: seq<string>, keys: seq<string>, text: string)
    requires (forall t <- keys :: t in history && t != text) && ByLastUse(history, keys)
    ensures ByLastUse(history + [text], keys)
  {
    hide LastUse;
    if keys == [] {
    } else {
      assert forall t <- keys[1..] :: t in keys;
      UnusedLast(history, keys[1..], text);
      assert keys[0] in keys;
      forall t | t in keys ensures LastUse(history + [text], t) == LastUse(history, t) {
        LastUseLater(history, text, t);
      }
    }
  }

  /** ... and orders them by their last use. */
  lemma {:induction false} RecentByLastUse(compute: Compute, history: seq<string>)
    ensures forall t <- Recent(compute, history) :: t in history
    ensures ByLastUse(history, Recent(compute, history))
  {
    assert ByLastUse(history, []);
    hide LastUse, ByLastUse;
    RecentExact(compute, history);
    if history == [] {
    } else {
      var n := |history| - 1;
      var h0, text := history[..n], history[n];
      var before := Recent(compute, h0);
      RecentByLastUse(compute, h0);
      assert history == h0 + [text];
      if Cacheable(compute, text) {
        WithoutKeepsOrder(h0, before, text);
        WithoutExact(before, text);
        UsedLast(h0, Without(before, text), text);
      } else {
        RecentExact(compute, h0);
        UnusedLast(h0, before, text);
      }
    }
  }

  // ----- the cache against Recent -----------------------------------------------------------

  /** The kept keys before and after a use of a text. */
  function KeptAfter(kept: seq<string>, text: string): seq<string> {
    if text in kept then Without(kept, text) + [text]
    else if |kept| == CACHE_MAX then kept[1..] + [text]
    else kept + [text]
  }

  lemma KeptHit(evicted: seq<string>, kept: seq<string>, text: string)
    requires Distinct(evicted + kept) && text in kept && |kept| <= CACHE_MAX && (evicted == [] || |kept| == CACHE_MAX)
    ensures LastN(Without(evicted + kept, text) + [text], CACHE_MAX) == Without(kept, text) + [text]
  {
    hide Without;
    var recent := evicted + kept;
    assert forall i, j :: 0 <= i < j < |kept| ==> recent[|evicted| + i] == kept[i] && recent[|evicted| + j] == kept[j];
    WithoutLength(kept, text);
    var i :| 0 <= i < |kept| && kept[i] == text;
    assert recent[|evicted| + i] == text;
    forall k | 0 <= k < |evicted| ensures evicted[k] != text {
      assert recent[k] == evicted[k];
    }
    WithoutAppend(evicted, kept, text);
    WithoutExact(evicted, text);
  }

  lemma NothingToEvict(text: string)
    ensures Without([], text) == []
  {
  }

  lemma KeptMiss(evicted: seq<string>, kept: seq<string>, text: string)
    requires text !in kept && |kept| <= CACHE_MAX && (evicted == [] || |kept| == CACHE_MAX)
    ensures LastN(Without(evicted + kept, text) + [text], CACHE_MAX)
         == if |kept| == CACHE_MAX then kept[1..] + [text] else kept + [text]
  {
    hide Without, Distinct;
    WithoutAppend(evicted, kept, text);
    WithoutExact(kept, text);
    NothingToEvict(text);
    var front := Without(evicted, text);
    if |kept| == CACHE_MAX {
      assert (front + kept + [text])[|front| + 1..] == kept[1..] + [text];
    }
  }

  lemma SuffixWithout(recent: seq<string>, text: string)
    requires Distinct(recent)
    ensures LastN(Without(recent, text) + [text], CACHE_MAX) == KeptAfter(LastN(recent, CACHE_MAX), text)
  {
    hide Without;
    var kept := LastN(recent, CACHE_MAX);
    var evicted := recent[..|recent| - |kept|];
    assert recent == evicted + kept;
    if text in kept {
      KeptHit(evicted, kept, text);
    } else {
      KeptMiss(evicted, kept, text);
    }
  }

  lemma LastNDistinct(recent: seq<string>)
    requires Distinct(recent)
    ensures Distinct(LastN(recent, CACHE_MAX)) && |LastN(recent, CACHE_MAX)| <= CACHE_MAX
  {
  }

  class ClassificationCache {
    const compute: Compute
    var keys: seq<string>
    var values: map<string, Classification>
    ghost var history: seq<string>

    constructor (compute: Compute)
      ensures Valid() && this.compute == compute && history == []
    {
      this.compute := compute;
      keys, values, history := [], map[], [];
    }

    /** The map holds exactly the most recently used classified texts, in order, with their classifications. */
    ghost predicate Valid()
      reads this
    {
      && keys == LastN(Recent(compute, history), CACHE_MAX)
      && values.Keys == (set k | k in keys)
      && forall k :: k in values ==> compute(k) == Some(values[k])
    }

    method GetFromMemory(text: string) returns (r: Option<Classification>)
      requires values.Keys == (set k | k in keys)
      modifies this`keys
      ensures r == if text in values then Some(values[text]) else None
      ensures keys == if text in values then Without(old(keys), text) + [text] else old(keys)
    {
      if text !in values {
        return None;
      }
      keys := Without(keys, text) + [text];
      r := Some(values[text]);
    }

    method SetInMemory(text: string, classification: Classification)
      requires values.Keys == (set k | k in keys) && text !in keys && Distinct(keys)
      modifies this`keys, this`values
      ensures keys == (if |old(keys)| >= CACHE_MAX then old(keys)[1..] else old(keys)) + [text]
      ensures values.Keys == (set k | k in keys) && values[text] == classification
      ensures forall k :: k in values && k != text ==> k in old(values) && values[k] == old(values)[k]
    {
      if |keys| >= CACHE_MAX {
        var oldest := keys[0];
        assert keys == [oldest] + keys[1..];
        assert forall j :: 0 <= j < |keys[1..]| ==> keys[1..][j] == keys[j + 1];
        values := values - {oldest};
        keys := keys[1..];
      }
      values := values[text := classification];
      keys := keys + [text];
    }

    method ClassifyQuery(text: string) returns (r: Option<Classification>)
      requires Valid()
      modifies this
      ensures Valid() && history == old(history) + [text]
      ensures r == Answer(compute, text)
    {
      hide Recent, LastN, Without, LastUse;
      ghost var before := Recent(compute, history);
      RecentExact(compute, history);
      LastNDistinct(before);
      SuffixWithout(before, text);
      RecentStep(compute, history, text);
      history := history + [text];
      if Splitter.Trim(text) == "" {
        return Some(UNKNOWN);
      }
      var cached := GetFromMemory(text);
      if cached.Some? {
        WithoutExact(old(keys), text);
        return cached;
      }
      var classification := compute(text);
      if classification.Some? {
        SetInMemory(text, classification.value);
      }
      r := classification;
    }
  }

  lemma RecentStep(compute: Compute, history: seq<string>, text: string)
    ensures Recent(compute, history + [text])
         == if Cacheable(compute, text) then Without(Recent(compute, history), text) + [text]
           else Recent(compute, history)
  {
    assert (history + [text])[..|history|] == history;
  }
}
