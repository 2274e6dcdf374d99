/** Grouped queries in which only ORDER BY computes an aggregate: the merge takes them for plain ones. */
module GroupOrder {
  import opened Wrappers
  import opened Sequences
  import opened Ast
  import opened Aggregates
  import opened Walkers
  import opened FanOut
  import opened Query
  import opened Locality
  import opened Merge
  import opened Rewrite
  import opened OrderOnly
  import opened Placement
  import opened Grouping
  import opened Limits

  // ----- what is kept -----------------------------------------------------------------------

  function Outs(items: seq<Item>): seq<seq<Value>> {
    Map((item: Item) => item.out, items)
  }

  /** ORDER BY does not change what the lines show. */
  lemma {:induction false} OutsUnordered(I: Meaning, q: Select, keys: seq<seq<Value>>, rows: seq<Row>)
    ensures Outs(GroupItems(I, q, keys, rows)) == Outs(GroupItems(I, Unordered(q), keys, rows))
  {
    hide IsScatterGather, EvalGroupAll, EvalGroup;
    if keys == [] {
    } else {
      OutsUnordered(I, q, keys[1..], rows);
    }
  }

  lemma LinesUnordered(I: Meaning, q: Select, rows: seq<Row>)
    requires q.groupBy != []
    ensures Outs(Lines(I, q, rows)) == Outs(Lines(I, Unordered(q), rows))
  {
    hide IsScatterGather, GroupItems;
    OutsUnordered(I, q, GroupKeys(I, q.groupBy, rows), rows);
  }

  lemma PermutedOuts(s: seq<Item>, t: seq<Item>)
    requires Permuted(s, t)
    ensures Permuted(Outs(s), Outs(t))
  {
    FlatMapPermutation(Out, s, t);
    OutsIsFlatMap(s);
    OutsIsFlatMap(t);
  }

  /** The answer shows the lines in some order, up to LIMIT. */
  lemma FinishShows(I: Meaning, q: Select, lines: seq<Item>)
    requires !q.distinct
    ensures Unlimited(q) ==> Permuted(Finish(I, q, lines), Outs(lines))
    ensures Unlimited(q) || |Finish(I, q, lines)|
         == if q.limit.value.limit.value < |lines| then q.limit.value.limit.value else |lines|
  {
    hide Sort, FlatMap;
    var sorted := Arranged(I, q, lines);
    SortPermutes(I, Directions(q), lines);
    assert |sorted| == |multiset(sorted)| == |multiset(lines)| == |lines|;
    PermutedOuts(sorted, lines);
    if Unlimited(q) {
      assert Finish(I, q, lines) == Outs(sorted);
    }
  }

  /** On tables that give the shard query the same answer, the whole query shows the same lines. */
  lemma SameUnorderedAnswer(I: Meaning, q: Select, s: seq<Row>, t: seq<Row>)
    requires q.groupBy != [] && !q.distinct && Execute(I, Unordered(q), s) == Execute(I, Unordered(q), t)
    ensures |Execute(I, q, s)| == |Execute(I, q, t)|
    ensures Unlimited(q) ==> Permuted(Execute(I, q, s), Execute(I, q, t))
  {
    hide Lines, Finish, Unlimited;
    var p, r := Passing(I, OptionExprs(q.where), s), Passing(I, OptionExprs(q.where), t);
    UnorderedShows(I, q, p);
    UnorderedShows(I, q, r);
    LinesUnordered(I, q, p);
    LinesUnordered(I, q, r);
    FinishShows(I, q, Lines(I, q, p));
    FinishShows(I, q, Lines(I, q, r));
    assert |Outs(Lines(I, q, p))| == |Outs(Lines(I, q, r))|;
    SameLength(I, q, Lines(I, q, p), Lines(I, q, r));
  }

  lemma SameLength(I: Meaning, q: Select, s: seq<Item>, t: seq<Item>)
    requires !q.distinct && |s| == |t|
    ensures |Finish(I, q, s)| == |Finish(I, q, t)|
  {
    hide Sort, Finish, Outs;
    FinishShows(I, q, s);
    FinishShows(I, q, t);
    if Unlimited(q) {
      assert |multiset(Finish(I, q, s))| == |multiset(Outs(s))| && |multiset(Finish(I, q, t))| == |multiset(Outs(t))|;
      SameOutsLength(s, t);
    }
  }

  lemma SameOutsLength(s: seq<Item>, t: seq<Item>)
    requires |s| == |t|
    ensures |multiset(Outs(s))| == |multiset(Outs(t))|
  {
  }

  lemma UnorderedShows(I: Meaning, q: Select, rows: seq<Row>)
    requires !q.distinct
    ensures Finish(I, Unordered(q), Lines(I, Unordered(q), rows)) == Outs(Lines(I, Unordered(q), rows))
  {
    hide Lines;
    FinishPlain(I, Unordered(q), Lines(I, Unordered(q), rows));
  }

  /** A DISTINCT query orders by what it selects. */
  lemma {:induction false} TermsAreSelected(es: seq<Expr>, columns: seq<Expr>)
    requires AllScalar(columns) && forall i :: 0 <= i < |es| ==> es[i] in columns
    ensures AllScalar(es)
  {
    hide IsScatterGather;
    if es == [] {
    } else {
      assert es[0] in columns;
      AllScalarMember(columns, es[0]);
      forall i | 0 <= i < |es[1..]| ensures es[1..][i] in columns {
        assert es[1..][i] == es[i + 1];
      }
      TermsAreSelected(es[1..], columns);
    }
  }

  lemma DistinctOrdersByKey(q: Select)
    requires KeyQuery(q) && Valid(q) && q.distinct
    ensures AllScalar(OrderTerms(q))
  {
    hide IsScatterGather, AllScalar, OrderTerms;
    TermsAreSelected(OrderTerms(q), ColumnExprs(q.columns));
  }

  /** The rows of the temporary table, one for each group of each shard. */
  function LoadedKeys(I: Meaning, q: Select, shards: seq<seq<Row>>): seq<Row> {
    Map((k: seq<Value>) => KeyImage(I, Unordered(q), k), AllShardKeys(I, Unordered(q), shards))
  }

  /** The merge runs the whole query over these rows, and without ORDER BY they give the direct answer. */
  lemma MergedOnKeys(I: Meaning, q: Select, fanOut: Select, cols: seq<string>, shards: seq<seq<Row>>)
    requires Splits(q, fanOut, false) && KeyQuery(q) && Faithful(q) && shards != []
    requires Direct(I, q, cols, shards).Success?
    ensures ScatterGather(I, q, cols, shards) == Success(Execute(I, q, LoadedKeys(I, q, shards)))
    ensures Direct(I, q, cols, shards) == Success(Execute(I, q, Flatten(shards)))
    ensures Execute(I, Unordered(q), LoadedKeys(I, q, shards)) == Execute(I, Unordered(q), Flatten(shards))
  {
    hide IsScatterGather, SplitOf, Valid, QueryRefs, Execute, ShardRows, Run, ScatterGather, KeyImage, KeysOfRows;
    hide AllScalar, OrderTerms, Distinct, Dedup, ShardKeys;
    ExpandWithoutStar(q.columns, cols);
    var names, f := OutputNames(q.columns), Unordered(q);
    ExpandWithoutStar(q.columns, names);
    ExpansionsAgree(q, fanOut, cols);
    ShardsRunUnordered(q, fanOut);
    assert AnswerNames(fanOut, cols) == names;
    KeyDirectNeeds(I, q, cols, shards);
    KeyQueryUnordered(q);
    UnorderedReady(q);
    KeyRowsLoaded(I, f, cols, shards);
    AllShardKeysOfRows(I, f, shards);
    KeysOfAllShards(I, f, shards);
    KeyRowsExecute(I, f, AllShardKeys(I, f, shards), Flatten(shards));
    GatherRuns(I, q, fanOut, false, cols, shards);
    RunsPlain(I, q, names, LoadedKeys(I, q, shards));
  }

  lemma OnlyOrderIsLost(I: Meaning, q: Select, fanOut: Select, cols: seq<string>, shards: seq<seq<Row>>)
    requires Splits(q, fanOut, false) && KeyQuery(q) && !q.distinct && Faithful(q) && shards != []
    requires Direct(I, q, cols, shards).Success?
    ensures var merged, direct := ScatterGather(I, q, cols, shards), Direct(I, q, cols, shards);
      && merged.Success? && |merged.value| == |direct.value|
      && (Unlimited(q) ==> Permuted(merged.value, direct.value))
  {
    hide IsScatterGather, Valid, Execute, ScatterGather, Direct, KeyQuery, Faithful, Permuted, Unlimited, LoadedKeys;
    hide Splits;
    assert q.groupBy != [] by { KeyQueryGroups(q); }
    MergedOnKeys(I, q, fanOut, cols, shards);
    SameUnorderedAnswer(I, q, LoadedKeys(I, q, shards), Flatten(shards));
  }

  lemma KeyQueryGroups(q: Select)
    requires KeyQuery(q)
    ensures q.groupBy != []
  {
  }

  /**
   When the SELECT list and HAVING of a grouped query compute no aggregate, whatever ORDER BY
   computes, the merged answer has as many rows as the direct one and, without LIMIT, the same rows
   in some order.
   */
  lemma GroupsAreKept(I: Meaning, q: Select, fanOut: Select, cols: seq<string>, shards: seq<seq<Row>>)
    requires Splits(q, fanOut, false) && KeyQuery(q) && Faithful(q) && shards != []
    requires Direct(I, q, cols, shards).Success?
    ensures var merged, direct := ScatterGather(I, q, cols, shards), Direct(I, q, cols, shards);
      && merged.Success? && |merged.value| == |direct.value|
      && (Unlimited(q) ==> Permuted(merged.value, direct.value))
  {
    hide IsScatterGather, SplitOf, Valid, QueryRefs, ScatterGather, Direct, Splits;
    hide AllScalar, OrderTerms, OrderByKey, Distinct, Unlimited, SameAnswer, Covered, NoShadow;
    if q.distinct {
      KeyDirectNeeds(I, q, cols, shards);
      DistinctOrdersByKey(q);
      ScalarOrderByKey(I, q);
      FaithfulKeysAgree(I, q, fanOut, cols, shards);
    } else {
      OnlyOrderIsLost(I, q, fanOut, cols, shards);
    }
  }
}
