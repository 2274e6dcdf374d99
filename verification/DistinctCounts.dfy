/** SELECT DISTINCT with aggregates: the shards drop repeated rows, which an aggregate may have to count. */
module DistinctCounts {
  import opened Wrappers
  import opened Sequences
  import opened Ast
  import opened Aggregates
  import opened Walkers
  import opened FanOut
  import opened Query
  import opened Locality
  import opened Merge
  import opened Rewrite
  import opened Fragment
  import opened OrderOnly
  import opened Placement
  import opened Grouping
  import opened GroupOrder
  import opened Limits

  // ----- what DISTINCT drops on the shards --------------------------------------------------

  /** Under distinct column names two rows have the same image exactly when they have the same line. */
  lemma SameImageSameLine(I: Meaning, e: Select, r: Row, s: Row)
    requires Distinct(OutputNames(e.columns)) && e.orderBy == []
    ensures Image(I, e, r) == Image(I, e, s) <==> RowItem(I, e, r) == RowItem(I, e, s)
  {
    var names := OutputNames(e.columns);
    var a, b := EvalAll(I, ColumnExprs(e.columns), r), EvalAll(I, ColumnExprs(e.columns), s);
    RowObjectCells(names, a);
    RowObjectCells(names, b);
    assert RowItem(I, e, r).order == [] && RowItem(I, e, s).order == [];
    if Image(I, e, r) == Image(I, e, s) {
      assert forall k :: 0 <= k < |names| ==> a[k] == Cell(Image(I, e, r), names[k]) == b[k];
      assert a == b;
    }
  }

  lemma DistinctLines(I: Meaning, e: Select, rows: seq<Row>)
    requires Distinct(OutputNames(e.columns)) && e.orderBy == []
    ensures Distinct(RowItems(I, e, rows)) <==> Distinct(Images(I, e, rows))
  {
    hide Image, RowItem;
    forall i, j | 0 <= i < j < |rows|
      ensures RowItems(I, e, rows)[i] == RowItems(I, e, rows)[j] <==> Images(I, e, rows)[i] == Images(I, e, rows)[j]
    {
      SameImageSameLine(I, e, rows[i], rows[j]);
    }
  }

  /** A DISTINCT shard query returns fewer rows than pass on the shard, unless their images differ. */
  lemma DistinctShardSize(I: Meaning, fanOut: Select, cols: seq<string>, shard: seq<Row>)
    requires var e := Expand(fanOut, cols); Ready(e, cols) && e.distinct && Distinct(OutputNames(e.columns))
    ensures var e, answer := Expand(fanOut, cols), Run(I, fanOut, Table(cols, shard));
      && answer.Success?
      && |answer.value| <= |ShardImages(I, e, shard)|
      && (|answer.value| == |ShardImages(I, e, shard)| <==> NothingDropped(I, e, [shard]))
  {
    hide IsScatterGather, Image, RowItem, Distinct, Valid, Dedup, OutputNames, ColumnExprs, Refs, Passing;
    var e := Expand(fanOut, cols);
    var passing := Passing(I, OptionExprs(e.where), shard);
    var items := RowItems(I, e, passing);
    FinishPlain(I, e.(distinct := false), Dedup(items));
    DedupLength(items);
    assert |Execute(I, e, shard)| == |Dedup(items)|;
    DistinctLines(I, e, passing);
    assert NothingDropped(I, e, [shard]) <==> Distinct(ShardImages(I, e, shard)) by { assert [shard][0] == shard; }
  }

  lemma {:induction false} DistinctLoadSize(I: Meaning, fanOut: Select, cols: seq<string>, shards: seq<seq<Row>>)
    requires var e := Expand(fanOut, cols); Ready(e, cols) && e.distinct && Distinct(OutputNames(e.columns))
    ensures var e, loaded := Expand(fanOut, cols), ShardRows(I, fanOut, cols, AnswerNames(fanOut, cols), shards);
      && loaded.Success?
      && |Flatten(loaded.value)| <= |ShardImages(I, e, Flatten(shards))|
      && (|Flatten(loaded.value)| == |ShardImages(I, e, Flatten(shards))| <==> NothingDropped(I, e, shards))
  {
    hide Run, Images, Ready, Passing;
    if shards == [] {
      PassingAll(I, OptionExprs(Expand(fanOut, cols).where), []);
    } else {
      var e := Expand(fanOut, cols);
      var names := AnswerNames(fanOut, cols);
      DistinctShardSize(I, fanOut, cols, shards[0]);
      DistinctLoadSize(I, fanOut, cols, shards[1..]);
      var first := RowObjects(names, Run(I, fanOut, Table(cols, shards[0])).value);
      var rest := ShardRows(I, fanOut, cols, names, shards[1..]).value;
      assert ShardRows(I, fanOut, cols, names, shards).value == [first] + rest;
      assert ([first] + rest)[1..] == rest;
      PassingAppend(I, OptionExprs(e.where), shards[0], Flatten(shards[1..]));
      DroppedInFirstOrRest(I, e, shards);
    }
  }

  lemma DroppedInFirstOrRest(I: Meaning, e: Select, shards: seq<seq<Row>>)
    requires shards != []
    ensures NothingDropped(I, e, shards) <==> NothingDropped(I, e, [shards[0]]) && NothingDropped(I, e, shards[1..])
  {
    hide ShardImages;
    assert [shards[0]][0] == shards[0];
    if NothingDropped(I, e, shards) {
      forall i | 0 <= i < |shards[1..]| ensures e.distinct ==> Distinct(ShardImages(I, e, shards[1..][i])) {
        assert shards[1..][i] == shards[i + 1];
      }
    }
    if NothingDropped(I, e, [shards[0]]) && NothingDropped(I, e, shards[1..]) {
      forall i | 0 <= i < |shards| ensures e.distinct ==> Distinct(ShardImages(I, e, shards[i])) {
        if i > 0 {
          assert shards[i] == shards[1..][i - 1];
        }
      }
    }
  }

  // ----- counting -----------------------------------------------------------------------------

  /** A meaning in which the aggregate counts its inputs. */
  ghost predicate Counts(I: Meaning, call: Expr)
    requires call.Call?
  {
    forall inputs :: I.aggregate(AggregateCall(FunctionName(call), call.distinct, call.directions), inputs)
      == Int(|inputs|)
  }

  lemma {:induction false} UnfilteredInputs(I: Meaning, call: Expr, rows: seq<Row>)
    requires call.Call? && call.filter == []
    ensures |Inputs(I, call, rows)| == |rows|
  {
    if rows == [] {
    } else {
      UnfilteredInputs(I, call, rows[1..]);
    }
  }

  /** The sizes of the groups, added up. */
  function Sizes(I: Meaning, groupBy: seq<Expr>, keys: seq<seq<Value>>, rows: seq<Row>): nat {
    if keys == [] then 0 else |Members(I, groupBy, keys[0], rows)| + Sizes(I, groupBy, keys[1..], rows)
  }

  lemma {:induction false} SizesStep(I: Meaning, groupBy: seq<Expr>, keys: seq<seq<Value>>, rows: seq<Row>)
    requires rows != [] && Distinct(keys)
    ensures Sizes(I, groupBy, keys, rows)
         == Sizes(I, groupBy, keys, rows[1..]) + if EvalAll(I, groupBy, rows[0]) in keys then 1 else 0
  {
    hide EvalAll;
    if keys == [] {
    } else {
      assert forall i, j :: 0 <= i < j < |keys[1..]| ==> keys[1..][i] == keys[i + 1] != keys[j + 1] == keys[1..][j];
      SizesStep(I, groupBy, keys[1..], rows);
      assert keys[0] !in keys[1..];
    }
  }

  lemma {:induction false} SizesOfNone(I: Meaning, groupBy: seq<Expr>, keys: seq<seq<Value>>)
    ensures Sizes(I, groupBy, keys, []) == 0
  {
    if keys == [] {
    } else {
      SizesOfNone(I, groupBy, keys[1..]);
    }
  }

  /** Every row belongs to exactly one group. */
  lemma {:induction false} SizesAddUp(I: Meaning, groupBy: seq<Expr>, keys: seq<seq<Value>>, rows: seq<Row>)
    requires Distinct(keys) && forall row <- rows :: EvalAll(I, groupBy, row) in keys
    ensures Sizes(I, groupBy, keys, rows) == |rows|
  {
    hide EvalAll;
    if rows == [] {
      SizesOfNone(I, groupBy, keys);
    } else {
      SizesStep(I, groupBy, keys, rows);
      SizesAddUp(I, groupBy, keys, rows[1..]);
    }
  }

  lemma KeysPartition(I: Meaning, groupBy: seq<Expr>, rows: seq<Row>)
    ensures Distinct(GroupKeys(I, groupBy, rows))
    ensures Sizes(I, groupBy, GroupKeys(I, groupBy, rows), rows) == |rows|
  {
    hide EvalAll, Dedup, Members, Sizes;
    var all := Keys(I, groupBy, rows);
    DedupElements(all);
    forall row | row in rows ensures EvalAll(I, groupBy, row) in GroupKeys(I, groupBy, rows) {
      var i :| 0 <= i < |rows| && rows[i] == row;
      assert all[i] == EvalAll(I, groupBy, row);
      assert groupBy == [] ==> EvalAll(I, groupBy, row) == [];
    }
    SizesAddUp(I, groupBy, GroupKeys(I, groupBy, rows), rows);
  }

  /** The key of some row's group. */
  ghost predicate KeyOfSomeRow(I: Meaning, groupBy: seq<Expr>, key: seq<Value>) {
    exists row :: key == EvalAll(I, groupBy, row)
  }

  lemma KeysAreOfRows(I: Meaning, groupBy: seq<Expr>, rows: seq<Row>)
    ensures forall k <- GroupKeys(I, groupBy, rows) :: |k| == |groupBy|
    ensures forall k <- GroupKeys(I, groupBy, rows) :: groupBy == [] || KeyOfSomeRow(I, groupBy, k)
  {
    hide Eval, Dedup;
    var all := Keys(I, groupBy, rows);
    DedupElements(all);
    forall k | k in GroupKeys(I, groupBy, rows)
      ensures |k| == |groupBy| && (groupBy == [] || KeyOfSomeRow(I, groupBy, k))
    {
      if groupBy != [] {
        var i :| 0 <= i < |all| && all[i] == k;
        assert k == EvalAll(I, groupBy, rows[i]);
      }
    }
  }

  /** DISTINCT over groups that all show, with a column that counts the rows of each. */
  ghost predicate CountedGroups(q: Select, j: nat) {
    && q.distinct && q.having == None && Unlimited(q)
    && (forall g <- q.groupBy :: g in ColumnExprs(q.columns))
    && j < |q.columns| && IsScatterGather(q.columns[j].expr) && q.columns[j].expr.filter == []
  }

  lemma {:induction false} EvalGroupAllAt(I: Meaning, es: seq<Expr>, groupBy: seq<Expr>, key: seq<Value>,
                                          rows: seq<Row>, i: nat)
    requires |key| == |groupBy| && i < |es|
    ensures EvalGroupAll(I, es, groupBy, key, rows)[i] == EvalGroup(I, es[i], groupBy, key, rows)
  {
    if i == 0 {
    } else {
      EvalGroupAllAt(I, es[1..], groupBy, key, rows, i - 1);
    }
  }

  lemma CountOfGroup(I: Meaning, q: Select, j: nat, key: seq<Value>, group: seq<Row>)
    requires CountedGroups(q, j) && Valid(q) && |key| == |q.groupBy| && Counts(I, q.columns[j].expr)
    ensures j < |GroupItem(I, q, key, group).out| && GroupItem(I, q, key, group).out[j] == Int(|group|)
  {
    var call := q.columns[j].expr;
    assert call.Call?;
    hide IsScatterGather, FunctionName, AllGrouped, OrderTerms;
    if call in q.groupBy {
      AllScalarMember(q.groupBy, call);
    }
    EvalGroupAllAt(I, ColumnExprs(q.columns), q.groupBy, key, group, j);
    UnfilteredInputs(I, call, group);
  }

  lemma NoGroups(I: Meaning, q: Select, rows: seq<Row>)
    ensures GroupItems(I, q, [], rows) == []
  {
  }

  lemma {:induction false} ItemsWithoutHaving(I: Meaning, q: Select, keys: seq<seq<Value>>, rows: seq<Row>)
    requires q.having == None && forall k <- keys :: |k| == |q.groupBy|
    ensures var items := GroupItems(I, q, keys, rows);
      && |items| == |keys|
      && forall i :: 0 <= i < |keys| ==> items[i] == GroupItem(I, q, keys[i], Members(I, q.groupBy, keys[i], rows))
  {
    hide IsScatterGather, GroupItem, GroupItems, Members;
    if keys == [] {
      NoGroups(I, q, rows);
    } else {
      assert keys[0] in keys && forall k <- keys[1..] :: k in keys;
      ItemsWithoutHaving(I, q, keys[1..], rows);
      FirstItem(I, q, keys, rows);
      var items := GroupItems(I, q, keys, rows);
      forall i | 0 <= i < |keys| ensures items[i] == GroupItem(I, q, keys[i], Members(I, q.groupBy, keys[i], rows)) {
        if i > 0 {
          assert keys[i] == keys[1..][i - 1];
        }
      }
    }
  }

  /** What the counted column of an output row counts, in units. */
  function Units(j: nat, out: seq<Value>): seq<()> {
    if j < |out| && out[j].Int? && out[j].i >= 0 then seq(out[j].i, _ => ()) else []
  }

  function Total(j: nat, answer: seq<seq<Value>>): nat {
    |FlatMap((out: seq<Value>) => Units(j, out), answer)|
  }

  lemma TotalPermuted(j: nat, s: seq<seq<Value>>, t: seq<seq<Value>>)
    requires Permuted(s, t)
    ensures Total(j, s) == Total(j, t)
  {
    var f := (out: seq<Value>) => Units(j, out);
    FlatMapPermutation(f, s, t);
    assert |multiset(FlatMap(f, s))| == |multiset(FlatMap(f, t))|;
  }

  lemma TotalFirst(j: nat, item: Item, n: nat, rest: seq<Item>)
    requires j < |item.out| && item.out[j] == Int(n)
    ensures Total(j, Outs([item] + rest)) == n + Total(j, Outs(rest))
  {
    assert Outs([item] + rest) == [item.out] + Outs(rest);
    FlatMapFirst((out: seq<Value>) => Units(j, out), item.out, Outs(rest));
  }

  lemma FirstItem(I: Meaning, q: Select, keys: seq<seq<Value>>, rows: seq<Row>)
    requires keys != [] && q.having == None && |keys[0]| == |q.groupBy|
    ensures GroupItems(I, q, keys, rows)
         == [GroupItem(I, q, keys[0], Members(I, q.groupBy, keys[0], rows))] + GroupItems(I, q, keys[1..], rows)
  {
    hide GroupItem, Members;
  }

  lemma {:induction false} ItemsTotal(I: Meaning, q: Select, j: nat, keys: seq<seq<Value>>, rows: seq<Row>)
    requires CountedGroups(q, j) && Valid(q) && Counts(I, q.columns[j].expr)
    requires forall k <- keys :: |k| == |q.groupBy|
    ensures Total(j, Outs(GroupItems(I, q, keys, rows))) == Sizes(I, q.groupBy, keys, rows)
  {
    hide IsScatterGather, CountedGroups, Valid, Counts, GroupItem, GroupItems, Members, Outs, Total, FunctionName, Eval;
    HasNoHaving(q, j);
    if keys == [] {
      NoItems(I, q, j, rows);
    } else {
      assert keys[0] in keys && forall k <- keys[1..] :: k in keys;
      ItemsTotal(I, q, j, keys[1..], rows);
      var group := Members(I, q.groupBy, keys[0], rows);
      CountOfGroup(I, q, j, keys[0], group);
      FirstItem(I, q, keys, rows);
      TotalFirst(j, GroupItem(I, q, keys[0], group), |group|, GroupItems(I, q, keys[1..], rows));
    }
  }

  lemma NoItems(I: Meaning, q: Select, j: nat, rows: seq<Row>)
    ensures Total(j, Outs(GroupItems(I, q, [], rows))) == 0
  {
  }

  lemma HasNoHaving(q: Select, j: nat)
    requires CountedGroups(q, j)
    ensures q.having == None && j < |q.columns|
  {
  }

  /** The lines of two groups differ in a grouping column. */
  lemma GroupsShow(I: Meaning, q: Select, k: seq<Value>, k': seq<Value>, r: Row, r': Row, g: seq<Row>, g': seq<Row>)
    requires forall e <- q.groupBy :: e in ColumnExprs(q.columns)
    requires k == EvalAll(I, q.groupBy, r) && k' == EvalAll(I, q.groupBy, r') && k != k'
    ensures GroupItem(I, q, k, g) != GroupItem(I, q, k', g')
  {
    hide IsScatterGather, OrderTerms;
    var t :| 0 <= t < |k| && k[t] != k'[t];
    var e := q.groupBy[t];
    EvalAllAt(I, q.groupBy, r, t);
    EvalAllAt(I, q.groupBy, r', t);
    KeyAt(I, q.groupBy, e, r);
    KeyAt(I, q.groupBy, e, r');
    var es := ColumnExprs(q.columns);
    var c :| 0 <= c < |es| && es[c] == e;
    EvalGroupAllAt(I, es, q.groupBy, k, g, c);
    EvalGroupAllAt(I, es, q.groupBy, k', g', c);
  }

  lemma CountedLinesDistinct(I: Meaning, q: Select, j: nat, rows: seq<Row>)
    requires CountedGroups(q, j)
    ensures Distinct(GroupItems(I, q, GroupKeys(I, q.groupBy, rows), rows))
  {
    hide IsScatterGather, GroupItem, Members, GroupKeys, Dedup;
    var keys := GroupKeys(I, q.groupBy, rows);
    KeysPartition(I, q.groupBy, rows);
    KeysAreOfRows(I, q.groupBy, rows);
    ItemsWithoutHaving(I, q, keys, rows);
    var items := GroupItems(I, q, keys, rows);
    forall a, b | 0 <= a < b < |items| ensures items[a] != items[b] {
      assert keys[a] in keys && keys[b] in keys && keys[a] != keys[b];
      if q.groupBy != [] {
        assert KeyOfSomeRow(I, q.groupBy, keys[a]) && KeyOfSomeRow(I, q.groupBy, keys[b]);
        var r, r' :| keys[a] == EvalAll(I, q.groupBy, r) && keys[b] == EvalAll(I, q.groupBy, r');
        var g, g' := Members(I, q.groupBy, keys[a], rows), Members(I, q.groupBy, keys[b], rows);
        GroupsShow(I, q, keys[a], keys[b], r, r', g, g');
      }
    }
  }

  /** The counts of the answer add up to the number of rows. */
  lemma CountsAddUp(I: Meaning, q: Select, j: nat, rows: seq<Row>)
    requires CountedGroups(q, j) && Valid(q) && IsGrouped(q) && Counts(I, q.columns[j].expr)
    ensures Total(j, Finish(I, q, Lines(I, q, rows))) == |rows|
  {
    hide IsScatterGather, Valid, IsGrouped, GroupItems, GroupKeys, Sort, Counts, Total, Dedup, Permuted;
    var keys := GroupKeys(I, q.groupBy, rows);
    var lines := GroupItems(I, q, keys, rows);
    KeysPartition(I, q.groupBy, rows);
    KeysAreOfRows(I, q.groupBy, rows);
    ItemsTotal(I, q, j, keys, rows);
    CountedLinesDistinct(I, q, j, rows);
    DedupOfDistinct(lines);
    FinishShows(I, q.(distinct := false), lines);
    assert Finish(I, q, lines) == Finish(I, q.(distinct := false), lines);
    TotalPermuted(j, Finish(I, q, lines), Outs(lines));
  }

  // ----- the theorem --------------------------------------------------------------------------

  /** What was loaded passes again, and is as much as passed on the shards if nothing was dropped. */
  lemma LoadedExecutes(I: Meaning, q: Select, fanOut: Select, cols: seq<string>, shards: seq<seq<Row>>, j: nat)
    requires Splits(q, fanOut, true) && Transparent(q) && shards != [] && CountedGroups(q, j)
    requires Counts(I, q.columns[j].expr) && Direct(I, q, cols, shards).Success?
    requires NoShadow(fanOut.columns, QueryRefs(q))
    requires Distinct(OutputNames(fanOut.columns)) && Covered(fanOut.columns, QueryRefs(q))
    ensures ScatterGather(I, q, cols, shards).Success?
    ensures Total(j, ScatterGather(I, q, cols, shards).value) == Total(j, Direct(I, q, cols, shards).value)
      ==> NothingDropped(I, fanOut, shards)
  {
    hide IsScatterGather, SplitOf, Splits, Valid, IsGrouped, Lines, Finish, Images, ShardRows, NoShadow, NothingDropped;
    hide Run, ScatterGather, Direct, Transparent, QueryRefs, Distinct, Counts, Total, Dedup, Passing;
    DirectNeeds(I, q, cols, shards);
    AggregateShardsReady(q, fanOut, cols);
    assert IsGrouped(q) by { SplitIsGrouped(q, fanOut); }
    StarNotInQuery(q);
    var names := AnswerNames(fanOut, cols);
    ShardRowsDistinct(I, fanOut, cols, shards);
    DistinctLoadSize(I, fanOut, cols, shards);
    var loaded := Flatten(ShardRows(I, fanOut, cols, names, shards).value);
    GatherRuns(I, q, fanOut, true, cols, shards);
    RunsPlain(I, q, names, loaded);
    RerunLines(I, q, fanOut, Flatten(shards));
    PassingSameSet(I, OptionExprs(q.where), loaded, ShardImages(I, fanOut, Flatten(shards)));
    CountsAddUp(I, q, j, loaded);
    CountsAddUp(I, q, j, Passing(I, OptionExprs(q.where), Flatten(shards)));
  }

  lemma SplitIsGrouped(q: Select, fanOut: Select)
    requires Splits(q, fanOut, true)
    ensures IsGrouped(q)
  {
    hide IsScatterGather, IsGrouped, HasAggregates, SupportError, RequiresValidation;
    AggregateIsGrouped(q);
  }

  /**
   A DISTINCT query that shows its groups and counts their rows is merged correctly exactly when it
   fails anyway, or the shard query carries what is read and its DISTINCT drops nothing on any shard.
   */
  lemma DistinctAggregateExact(I: Meaning, q: Select, fanOut: Select, cols: seq<string>, shards: seq<seq<Row>>, j: nat)
    requires Splits(q, fanOut, true) && Transparent(q) && shards != [] && CountedGroups(q, j)
    requires Counts(I, q.columns[j].expr) && NoShadow(fanOut.columns, QueryRefs(q))
    ensures SameAnswer(ScatterGather(I, q, cols, shards), Direct(I, q, cols, shards))
       <==> Direct(I, q, cols, shards).Failure?
            || (&& Distinct(OutputNames(fanOut.columns)) && Covered(fanOut.columns, QueryRefs(q))
                && NothingDropped(I, fanOut, shards))
  {
    hide IsScatterGather, SplitOf, Splits, Valid, Transparent, CountedGroups, Counts, NoShadow, Distinct, Covered;
    hide NothingDropped, ScatterGather, QueryRefs, Total, Direct;
    if Direct(I, q, cols, shards).Failure? {
      FailingAggregatesFail(I, q, fanOut, cols, shards);
    } else if !(Distinct(OutputNames(fanOut.columns)) && Covered(fanOut.columns, QueryRefs(q))) {
      if ScatterGather(I, q, cols, shards).Success? {
        MergedAggregateNeeds(I, q, fanOut, cols, shards);
      }
    } else {
      LoadedExecutes(I, q, fanOut, cols, shards, j);
      if NothingDropped(I, fanOut, shards) {
        CoveredAggregatesAgree(I, q, fanOut, cols, shards);
      }
    }
  }

  /** For queries grouped by columns only the columns of WHERE and ORDER BY have to be looked at. */
  lemma DistinctGroupingExact(I: Meaning, q: Select, fanOut: Select, cols: seq<string>, shards: seq<seq<Row>>, j: nat)
    requires Splits(q, fanOut, true) && ColumnGrouping(q) && NoStar(q.columns) && shards != [] && CountedGroups(q, j)
    requires Counts(I, q.columns[j].expr) && "_mtdd_row" !in QueryRefs(q)
    ensures SameAnswer(ScatterGather(I, q, cols, shards), Direct(I, q, cols, shards))
       <==> Direct(I, q, cols, shards).Failure?
            || (&& (forall n :: n in FilterAndSortRefs(q) ==> n in OutputNames(fanOut.columns))
                && NothingDropped(I, fanOut, shards))
  {
    hide IsScatterGather, SplitOf, Splits, Valid, Transparent, CountedGroups, Counts, NoShadow, Distinct, Covered;
    hide NothingDropped, ScatterGather, QueryRefs, Direct, ColumnGrouping, SameAnswer, NoStar;
    ColumnGroupingCovers(I, q, fanOut, cols, shards);
    DistinctAggregateExact(I, q, fanOut, cols, shards, j);
  }

  /** All rows have one image under the row marker, so DISTINCT drops all but one. */
  lemma MarkersDropped(I: Meaning, f: Select, shards: seq<seq<Row>>)
    requires f.distinct && f.where == None && f.columns == [ROW_MARKER]
    ensures NothingDropped(I, f, shards) <==> forall i :: 0 <= i < |shards| ==> |shards[i]| <= 1
  {
    hide Image, Passing;
    forall i | 0 <= i < |shards| ensures Distinct(ShardImages(I, f, shards[i])) <==> |shards[i]| <= 1 {
      var images := ShardImages(I, f, shards[i]);
      PassingAll(I, [], shards[i]);
      forall j | 0 <= j < |images| ensures images[j] == RowObject(["_mtdd_row"], [Int(1)]) {
        MarkerImage(I, f, shards[i][j]);
      }
      if |shards[i]| > 1 {
        assert images[0] == images[1];
      }
    }
  }

  lemma MarkerImage(I: Meaning, f: Select, row: Row)
    requires f.columns == [ROW_MARKER]
    ensures Image(I, f, row) == RowObject(["_mtdd_row"], [Int(1)])
  {
    assert ColumnExprs(f.columns) == [Const(Int(1))] && [Const(Int(1))][1..] == [];
    assert OutputNames(f.columns) == ["_mtdd_row"];
  }

  /** `SELECT DISTINCT count(*) FROM t` is right exactly when no shard holds two rows. */
  lemma DistinctCountExact(I: Meaning, cols: seq<string>, shards: seq<seq<Row>>)
    requires Counts(I, Count(Ref(STAR))) && shards != []
    ensures var q := From([Column(Count(Ref(STAR)), None)], None, [], true);
      SameAnswer(ScatterGather(I, q, cols, shards), Direct(I, q, cols, shards))
      <==> forall i :: 0 <= i < |shards| ==> |shards[i]| <= 1
  {
    hide IsScatterGather, SplitOf, RowLevelColumns, Valid, FanOutSelect, Execute, NothingDropped, ShardRows, IsGrouped;
    hide Run, ScatterGather, Splits, Transparent, QueryRefs, Flatten, Direct, Counts, SameAnswer;
    var all := Ref(STAR);
    var q := From([Column(Count(all), None)], None, [], true);
    CountIsAggregate(Count(all));
    CountSplits(all, None, true);
    assert AddMissingRefs([], Dedup(CollectRefs(all))) == [];
    CountProjects(all, None, true, []);
    CountRuns(I, all, None, true, cols, shards);
    CountTransparent(all, None, true);
    CountFanOutColumns(all, None, true);
    assert OutputNames([ROW_MARKER]) == ["_mtdd_row"] && Distinct(["_mtdd_row"]);
    MarkersDropped(I, FanOutSelect(q), shards);
    DistinctAggregateExact(I, q, FanOutSelect(q), cols, shards, 0);
  }
}
