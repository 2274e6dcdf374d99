/** Grouped queries that compute no aggregate: the shards group, and the merge groups their answers again. */
module Grouping {
  import opened Wrappers
  import opened Sequences
  import opened Ast
  import opened Aggregates
  import opened Walkers
  import opened FanOut
  import opened Query
  import opened Locality
  import opened Merge
  import opened Rewrite
  import opened OrderOnly

  /** Grouped, with nothing but row-level expressions in the SELECT list and HAVING. */
  ghost predicate KeyQuery(q: Select) {
    && q.groupBy != []
    && NoStar(q.columns)
    && AllScalar(ColumnExprs(q.columns)) && AllScalar(OptionExprs(q.having))
  }

  // ----- such a query reads the keys only ---------------------------------------------------

  /** The key of the group that a row belongs to. */
  function KeyOf(I: Meaning, q: Select, row: Row): (key: seq<Value>)
    ensures |key| == |q.groupBy|
  {
    EvalAll(I, q.groupBy, row)
  }

  lemma {:induction false} KeyAt(I: Meaning, es: seq<Expr>, e: Expr, row: Row)
    requires e in es
    ensures EvalAll(I, es, row)[IndexOf(es, e)] == Eval(I, e, row)
  {
    EvalAllAt(I, es, row, IndexOf(es, e));
  }

  /** A row-level expression of a group has the value that it has on any row of the group. */
  lemma {:induction false} EvalByKey(I: Meaning, e: Expr, groupBy: seq<Expr>, row: Row, rows: seq<Row>)
    requires Grouped(e, groupBy) && Scalar(e)
    ensures EvalGroup(I, e, groupBy, EvalAll(I, groupBy, row), rows) == Eval(I, e, row)
    decreases e, 0
  {
    hide IsScatterGather;
    if e in groupBy {
      KeyAt(I, groupBy, e, row);
    } else {
      match e
      case Binary(_, l, r) =>
        EvalByKey(I, l, groupBy, row, rows);
        EvalByKey(I, r, groupBy, row, rows);
      case Unary(_, a) => EvalByKey(I, a, groupBy, row, rows);
      case Call(_, args, _, _, _, _, _, _) => EvalAllByKey(I, args, groupBy, row, rows);
      case Other(_, _, es) => EvalAllByKey(I, es, groupBy, row, rows);
      case _ =>
    }
  }

  lemma {:induction false} EvalAllByKey(I: Meaning, es: seq<Expr>, groupBy: seq<Expr>, row: Row, rows: seq<Row>)
    requires AllGrouped(es, groupBy) && AllScalar(es)
    ensures EvalGroupAll(I, es, groupBy, EvalAll(I, groupBy, row), rows) == EvalAll(I, es, row)
    decreases es, 0
  {
    hide IsScatterGather;
    if es == [] {
    } else {
      EvalByKey(I, es[0], groupBy, row, rows);
      EvalAllByKey(I, es[1..], groupBy, row, rows);
    }
  }

  lemma {:induction false} GroupFree(I: Meaning, e: Expr, groupBy: seq<Expr>, key: seq<Value>, s: seq<Row>, t: seq<Row>)
    requires Scalar(e) && |key| == |groupBy|
    ensures EvalGroup(I, e, groupBy, key, s) == EvalGroup(I, e, groupBy, key, t)
    decreases e, 0
  {
    hide IsScatterGather;
    if e in groupBy {
    } else {
      match e
      case Binary(_, l, r) =>
        GroupFree(I, l, groupBy, key, s, t);
        GroupFree(I, r, groupBy, key, s, t);
      case Unary(_, a) => GroupFree(I, a, groupBy, key, s, t);
      case Call(_, args, _, _, _, _, _, _) => AllGroupFree(I, args, groupBy, key, s, t);
      case Other(_, _, es) => AllGroupFree(I, es, groupBy, key, s, t);
      case _ =>
    }
  }

  lemma {:induction false} AllGroupFree(I: Meaning, es: seq<Expr>, groupBy: seq<Expr>, key: seq<Value>, s: seq<Row>,
                                        t: seq<Row>)
    requires AllScalar(es) && |key| == |groupBy|
    ensures EvalGroupAll(I, es, groupBy, key, s) == EvalGroupAll(I, es, groupBy, key, t)
    decreases es, 0
  {
    hide IsScatterGather;
    if es == [] {
    } else {
      GroupFree(I, es[0], groupBy, key, s, t);
      AllGroupFree(I, es[1..], groupBy, key, s, t);
    }
  }

  // ----- lines from keys --------------------------------------------------------------------

  predicate Sized(q: Select, keys: seq<seq<Value>>) {
    forall i :: 0 <= i < |keys| ==> |keys[i]| == |q.groupBy|
  }

  predicate HeldKey(I: Meaning, q: Select, key: seq<Value>) {
    |key| == |q.groupBy| && GroupHolds(I, q, key, [])
  }

  /** The keys of the groups that pass HAVING. */
  function Held(I: Meaning, q: Select, keys: seq<seq<Value>>): seq<seq<Value>> {
    if keys == [] then [] else (if HeldKey(I, q, keys[0]) then [keys[0]] else []) + Held(I, q, keys[1..])
  }

  function KeyLine(I: Meaning, q: Select, key: seq<Value>): Item {
    if |key| == |q.groupBy| then GroupItem(I, q, key, []) else Item([], [])
  }

  /** The values that a group is ordered by do not depend on its rows. */
  predicate OrderFixed(I: Meaning, q: Select, key: seq<Value>, group: seq<Row>)
    requires |key| == |q.groupBy|
  {
    EvalGroupAll(I, OrderTerms(q), q.groupBy, key, group) == EvalGroupAll(I, OrderTerms(q), q.groupBy, key, [])
  }

  ghost predicate OrderByKey(I: Meaning, q: Select) {
    forall key: seq<Value>, group: seq<Row> :: |key| == |q.groupBy| ==> OrderFixed(I, q, key, group)
  }

  lemma ScalarOrderByKey(I: Meaning, q: Select)
    requires AllScalar(OrderTerms(q))
    ensures OrderByKey(I, q)
  {
    hide IsScatterGather, OrderTerms, AllScalar;
    forall key: seq<Value>, group: seq<Row> | |key| == |q.groupBy| ensures OrderFixed(I, q, key, group) {
      AllGroupFree(I, OrderTerms(q), q.groupBy, key, group, []);
    }
  }

  lemma ItemByKey(I: Meaning, q: Select, key: seq<Value>, group: seq<Row>)
    requires KeyQuery(q) && OrderByKey(I, q) && |key| == |q.groupBy|
    ensures GroupItem(I, q, key, group) == GroupItem(I, q, key, [])
    ensures GroupHolds(I, q, key, group) == GroupHolds(I, q, key, [])
  {
    hide IsScatterGather, EvalGroupAll, EvalGroup;
    assert OrderFixed(I, q, key, group);
    AllGroupFree(I, ColumnExprs(q.columns), q.groupBy, key, group, []);
    if q.having.Some? {
      assert Scalar(OptionExprs(q.having)[0]);
      GroupFree(I, q.having.value, q.groupBy, key, group, []);
    }
  }

  lemma FirstItemByKey(I: Meaning, q: Select, keys: seq<seq<Value>>, rows: seq<Row>)
    requires KeyQuery(q) && OrderByKey(I, q) && keys != []
    ensures GroupItems(I, q, keys, rows)
         == (if HeldKey(I, q, keys[0]) then [KeyLine(I, q, keys[0])] else []) + GroupItems(I, q, keys[1..], rows)
  {
    hide IsScatterGather, GroupItem, GroupHolds, KeyQuery, OrderByKey, Members;
    if |keys[0]| == |q.groupBy| {
      ItemByKey(I, q, keys[0], Members(I, q.groupBy, keys[0], rows));
    }
  }

  lemma {:induction false} ItemsByKey(I: Meaning, q: Select, keys: seq<seq<Value>>, rows: seq<Row>)
    requires KeyQuery(q) && OrderByKey(I, q)
    ensures GroupItems(I, q, keys, rows) == Map((k: seq<Value>) => KeyLine(I, q, k), Held(I, q, keys))
  {
    hide GroupItems, KeyQuery, OrderByKey, KeyLine, HeldKey;
    var line := (k: seq<Value>) => KeyLine(I, q, k);
    if keys == [] {
      assert GroupItems(I, q, [], rows) == [] by { NoItems(I, q, rows); }
    } else {
      FirstItemByKey(I, q, keys, rows);
      ItemsByKey(I, q, keys[1..], rows);
      var first := if HeldKey(I, q, keys[0]) then [keys[0]] else [];
      assert Held(I, q, keys) == first + Held(I, q, keys[1..]);
      MapAppend(line, first, Held(I, q, keys[1..]));
      assert Map(line, first) == if HeldKey(I, q, keys[0]) then [line(keys[0])] else [];
    }
  }

  lemma NoItems(I: Meaning, q: Select, rows: seq<Row>)
    ensures GroupItems(I, q, [], rows) == []
  {
  }

  lemma MapAppend<T, U>(f: T -> U, s: seq<T>, t: seq<T>)
    ensures Map(f, s + t) == Map(f, s) + Map(f, t)
  {
  }

  lemma {:induction false} HeldAppend(I: Meaning, q: Select, s: seq<seq<Value>>, t: seq<seq<Value>>)
    ensures Held(I, q, s + t) == Held(I, q, s) + Held(I, q, t)
  {
    hide HeldKey;
    if s == [] {
      assert s + t == t;
    } else {
      assert (s + t)[1..] == s[1..] + t;
      HeldAppend(I, q, s[1..], t);
    }
  }

  lemma {:induction false} HeldMember(I: Meaning, q: Select, s: seq<seq<Value>>, k: seq<Value>)
    ensures k in Held(I, q, s) <==> k in s && HeldKey(I, q, k)
  {
    if s == [] {
    } else {
      HeldMember(I, q, s[1..], k);
      assert s == [s[0]] + s[1..];
    }
  }

  lemma {:induction false} HeldAll(I: Meaning, q: Select, s: seq<seq<Value>>)
    requires forall k <- s :: HeldKey(I, q, k)
    ensures Held(I, q, s) == s
  {
    if s == [] {
    } else {
      assert s[0] in s && forall k <- s[1..] :: k in s;
      HeldAll(I, q, s[1..]);
      assert s == [s[0]] + s[1..];
    }
  }

  /** HAVING can be applied before or after repetitions are removed. */
  lemma {:induction false} HeldDedup(I: Meaning, q: Select, s: seq<seq<Value>>)
    ensures Held(I, q, Dedup(s)) == Dedup(Held(I, q, s))
  {
    hide HeldKey;
    if s == [] {
    } else {
      var n := |s| - 1;
      var s0, x := s[..n], s[n];
      HeldDedup(I, q, s0);
      assert s == s0 + [x];
      HeldAppend(I, q, s0, [x]);
      HeldAppend(I, q, Dedup(s0), [x]);
      DedupElements(s0);
      HeldMember(I, q, s0, x);
      if HeldKey(I, q, x) {
        assert Held(I, q, [x]) == [x] by { assert [x][1..] == []; }
        DedupSnoc(Held(I, q, s0), x);
      } else {
        assert Held(I, q, [x]) == [] by { assert [x][1..] == []; }
        assert Held(I, q, s0) + [] == Held(I, q, s0) && Held(I, q, Dedup(s0)) + [] == Held(I, q, Dedup(s0));
      }
    }
  }

  // ----- what the shards send ---------------------------------------------------------------

  /** The temporary-table row of a group. */
  function KeyImage(I: Meaning, q: Select, key: seq<Value>): Row {
    if |KeyLine(I, q, key).out| == |q.columns| then RowObject(OutputNames(q.columns), KeyLine(I, q, key).out) else map[]
  }

  /** The temporary table carries what the query reads, under its own names. */
  ghost predicate Faithful(q: Select) {
    Distinct(OutputNames(q.columns)) && Covered(q.columns, QueryRefs(q)) && NoShadow(q.columns, QueryRefs(q))
  }

  /** The row of a group is the image of any of its rows. */
  lemma KeyImageIsImage(I: Meaning, q: Select, row: Row)
    requires KeyQuery(q) && Valid(q)
    ensures KeyImage(I, q, KeyOf(I, q, row)) == Image(I, q, row)
  {
    hide IsScatterGather, OrderTerms, RowObject;
    EvalAllByKey(I, ColumnExprs(q.columns), q.groupBy, row, []);
  }

  /** ... so on the temporary table it belongs to the same group and passes the same conditions. */
  lemma KeyImageReads(I: Meaning, q: Select, row: Row)
    requires KeyQuery(q) && Valid(q) && Faithful(q)
    ensures var image := KeyImage(I, q, KeyOf(I, q, row));
      KeyOf(I, q, image) == KeyOf(I, q, row)
      && (Holds(I, OptionExprs(q.where), row) ==> Holds(I, OptionExprs(q.where), image))
  {
    hide IsScatterGather, Valid, KeyQuery, Image, KeyImage, Covered, NoShadow, Distinct, RefsIn;
    StarNotInQuery(q);
    KeyImageIsImage(I, q, row);
    ImageSame(I, q, QueryRefs(q), row);
    var image := Image(I, q, row);
    assert SameOn(RefsIn(q.groupBy), row, image) && SameOn(RefsIn(OptionExprs(q.where)), row, image);
    EvalAllLocal(I, q.groupBy, row, image);
    HoldsLocal(I, OptionExprs(q.where), row, image);
  }

  /** The keys of the groups of one shard that pass HAVING. */
  function ShardKeys(I: Meaning, q: Select, rows: seq<Row>): seq<seq<Value>> {
    Held(I, q, Dedup(Keys(I, q.groupBy, Passing(I, OptionExprs(q.where), rows))))
  }

  /** Every such key is the key of a row that passes the WHERE clause. */
  ghost predicate KeysOfRows(I: Meaning, q: Select, keys: seq<seq<Value>>) {
    forall k <- keys :: exists row :: k == KeyOf(I, q, row) && Holds(I, OptionExprs(q.where), row)
  }

  lemma ShardKeysOfRows(I: Meaning, q: Select, rows: seq<Row>)
    ensures KeysOfRows(I, q, ShardKeys(I, q, rows))
    ensures forall k <- ShardKeys(I, q, rows) :: HeldKey(I, q, k)
  {
    hide HeldKey;
    var passing := Passing(I, OptionExprs(q.where), rows);
    PassingHolds(I, OptionExprs(q.where), rows);
    var keys := Keys(I, q.groupBy, passing);
    DedupElements(keys);
    forall k | k in ShardKeys(I, q, rows)
      ensures HeldKey(I, q, k) && exists row :: k == KeyOf(I, q, row) && Holds(I, OptionExprs(q.where), row)
    {
      HeldMember(I, q, Dedup(keys), k);
      var i :| 0 <= i < |keys| && keys[i] == k;
      assert k == KeyOf(I, q, passing[i]);
    }
  }

  /** A key is read back from its row. */
  lemma KeyReadsBack(I: Meaning, q: Select, keys: seq<seq<Value>>, k: seq<Value>)
    requires KeyQuery(q) && Valid(q) && Faithful(q) && KeysOfRows(I, q, keys) && k in keys
    ensures KeyOf(I, q, KeyImage(I, q, k)) == k && Holds(I, OptionExprs(q.where), KeyImage(I, q, k))
  {
    hide KeyQuery, Valid, Faithful, KeyImage, Holds, KeyOf;
    var row :| k == KeyOf(I, q, row) && Holds(I, OptionExprs(q.where), row);
    KeyImageReads(I, q, row);
  }

  /** The lines of distinct keys are distinct, so DISTINCT drops none of them. */
  lemma LinesDistinct(I: Meaning, q: Select, keys: seq<seq<Value>>)
    requires KeyQuery(q) && Valid(q) && Faithful(q) && KeysOfRows(I, q, keys) && Distinct(keys)
    ensures Distinct(Map((k: seq<Value>) => KeyLine(I, q, k), keys))
  {
    hide KeyQuery, Valid, Faithful, KeyLine, KeysOfRows;
    var lines := Map((k: seq<Value>) => KeyLine(I, q, k), keys);
    forall i, j | 0 <= i < j < |lines| ensures lines[i] != lines[j] {
      KeyReadsBack(I, q, keys, keys[i]);
      KeyReadsBack(I, q, keys, keys[j]);
      assert keys[i] != keys[j];
    }
  }

  lemma {:induction false} HeldDistinct(I: Meaning, q: Select, s: seq<seq<Value>>)
    requires Distinct(s)
    ensures Distinct(Held(I, q, s))
  {
    HeldDedup(I, q, s);
    DedupOfDistinct(s);
    DedupElements(Held(I, q, s));
  }

  lemma {:induction false} HeldSame(I: Meaning, q: Select, f: Select, s: seq<seq<Value>>)
    requires f.groupBy == q.groupBy && f.having == q.having
    ensures Held(I, f, s) == Held(I, q, s)
  {
    if s == [] {
    } else {
      HeldSame(I, q, f, s[1..]);
    }
  }

  /** A shard's keys are distinct. */
  lemma ShardKeysDistinct(I: Meaning, q: Select, rows: seq<Row>)
    ensures Distinct(ShardKeys(I, q, rows))
  {
    var keys := Keys(I, q.groupBy, Passing(I, OptionExprs(q.where), rows));
    DedupElements(keys);
    HeldDistinct(I, q, Dedup(keys));
  }

  /** The lines of a grouped query are those of the keys that pass HAVING. */
  lemma LinesByKey(I: Meaning, q: Select, rows: seq<Row>)
    requires KeyQuery(q) && OrderByKey(I, q)
    ensures Lines(I, q, rows) == Map((k: seq<Value>) => KeyLine(I, q, k), Held(I, q, Dedup(Keys(I, q.groupBy, rows))))
  {
    hide IsScatterGather, GroupItems, KeyLine, Held;
    ItemsByKey(I, q, GroupKeys(I, q.groupBy, rows), rows);
  }

  /** The query that the shards run. */
  function Unordered(q: Select): Select {
    q.(orderBy := [], limit := None)
  }

  lemma UnorderedReady(q: Select)
    requires KeyQuery(q) && Valid(q)
    ensures Valid(Unordered(q)) && QueryRefs(Unordered(q)) <= QueryRefs(q)
    ensures Faithful(q) ==> Faithful(Unordered(q))
  {
    hide IsScatterGather, Distinct;
    assert OrderTerms(Unordered(q)) == [];
  }

  lemma KeyQueryUnordered(q: Select)
    requires KeyQuery(q)
    ensures KeyQuery(Unordered(q)) && forall I :: OrderByKey(I, Unordered(q))
  {
    hide IsScatterGather;
    assert OrderTerms(Unordered(q)) == [];
    forall I ensures OrderByKey(I, Unordered(q)) {
      ScalarOrderByKey(I, Unordered(q));
    }
  }

  /** A shard sends one row for each of its keys. */
  lemma UnorderedAnswer(I: Meaning, f: Select, rows: seq<Row>)
    requires KeyQuery(f) && OrderByKey(I, f) && Valid(f) && Faithful(f) && f.orderBy == [] && f.limit == None
    ensures RowObjects(OutputNames(f.columns), Execute(I, f, rows))
         == Map((k: seq<Value>) => KeyImage(I, f, k), ShardKeys(I, f, rows))
  {
    hide KeyQuery, OrderByKey, Valid, Faithful, Lines, KeyLine, ShardKeys, OutputNames;
    var p := Passing(I, OptionExprs(f.where), rows);
    var keys := ShardKeys(I, f, rows);
    var lines := Map((k: seq<Value>) => KeyLine(I, f, k), keys);
    LinesOfShard(I, f, rows);
    ShardKeysOfRows(I, f, rows);
    ShardKeysDistinct(I, f, rows);
    LinesDistinct(I, f, keys);
    DedupOfDistinct(lines);
    FinishPlain(I, f, lines);
    FinishPlain(I, f.(distinct := false), lines);
    assert forall i :: 0 <= i < |lines| ==> lines[i] == KeyLine(I, f, keys[i]);
  }

  lemma LinesOfShard(I: Meaning, f: Select, rows: seq<Row>)
    requires KeyQuery(f) && OrderByKey(I, f)
    ensures Lines(I, f, Passing(I, OptionExprs(f.where), rows))
         == Map((k: seq<Value>) => KeyLine(I, f, k), ShardKeys(I, f, rows))
  {
    hide KeyQuery, OrderByKey, Lines, KeyLine, Held;
    LinesByKey(I, f, Passing(I, OptionExprs(f.where), rows));
  }

  lemma SameKeyImages(I: Meaning, q: Select, rows: seq<Row>)
    ensures Map((k: seq<Value>) => KeyImage(I, Unordered(q), k), ShardKeys(I, Unordered(q), rows))
         == Map((k: seq<Value>) => KeyImage(I, q, k), ShardKeys(I, q, rows))
  {
    hide IsScatterGather, RowObject, Held;
    HeldSame(I, q, Unordered(q), Dedup(Keys(I, q.groupBy, Passing(I, OptionExprs(q.where), rows))));
  }

  // ----- what is loaded ---------------------------------------------------------------------

  /** The keys that the shards send, in the order they are loaded. */
  function AllShardKeys(I: Meaning, q: Select, shards: seq<seq<Row>>): seq<seq<Value>> {
    if shards == [] then [] else ShardKeys(I, q, shards[0]) + AllShardKeys(I, q, shards[1..])
  }

  /** Grouping shard by shard and then once more gives the groups of all the rows. */
  lemma {:induction false} KeysOfAllShards(I: Meaning, q: Select, shards: seq<seq<Row>>)
    ensures Dedup(AllShardKeys(I, q, shards)) == ShardKeys(I, q, Flatten(shards))
  {
    hide HeldKey, Held, Dedup, Passing;
    if shards == [] {
      assert Passing(I, OptionExprs(q.where), []) == [] by { PassingAll(I, OptionExprs(q.where), []); }
      assert Keys(I, q.groupBy, []) == [];
      DedupOfDistinct<seq<Value>>([]);
      HeldAll(I, q, []);
    } else {
      var a, b := ShardKeys(I, q, shards[0]), AllShardKeys(I, q, shards[1..]);
      KeysOfAllShards(I, q, shards[1..]);
      DedupAppendDedupRight(a, b);
      ShardKeysAppend(I, q, shards[0], Flatten(shards[1..]));
    }
  }

  lemma KeysAppend(I: Meaning, groupBy: seq<Expr>, s: seq<Row>, t: seq<Row>)
    ensures Keys(I, groupBy, s + t) == Keys(I, groupBy, s) + Keys(I, groupBy, t)
  {
  }

  lemma ShardKeysAppend(I: Meaning, q: Select, s: seq<Row>, t: seq<Row>)
    ensures Dedup(ShardKeys(I, q, s) + ShardKeys(I, q, t)) == ShardKeys(I, q, s + t)
  {
    hide HeldKey, Held, Dedup, Passing, Keys;
    var a := Keys(I, q.groupBy, Passing(I, OptionExprs(q.where), s));
    var b := Keys(I, q.groupBy, Passing(I, OptionExprs(q.where), t));
    PassingAppend(I, OptionExprs(q.where), s, t);
    KeysAppend(I, q.groupBy, Passing(I, OptionExprs(q.where), s), Passing(I, OptionExprs(q.where), t));
    HeldDedup(I, q, a);
    HeldDedup(I, q, b);
    HeldDedup(I, q, a + b);
    HeldAppend(I, q, a, b);
    DedupAppendDedup(Held(I, q, a), Held(I, q, b));
    DedupAppendDedup(Held(I, q, a), Dedup(Held(I, q, b)));
    DedupAppendDedupRight(Held(I, q, a), Held(I, q, b));
  }

  lemma {:induction false} AllShardKeysOfRows(I: Meaning, q: Select, shards: seq<seq<Row>>)
    ensures KeysOfRows(I, q, AllShardKeys(I, q, shards))
  {
    hide ShardKeys, KeyOf;
    if shards == [] {
    } else {
      ShardKeysOfRows(I, q, shards[0]);
      AllShardKeysOfRows(I, q, shards[1..]);
    }
  }

  lemma {:induction false} KeyRowsLoaded(I: Meaning, q: Select, cols: seq<string>, shards: seq<seq<Row>>)
    requires KeyQuery(q) && Valid(q) && Faithful(q) && forall n :: n in QueryRefs(q) ==> n in cols
    ensures var loaded := ShardRows(I, Unordered(q), cols, OutputNames(q.columns), shards);
      && loaded.Success?
      && Flatten(loaded.value) == Map((k: seq<Value>) => KeyImage(I, q, k), AllShardKeys(I, q, shards))
  {
    hide IsScatterGather, KeyQuery, Valid, Faithful, QueryRefs, Execute, KeyImage, ShardKeys, Run, RowObjects, NoStar;
    var names := OutputNames(q.columns);
    var image := (k: seq<Value>) => KeyImage(I, q, k);
    if shards == [] {
    } else {
      KeyRowsLoaded(I, q, cols, shards[1..]);
      ShardKeyRows(I, q, cols, shards[0]);
      var rest := ShardRows(I, Unordered(q), cols, names, shards[1..]).value;
      var first := RowObjects(names, Run(I, Unordered(q), Table(cols, shards[0])).value);
      assert ShardRows(I, Unordered(q), cols, names, shards).value == [first] + rest;
      assert ([first] + rest)[1..] == rest;
      MapAppend(image, ShardKeys(I, q, shards[0]), AllShardKeys(I, q, shards[1..]));
    }
  }

  lemma ShardKeyRows(I: Meaning, q: Select, cols: seq<string>, shard: seq<Row>)
    requires KeyQuery(q) && Valid(q) && Faithful(q) && forall n :: n in QueryRefs(q) ==> n in cols
    ensures var answer := Run(I, Unordered(q), Table(cols, shard));
      && answer.Success?
      && RowObjects(OutputNames(q.columns), answer.value)
         == Map((k: seq<Value>) => KeyImage(I, q, k), ShardKeys(I, q, shard))
  {
    hide IsScatterGather, Valid, Faithful, QueryRefs, Execute, KeyImage, ShardKeys, Run, RowObjects;
    hide OrderTerms, AllScalar;
    KeyQueryUnordered(q);
    UnorderedReady(q);
    ExpandWithoutStar(q.columns, cols);
    RunsPlain(I, Unordered(q), cols, shard);
    UnorderedAnswer(I, Unordered(q), shard);
    SameKeyImages(I, q, shard);
  }

  // ----- the re-run -------------------------------------------------------------------------

  /** On the loaded rows the whole query finds the groups of all the rows. */
  lemma KeyRowsExecute(I: Meaning, q: Select, keys: seq<seq<Value>>, rows: seq<Row>)
    requires KeyQuery(q) && OrderByKey(I, q) && Valid(q) && Faithful(q) && KeysOfRows(I, q, keys)
    requires Dedup(keys) == ShardKeys(I, q, rows)
    ensures Execute(I, q, Map((k: seq<Value>) => KeyImage(I, q, k), keys)) == Execute(I, q, rows)
  {
    hide IsScatterGather, KeyQuery, Valid, Faithful, KeyLine, KeyImage, Lines, Finish, Held, HeldKey, KeysOfRows, Dedup;
    hide Holds, OrderByKey;
    var loaded := Map((k: seq<Value>) => KeyImage(I, q, k), keys);
    forall i | 0 <= i < |loaded|
      ensures Holds(I, OptionExprs(q.where), loaded[i]) && KeyOf(I, q, loaded[i]) == keys[i]
    {
      KeyReadsBack(I, q, keys, keys[i]);
    }
    PassingAll(I, OptionExprs(q.where), loaded);
    assert Keys(I, q.groupBy, loaded) == keys;
    ShardKeysOfRows(I, q, rows);
    HeldAll(I, q, Dedup(keys));
    LinesByKey(I, q, loaded);
    LinesOfShard(I, q, rows);
  }

  lemma FaithfulKeysAgree(I: Meaning, q: Select, fanOut: Select, cols: seq<string>, shards: seq<seq<Row>>)
    requires Splits(q, fanOut, false) && KeyQuery(q) && OrderByKey(I, q) && Faithful(q) && shards != []
    requires Direct(I, q, cols, shards).Success?
    ensures ScatterGather(I, q, cols, shards) == Success(Direct(I, q, cols, shards).value)
  {
    hide IsScatterGather, SplitOf, Valid, QueryRefs, Execute, ShardRows, Run, ScatterGather, KeyImage, KeysOfRows;
    hide AllScalar, OrderTerms, OrderByKey, Distinct, Dedup, ShardKeys;
    ExpandWithoutStar(q.columns, cols);
    var names := OutputNames(q.columns);
    ExpandWithoutStar(q.columns, names);
    ExpansionsAgree(q, fanOut, cols);
    ShardsRunUnordered(q, fanOut);
    assert AnswerNames(fanOut, cols) == names;
    KeyDirectNeeds(I, q, cols, shards);
    KeyRowsLoaded(I, q, cols, shards);
    AllShardKeysOfRows(I, q, shards);
    KeysOfAllShards(I, q, shards);
    KeyRowsExecute(I, q, AllShardKeys(I, q, shards), Flatten(shards));
    GatherRuns(I, q, fanOut, false, cols, shards);
    RunsPlain(I, q, names, Flatten(ShardRows(I, fanOut, cols, names, shards).value));
  }

  lemma ShardsRunUnordered(q: Select, fanOut: Select)
    requires Splits(q, fanOut, false)
    ensures fanOut == Unordered(q)
  {
    hide SupportError, RequiresValidation, HasAggregates;
  }

  lemma KeyDirectNeeds(I: Meaning, q: Select, cols: seq<string>, shards: seq<seq<Row>>)
    requires NoStar(q.columns) && Direct(I, q, cols, shards).Success?
    ensures Valid(q) && forall n :: n in QueryRefs(q) ==> n in cols
    ensures Direct(I, q, cols, shards) == Success(Execute(I, q, Flatten(shards)))
  {
    hide Valid, Execute, QueryRefs;
    ExpandWithoutStar(q.columns, cols);
  }

  /**
   A grouped query without aggregates is merged correctly exactly when it fails anyway or the
   distinct output names cover every column that it reads: grouping the groups again is harmless,
   with or without HAVING, DISTINCT and LIMIT.
   */
  lemma KeyQueryExact(I: Meaning, q: Select, fanOut: Select, cols: seq<string>, shards: seq<seq<Row>>)
    requires Splits(q, fanOut, false) && KeyQuery(q) && AllScalar(OrderTerms(q)) && shards != []
    requires NoShadow(q.columns, QueryRefs(q))
    ensures SameAnswer(ScatterGather(I, q, cols, shards), Direct(I, q, cols, shards))
       <==> Direct(I, q, cols, shards).Failure?
            || (Distinct(OutputNames(q.columns)) && Covered(q.columns, QueryRefs(q)))
  {
    hide IsScatterGather, SplitOf, Valid, Execute, ShardRows, NoShadow, QueryRefs, AllScalar, OrderTerms, OrderByKey;
    ExpandWithoutStar(q.columns, cols);
    ScalarOrderByKey(I, q);
    if Direct(I, q, cols, shards).Failure? {
      FailingRowsFail(I, q, fanOut, cols, shards);
    } else if Distinct(OutputNames(q.columns)) && Covered(q.columns, QueryRefs(q)) {
      FaithfulKeysAgree(I, q, fanOut, cols, shards);
    } else if ScatterGather(I, q, cols, shards).Success? {
      MergedNeeds(I, q, fanOut, cols, shards);
    }
  }
}
