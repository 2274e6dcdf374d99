/** Queries without aggregates: the shards run them unsorted and unlimited, and the merge re-runs them. */
module OrderOnly {
  import opened Wrappers
  import opened Sequences
  import opened Ast
  import opened Aggregates
  import opened Walkers
  import opened FanOut
  import opened Query
  import opened Locality
  import opened Merge
  import opened Rewrite

  // ----- what the shards send ---------------------------------------------------------------

  /** A DISTINCT shard query sends the images of its passing rows, each at least once. */
  lemma ShardAnswerDistinct(I: Meaning, fanOut: Select, cols: seq<string>, shard: seq<Row>)
    requires var e := Expand(fanOut, cols); Ready(e, cols) && e.distinct
    ensures Run(I, fanOut, Table(cols, shard)).Success?
    ensures Dedup(RowObjects(AnswerNames(fanOut, cols), Run(I, fanOut, Table(cols, shard)).value))
         == Dedup(ShardImages(I, Expand(fanOut, cols), shard))
  {
    hide IsScatterGather;
    var e := Expand(fanOut, cols);
    var p := Passing(I, OptionExprs(e.where), shard);
    var names := OutputNames(e.columns);
    var items := RowItems(I, e, p);
    var asRow := (item: Item) => if |item.out| == |names| then RowObject(names, item.out) else map[];
    DedupMap(asRow, items);
    assert Map(asRow, items) == Images(I, e, p);
    FinishPlain(I, e.(distinct := false), Dedup(items));
    assert RowObjects(names, Execute(I, e, shard)) == Map(asRow, Dedup(items));
  }

  lemma {:induction false} ShardRowsDistinct(I: Meaning, fanOut: Select, cols: seq<string>, shards: seq<seq<Row>>)
    requires var e := Expand(fanOut, cols); Ready(e, cols) && e.distinct
    ensures var e := Expand(fanOut, cols); var loaded := ShardRows(I, fanOut, cols, AnswerNames(fanOut, cols), shards);
      loaded.Success? && Dedup(Flatten(loaded.value)) == Dedup(ShardImages(I, e, Flatten(shards)))
  {
    hide IsScatterGather, Run, Images, Dedup;
    if shards == [] {
      assert Images(I, Expand(fanOut, cols), []) == [];
    } else {
      var e := Expand(fanOut, cols);
      var names := AnswerNames(fanOut, cols);
      ShardAnswerDistinct(I, fanOut, cols, shards[0]);
      ShardRowsDistinct(I, fanOut, cols, shards[1..]);
      var first := RowObjects(names, Run(I, fanOut, Table(cols, shards[0])).value);
      var rest := ShardRows(I, fanOut, cols, names, shards[1..]).value;
      assert ShardRows(I, fanOut, cols, names, shards).value == [first] + rest;
      assert ([first] + rest)[1..] == rest;
      var a, b := ShardImages(I, e, shards[0]), ShardImages(I, e, Flatten(shards[1..]));
      PassingAppend(I, OptionExprs(e.where), shards[0], Flatten(shards[1..]));
      ImagesAppend(I, e, Passing(I, OptionExprs(e.where), shards[0]),
                   Passing(I, OptionExprs(e.where), Flatten(shards[1..])));
      DedupAppendDedup(first, Flatten(rest));
      DedupAppendDedup(a, Flatten(rest));
      DedupAppendDedupRight(a, Flatten(rest));
      DedupAppendDedupRight(a, b);
    }
  }

  /** All rows of a table whose distinct rows pass a condition pass it. */
  lemma PassingSameSet(I: Meaning, conditions: seq<Expr>, s: seq<Row>, t: seq<Row>)
    requires Dedup(s) == Dedup(t) && Passing(I, conditions, t) == t
    ensures Passing(I, conditions, s) == s
  {
    PassingHolds(I, conditions, t);
    DedupElements(s);
    DedupElements(t);
    forall i | 0 <= i < |s| ensures Holds(I, conditions, s[i]) {
      assert s[i] in t;
    }
    PassingAll(I, conditions, s);
  }

  // ----- the theorem ------------------------------------------------------------------------

  /** A lone `*` or a list without `*`. */
  ghost predicate StarAlone(q: Select) {
    q.columns == [Column(Ref(STAR), None)] || NoStar(q.columns)
  }

  /** Neither grouped nor computing aggregates. */
  ghost predicate RowQuery(q: Select, cols: seq<string>) {
    !IsGrouped(Expand(q, cols)) && StarAlone(q)
  }

  lemma {:induction false} StarNames(cols: seq<string>)
    ensures ExpandColumns([Column(Ref(STAR), None)], cols)
      == seq(|cols|, i requires 0 <= i < |cols| => RefColumn(cols[i]))
    ensures OutputNames(ExpandColumns([Column(Ref(STAR), None)], cols)) == cols
  {
    assert [Column(Ref(STAR), None)][1..] == [];
  }

  /** `*` means the same columns on the temporary table as on the shards. */
  lemma ExpansionsAgree(q: Select, fanOut: Select, cols: seq<string>)
    requires Splits(q, fanOut, false) && StarAlone(q)
    ensures Expand(q, AnswerNames(fanOut, cols)) == Expand(q, cols)
    ensures var e := Expand(q, cols); Expand(fanOut, cols) == e.(orderBy := [], limit := None)
    ensures AnswerNames(fanOut, cols) == OutputNames(Expand(q, cols).columns)
  {
    hide SupportError, RequiresValidation, HasAggregates;
    if NoStar(q.columns) {
      ExpandWithoutStar(q.columns, cols);
      ExpandWithoutStar(q.columns, AnswerNames(fanOut, cols));
    } else {
      StarNames(cols);
    }
  }

  lemma RowShardsReady(q: Select, fanOut: Select, cols: seq<string>)
    requires Splits(q, fanOut, false) && RowQuery(q, cols) && Valid(Expand(q, cols))
    requires forall n :: n in QueryRefs(Expand(q, cols)) ==> n in cols
    ensures Ready(Expand(fanOut, cols), cols)
  {
    hide IsScatterGather;
    ExpansionsAgree(q, fanOut, cols);
    var e, f := Expand(q, cols), Expand(fanOut, cols);
    assert OrderTerms(f) == [];
    assert QueryRefs(f) <= QueryRefs(e);
  }

  /** DISTINCT lines depend only on which rows there are first, not on repetitions. */
  lemma FinishDistinct(I: Meaning, e: Select, s: seq<Row>, t: seq<Row>)
    requires !IsGrouped(e) && e.distinct && Dedup(s) == Dedup(t)
    ensures Finish(I, e, Lines(I, e, s)) == Finish(I, e, Lines(I, e, t))
  {
    hide Dedup, IsGrouped;
    var line := (row: Row) => RowItem(I, e, row);
    DedupMap(line, s);
    DedupMap(line, t);
    assert Map(line, s) == RowItems(I, e, s) && Map(line, t) == RowItems(I, e, t);
  }

  /** Running the query on what was loaded gives what running it on all the rows gives. */
  lemma LoadedRowsExecute(I: Meaning, e: Select, f: Select, loaded: seq<Row>, rows: seq<Row>)
    requires f == e.(orderBy := [], limit := None) && !IsGrouped(e)
    requires NoShadow(e.columns, QueryRefs(e)) && Distinct(OutputNames(e.columns)) && Covered(e.columns, QueryRefs(e))
    requires if e.distinct then Dedup(loaded) == Dedup(ShardImages(I, f, rows)) else loaded == ShardImages(I, f, rows)
    ensures Execute(I, e, loaded) == Execute(I, e, rows)
  {
    hide IsScatterGather, IsGrouped, Lines, Finish, Images, NoShadow, Dedup, Distinct, Covered, OutputNames;
    StarNotInQuery(e);
    RerunLines(I, e, f, rows);
    if e.distinct {
      PassingSameSet(I, OptionExprs(e.where), loaded, ShardImages(I, f, rows));
      FinishDistinct(I, e, loaded, ShardImages(I, f, rows));
    }
  }

  lemma CoveredRowsAgree(I: Meaning, q: Select, fanOut: Select, cols: seq<string>, shards: seq<seq<Row>>)
    requires Splits(q, fanOut, false) && RowQuery(q, cols) && shards != []
    requires Direct(I, q, cols, shards).Success?
    requires var e := Expand(q, cols);
      NoShadow(e.columns, QueryRefs(e)) && Distinct(OutputNames(e.columns)) && Covered(e.columns, QueryRefs(e))
    ensures ScatterGather(I, q, cols, shards) == Success(Direct(I, q, cols, shards).value)
  {
    hide IsScatterGather, SplitOf, Valid, IsGrouped, Execute, ShardImages, ShardRows, NoShadow, Dedup, QueryRefs;
    var e, f := Expand(q, cols), Expand(fanOut, cols);
    ExpansionsAgree(q, fanOut, cols);
    RowShardsReady(q, fanOut, cols);
    var loaded := ShardRows(I, fanOut, cols, AnswerNames(fanOut, cols), shards);
    if e.distinct {
      ShardRowsDistinct(I, fanOut, cols, shards);
    } else {
      ShardRowsPlain(I, fanOut, cols, shards);
    }
    LoadedRowsExecute(I, e, f, Flatten(loaded.value), Flatten(shards));
  }

  /** If the direct query fails, so does the merged one. */
  lemma FailingRowsFail(I: Meaning, q: Select, fanOut: Select, cols: seq<string>, shards: seq<seq<Row>>)
    requires Splits(q, fanOut, false) && StarAlone(q) && shards != []
    requires NoShadow(Expand(q, cols).columns, QueryRefs(Expand(q, cols)))
    requires Direct(I, q, cols, shards).Failure?
    ensures ScatterGather(I, q, cols, shards).Failure?
  {
    hide IsScatterGather, SplitOf, Valid, IsGrouped, Execute, OutputNames;
    var e, f := Expand(q, cols), Expand(fanOut, cols);
    var names := OutputNames(e.columns);
    ExpansionsAgree(q, fanOut, cols);
    if Valid(e) {
      var n :| n in QueryRefs(e) && n !in cols;
      if n in names {
        var i :| 0 <= i < |names| && names[i] == n;
        RefsInMember(ColumnExprs(f.columns), i);
        assert n in QueryRefs(f) by { StarNotInQuery(e); }
        assert Run(I, fanOut, Table(cols, shards[0])).Failure?;
      }
    }
  }

  /** A merged answer means that the temporary table could be made and carries what the query reads. */
  lemma MergedNeeds(I: Meaning, q: Select, fanOut: Select, cols: seq<string>, shards: seq<seq<Row>>)
    requires Splits(q, fanOut, false) && StarAlone(q) && shards != [] && ScatterGather(I, q, cols, shards).Success?
    ensures var e := Expand(q, cols); Distinct(OutputNames(e.columns)) && Covered(e.columns, QueryRefs(e))
  {
    hide IsScatterGather, SplitOf, Valid, Execute, ShardRows, QueryRefs;
    ExpansionsAgree(q, fanOut, cols);
  }

  /**
   The ORDER BY rewrite preserves meaning, with or without DISTINCT, exactly when the query is
   invalid anyway or the distinct output names cover every column that WHERE, ORDER BY and the
   SELECT list read.
   */
  lemma OrderRewriteExact(I: Meaning, q: Select, fanOut: Select, cols: seq<string>, shards: seq<seq<Row>>)
    requires Splits(q, fanOut, false) && RowQuery(q, cols) && shards != []
    requires NoShadow(Expand(q, cols).columns, QueryRefs(Expand(q, cols)))
    ensures var e := Expand(q, cols);
      SameAnswer(ScatterGather(I, q, cols, shards), Direct(I, q, cols, shards))
      <==> Direct(I, q, cols, shards).Failure?
           || (Distinct(OutputNames(e.columns)) && Covered(e.columns, QueryRefs(e)))
  {
    hide IsScatterGather, SplitOf, IsGrouped, Valid, Execute, ShardRows, NoShadow;
    var e := Expand(q, cols);
    if Direct(I, q, cols, shards).Failure? {
      FailingRowsFail(I, q, fanOut, cols, shards);
    } else if Distinct(OutputNames(e.columns)) && Covered(e.columns, QueryRefs(e)) {
      CoveredRowsAgree(I, q, fanOut, cols, shards);
    } else if ScatterGather(I, q, cols, shards).Success? {
      MergedNeeds(I, q, fanOut, cols, shards);
    }
  }

  /** `SELECT * ... ORDER BY` is always merged correctly. */
  lemma StarAlwaysAgrees(I: Meaning, q: Select, fanOut: Select, cols: seq<string>, shards: seq<seq<Row>>)
    requires Splits(q, fanOut, false) && RowQuery(q, cols) && shards != []
    requires q.columns == [Column(Ref(STAR), None)] && Distinct(cols)
    ensures SameAnswer(ScatterGather(I, q, cols, shards), Direct(I, q, cols, shards))
  {
    hide IsScatterGather, SplitOf, IsGrouped, Valid, Execute, ShardRows, ScatterGather;
    StarNames(cols);
    OrderRewriteExact(I, q, fanOut, cols, shards);
  }
}
