/** The queries for which the projection covers everything but WHERE and ORDER BY by construction. */
module Fragment {
  import opened Wrappers
  import opened Sequences
  import opened Ast
  import opened Aggregates
  import opened Walkers
  import opened FanOut
  import opened Query
  import opened Locality
  import opened Merge
  import opened Rewrite

  /** Only nodes that the walkers enter. */
  predicate Plain(e: Expr)
    decreases e, 0
  {
    match e
    case Binary(_, l, r) => Plain(l) && Plain(r)
    case Unary(_, a) => Plain(a)
    case Call(_, args, _, filter, orderBy, withinGroup, _, _) =>
      AllPlain(args) && AllPlain(filter) && AllPlain(orderBy) && AllPlain(withinGroup)
    case Other(_, _, _) => false
    case _ => true
  }

  predicate AllPlain(es: seq<Expr>)
    decreases es, 0
  {
    es == [] || (Plain(es[0]) && AllPlain(es[1..]))
  }

  /** On these nodes the walker misses no column. */
  lemma {:induction false} PlainCollectsAll(e: Expr)
    requires Plain(e)
    ensures forall n :: n in Refs(e) ==> n in CollectRefs(e)
    decreases e, 0
  {
    match e
    case Binary(_, l, r) => PlainCollectsAll(l); PlainCollectsAll(r);
    case Unary(_, a) => PlainCollectsAll(a);
    case Call(_, args, _, filter, orderBy, withinGroup, _, _) =>
      PlainListCollectsAll(args); PlainListCollectsAll(filter);
      PlainListCollectsAll(orderBy); PlainListCollectsAll(withinGroup);
    case _ =>
  }

  lemma {:induction false} PlainListCollectsAll(es: seq<Expr>)
    requires AllPlain(es)
    ensures forall n :: n in RefsIn(es) ==> n in CollectRefsAll(es)
    decreases es, 0
  {
    if es == [] {
    } else {
      PlainCollectsAll(es[0]);
      PlainListCollectsAll(es[1..]);
    }
  }

  lemma {:induction false} CollectRefsAllAppend(es: seq<Expr>, fs: seq<Expr>)
    ensures CollectRefsAll(es + fs) == CollectRefsAll(es) + CollectRefsAll(fs)
  {
    if es == [] {
      assert es + fs == fs;
    } else {
      assert (es + fs)[1..] == es[1..] + fs;
      CollectRefsAllAppend(es[1..], fs);
    }
  }

  /** A group-level expression reads grouping expressions and what its aggregates read. */
  lemma {:induction false} GroupedReads(e: Expr, groupBy: seq<Expr>)
    requires Grouped(e, groupBy) && Plain(e) && AllPlain(groupBy)
    ensures forall n :: n in Refs(e) ==> n in CollectRefsAll(groupBy) || n in CollectRefsAll(FindAggregates(e))
    decreases e, 0
  {
    hide IsScatterGather;
    if e in groupBy {
      PlainCollectsAll(e);
      var i :| 0 <= i < |groupBy| && groupBy[i] == e;
      CollectRefsAllMember(groupBy, i);
    } else {
      match e
      case Ref(_) =>
      case Const(_) =>
      case Binary(_, l, r) =>
        GroupedReads(l, groupBy); GroupedReads(r, groupBy);
        CollectRefsAllAppend(FindAggregates(l), FindAggregates(r));
      case Unary(_, a) => GroupedReads(a, groupBy);
      case Call(_, args, _, _, _, _, _, _) =>
        if IsScatterGather(e) {
          PlainCollectsAll(e);
          CollectRefsAllMember(FindAggregates(e), 0);
        } else {
          GroupedListReads(args, groupBy);
          assert FindAggregates(e) == FindAggregatesIn(args);
        }
      case Subquery =>
      case Other(_, _, _) =>
    }
  }

  lemma {:induction false} GroupedListReads(es: seq<Expr>, groupBy: seq<Expr>)
    requires AllGrouped(es, groupBy) && AllPlain(es) && AllPlain(groupBy)
    ensures forall n :: n in RefsIn(es) ==> n in CollectRefsAll(groupBy) || n in CollectRefsAll(FindAggregatesIn(es))
    decreases es, 0
  {
    hide IsScatterGather;
    if es == [] {
    } else {
      GroupedReads(es[0], groupBy);
      GroupedListReads(es[1..], groupBy);
      CollectRefsAllAppend(FindAggregates(es[0]), FindAggregatesIn(es[1..]));
    }
  }

  /** Queries that group by columns and select only grouping columns and expressions with aggregates. */
  ghost predicate ColumnGrouping(q: Select) {
    && (forall i :: 0 <= i < |q.groupBy| ==> q.groupBy[i].Ref? && q.groupBy[i] != Ref(STAR))
    && (forall i :: 0 <= i < |q.columns| ==> q.columns[i].expr in q.groupBy || FindAggregates(q.columns[i].expr) != [])
    && AllPlain(ColumnExprs(q.columns)) && AllPlain(OptionExprs(q.having))
  }

  /** Plain, pairwise different column references. */
  ghost predicate PlainRefs(columns: seq<Column>) {
    && (forall i :: 0 <= i < |columns| ==> columns[i].expr.Ref? && columns[i] == RefColumn(columns[i].expr.name))
    && (forall i, j :: 0 <= i < j < |columns| ==> columns[i] != columns[j])
  }

  lemma {:induction false} GroupRefsOnly(projection: seq<Column>, groupBy: seq<Expr>)
    requires PlainRefs(projection) && forall i :: 0 <= i < |groupBy| ==> groupBy[i].Ref?
    ensures PlainRefs(AddGroups(projection, groupBy))
    ensures forall e :: e in groupBy || Column(e, None) in projection ==>
      Column(e, None) in AddGroups(projection, groupBy)
    decreases groupBy
  {
    if groupBy == [] {
    } else {
      var next := AddColumn(projection, Column(groupBy[0], None));
      GroupRefsOnly(next, groupBy[1..]);
      assert forall e :: e in groupBy <==> e == groupBy[0] || e in groupBy[1..];
      if i :| 0 <= i < |projection| && projection[i].expr == groupBy[0] {
        assert projection[i] == Column(groupBy[0], None);
      }
    }
  }

  lemma {:induction false} SelectedRefsOnly(projection: seq<Column>, columns: seq<Column>)
    requires forall i :: 0 <= i < |columns| ==>
      Column(columns[i].expr, None) in projection || FindAggregates(columns[i].expr) != []
    ensures AddPlainColumns(projection, columns) == projection
    decreases columns
  {
    hide IsScatterGather, FindAggregates;
    if columns == [] {
    } else {
      if FindAggregates(columns[0].expr) == [] {
        var i :| 0 <= i < |projection| && projection[i] == Column(columns[0].expr, None);
        assert projection[i].expr == columns[0].expr;
      }
      SelectedRefsOnly(projection, columns[1..]);
    }
  }

  lemma {:induction false} MissingRefsOnly(columns: seq<Column>, needed: seq<string>)
    requires PlainRefs(columns)
    ensures PlainRefs(AddMissingRefs(columns, needed))
    ensures forall n :: n in needed || RefColumn(n) in columns ==> RefColumn(n) in AddMissingRefs(columns, needed)
    decreases needed
  {
    if needed == [] {
    } else {
      var n := needed[0];
      var next := if ProjectsRef(columns, n) then columns else columns + [RefColumn(n)];
      if ProjectsRef(columns, n) {
        var i :| 0 <= i < |columns| && columns[i].expr == Ref(n);
        assert columns[i] == RefColumn(n);
      } else {
        assert forall i :: 0 <= i < |columns| ==> columns[i] != RefColumn(n);
        assert next[|columns|] == RefColumn(n);
      }
      MissingRefsOnly(next, needed[1..]);
      assert forall m :: m in needed <==> m == n || m in needed[1..];
    }
  }

  /** The shard query lists each needed column once, under its own name. */
  lemma ColumnGroupingProjects(q: Select)
    requires ColumnGrouping(q)
    ensures RowLevelColumns(q) == [ROW_MARKER] || PlainRefs(RowLevelColumns(q))
    ensures forall n :: n in NeededRefs(q) ==> RefColumn(n) in RowLevelColumns(q)
  {
    hide IsScatterGather, FindAggregates, AddMissingRefs, AddGroups, AddPlainColumns, NeededRefs, AllPlain;
    GroupRefsOnly([], q.groupBy);
    SelectedRefsOnly(AddGroups([], q.groupBy), q.columns);
    MissingRefsOnly(Projection(q), Dedup(NeededRefs(q)));
    DedupElements(NeededRefs(q));
  }

  lemma {:induction false} SelectedReads(columns: seq<Column>, groupBy: seq<Expr>)
    requires AllGrouped(ColumnExprs(columns), groupBy) && AllPlain(ColumnExprs(columns)) && AllPlain(groupBy)
    ensures forall n :: n in RefsIn(ColumnExprs(columns)) ==> n in CollectRefsAll(groupBy) || n in ColumnsRefs(columns)
  {
    hide IsScatterGather;
    if columns == [] {
    } else {
      assert ColumnExprs(columns)[1..] == ColumnExprs(columns[1..]);
      GroupedReads(columns[0].expr, groupBy);
      SelectedReads(columns[1..], groupBy);
    }
  }

  lemma {:induction false} PlainRefsArePlain(es: seq<Expr>)
    requires forall i :: 0 <= i < |es| ==> es[i].Ref?
    ensures AllPlain(es)
  {
    if es == [] {
    } else {
      PlainRefsArePlain(es[1..]);
    }
  }

  /** Everything that the SELECT list, GROUP BY and HAVING read is projected. */
  lemma ColumnGroupingReads(q: Select)
    requires ColumnGrouping(q) && Valid(q) && IsGrouped(q)
    ensures forall n :: n in RefsIn(ColumnExprs(q.columns)) + RefsIn(q.groupBy) + RefsIn(OptionExprs(q.having)) ==>
      n in NeededRefs(q)
  {
    hide IsScatterGather, FindAggregates, Grouped, Scalar, AllScalar;
    PlainRefsArePlain(q.groupBy);
    PlainListCollectsAll(q.groupBy);
    SelectedReads(q.columns, q.groupBy);
    GroupedListReads(OptionExprs(q.having), q.groupBy);
  }

  /** What the rewrite does not look at: the columns read by WHERE and ORDER BY. */
  function FilterAndSortRefs(q: Select): set<string> {
    RefsIn(OptionExprs(q.where)) + RefsIn(OrderTerms(q))
  }

  lemma {:induction false} PlainVisible(e: Expr)
    requires Plain(e)
    ensures Visible(e)
    decreases e, 0
  {
    match e
    case Binary(_, l, r) => PlainVisible(l); PlainVisible(r);
    case Unary(_, a) => PlainVisible(a);
    case Call(_, args, _, _, _, _, _, _) => PlainListVisible(args);
    case _ =>
  }

  lemma {:induction false} PlainListVisible(es: seq<Expr>)
    requires AllPlain(es)
    ensures AllVisible(es)
    decreases es, 0
  {
    if es == [] {
    } else {
      PlainVisible(es[0]);
      PlainListVisible(es[1..]);
    }
  }

  /** The shard query has distinct names, shadows none, and covers all but the columns of WHERE and ORDER BY. */
  lemma ColumnGroupingCovers(I: Meaning, q: Select, fanOut: Select, cols: seq<string>, shards: seq<seq<Row>>)
    requires Splits(q, fanOut, true) && ColumnGrouping(q) && NoStar(q.columns) && "_mtdd_row" !in QueryRefs(q)
    ensures Transparent(q) && Distinct(OutputNames(fanOut.columns)) && NoShadow(fanOut.columns, QueryRefs(q))
    ensures Direct(I, q, cols, shards).Success?
      ==> (Covered(fanOut.columns, QueryRefs(q))
           <==> forall n :: n in FilterAndSortRefs(q) ==> n in OutputNames(fanOut.columns))
  {
    hide IsScatterGather, FindAggregates, SupportError, RequiresValidation, RowLevelColumns, Grouped, Scalar, AllScalar;
    hide Execute, NeededRefs, AllPlain;
    ColumnGroupingProjects(q);
    PlainListVisible(ColumnExprs(q.columns));
    assert fanOut.columns == RowLevelColumns(q);
    if Direct(I, q, cols, shards).Success? {
      ExpandWithoutStar(q.columns, cols);
      AggregateIsGrouped(q);
      ColumnGroupingReads(q);
      forall n | RefColumn(n) in fanOut.columns ensures n in OutputNames(fanOut.columns) {
        var i :| 0 <= i < |fanOut.columns| && fanOut.columns[i] == RefColumn(n);
        assert OutputNames(fanOut.columns)[i] == n;
      }
    }
  }

  /**
   For queries grouped by columns, with any aggregates, FILTER, inner ORDER BY, HAVING, ORDER BY
   and LIMIT: the merged answer is the direct answer, whatever the placement of the rows, exactly
   when the columns of WHERE and ORDER BY are among those that the shards return.
   */
  lemma ColumnGroupingExact(I: Meaning, q: Select, fanOut: Select, cols: seq<string>, shards: seq<seq<Row>>)
    requires Splits(q, fanOut, true) && ColumnGrouping(q) && NoStar(q.columns)
    requires !q.distinct && shards != [] && "_mtdd_row" !in QueryRefs(q)
    ensures SameAnswer(ScatterGather(I, q, cols, shards), Direct(I, q, cols, shards))
       <==> Direct(I, q, cols, shards).Failure?
            || forall n :: n in FilterAndSortRefs(q) ==> n in OutputNames(fanOut.columns)
  {
    hide IsScatterGather, RowLevelColumns, Transparent, Distinct, NoShadow, Covered, ScatterGather, Direct, SameAnswer;
    hide SupportError, RequiresValidation;
    ColumnGroupingCovers(I, q, fanOut, cols, shards);
    AggregateRewriteExact(I, q, fanOut, cols, shards);
  }
}
