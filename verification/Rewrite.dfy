/** The rewrite preserves meaning: exactly when, and on which queries always. */
module Rewrite {
  import opened Wrappers
  import opened Sequences
  import opened Ast
  import opened Aggregates
  import opened Walkers
  import opened FanOut
  import opened Query
  import opened Locality
  import opened Merge

  // ----- what the shards send ---------------------------------------------------------------

  lemma {:induction false} RowObjectCells(names: seq<string>, out: seq<Value>)
    requires |names| == |out| && Distinct(names)
    ensures forall i :: 0 <= i < |names| ==> Cell(RowObject(names, out), names[i]) == out[i]
  {
    if names == [] {
    } else {
      RowObjectCells(names[..|names| - 1], out[..|names| - 1]);
    }
  }

  lemma {:induction false} EvalAllAt(I: Meaning, es: seq<Expr>, row: Row, i: nat)
    requires i < |es|
    ensures EvalAll(I, es, row)[i] == Eval(I, es[i], row)
  {
    if i > 0 {
      EvalAllAt(I, es[1..], row, i - 1);
    }
  }

  /** The temporary-table row that a shard row turns into. */
  function Image(I: Meaning, e: Select, row: Row): Row {
    RowObject(OutputNames(e.columns), EvalAll(I, ColumnExprs(e.columns), row))
  }

  function Images(I: Meaning, e: Select, rows: seq<Row>): (images: seq<Row>)
    ensures |images| == |rows|
    ensures forall i :: 0 <= i < |images| ==> images[i] == Image(I, e, rows[i])
  {
    seq(|rows|, i requires 0 <= i < |rows| => Image(I, e, rows[i]))
  }

  /** No computed or renamed column takes the name of a column that the query reads. */
  ghost predicate NoShadow(columns: seq<Column>, names: set<string>) {
    forall i :: 0 <= i < |columns| && OutputName(columns[i]) in names ==> columns[i].expr == Ref(OutputName(columns[i]))
  }

  /** Every column the query reads is a column of the temporary table. */
  ghost predicate Covered(columns: seq<Column>, names: set<string>) {
    forall n :: n in names ==> n in OutputNames(columns)
  }

  lemma ImageSame(I: Meaning, e: Select, names: set<string>, row: Row)
    requires Distinct(OutputNames(e.columns)) && Covered(e.columns, names) && NoShadow(e.columns, names)
    requires STAR !in names
    ensures SameOn(names, row, Image(I, e, row))
  {
    RowObjectCells(OutputNames(e.columns), EvalAll(I, ColumnExprs(e.columns), row));
    forall n | n in names ensures Cell(row, n) == Cell(Image(I, e, row), n) {
      var i :| 0 <= i < |e.columns| && OutputNames(e.columns)[i] == n;
      EvalAllAt(I, ColumnExprs(e.columns), row, i);
    }
  }

  lemma {:induction false} ImagesAppend(I: Meaning, e: Select, s: seq<Row>, t: seq<Row>)
    ensures Images(I, e, s + t) == Images(I, e, s) + Images(I, e, t)
  {
    assert |Images(I, e, s + t)| == |Images(I, e, s) + Images(I, e, t)|;
    forall i | 0 <= i < |s + t| ensures Images(I, e, s + t)[i] == (Images(I, e, s) + Images(I, e, t))[i] {}
  }

  /** A row-level query: what is left after the rewrite. */
  ghost predicate RowLevel(fanOut: Select) {
    fanOut.groupBy == [] && fanOut.having == None && fanOut.orderBy == [] && fanOut.limit == None
  }

  ghost predicate Ready(e: Select, cols: seq<string>) {
    RowLevel(e) && Valid(e) && !IsGrouped(e) && forall n :: n in QueryRefs(e) ==> n in cols
  }

  lemma FinishPlain(I: Meaning, e: Select, lines: seq<Item>)
    requires e.orderBy == [] && e.limit == None
    ensures e.distinct ==> Finish(I, e, lines) == Finish(I, e.(distinct := false), Dedup(lines))
    ensures !e.distinct ==> |Finish(I, e, lines)| == |lines|
    ensures !e.distinct ==> forall i :: 0 <= i < |lines| ==> Finish(I, e, lines)[i] == lines[i].out
  {
  }

  /** The temporary-table rows that the passing rows of one shard turn into. */
  function ShardImages(I: Meaning, e: Select, shard: seq<Row>): seq<Row> {
    Images(I, e, Passing(I, OptionExprs(e.where), shard))
  }

  /** DISTINCT on the shards drops nothing. */
  ghost predicate NothingDropped(I: Meaning, e: Select, shards: seq<seq<Row>>) {
    e.distinct ==> forall i :: 0 <= i < |shards| ==> Distinct(ShardImages(I, e, shards[i]))
  }

  /** A shard sends the image of each row that passes the WHERE clause. */
  lemma ShardAnswerPlain(I: Meaning, fanOut: Select, cols: seq<string>, shard: seq<Row>)
    requires var e := Expand(fanOut, cols); Ready(e, cols) && NothingDropped(I, e, [shard])
    ensures Run(I, fanOut, Table(cols, shard)).Success?
    ensures RowObjects(AnswerNames(fanOut, cols), Run(I, fanOut, Table(cols, shard)).value)
         == ShardImages(I, Expand(fanOut, cols), shard)
  {
    hide IsScatterGather;
    var e := Expand(fanOut, cols);
    var p := Passing(I, OptionExprs(e.where), shard);
    var items := RowItems(I, e, p);
    assert e.distinct ==> Distinct(Images(I, e, p)) by { assert [shard][0] == shard; }
    if e.distinct {
      assert forall i, j :: 0 <= i < j < |p| && items[i] == items[j] ==> Images(I, e, p)[i] == Images(I, e, p)[j];
      DedupOfDistinct(items);
    }
    FinishPlain(I, e, items);
    var answer := Execute(I, e, shard);
    forall i | 0 <= i < |p|
      ensures RowObjects(AnswerNames(fanOut, cols), answer)[i] == Images(I, e, p)[i]
    {
      assert answer[i] == EvalAll(I, ColumnExprs(e.columns), p[i]);
    }
  }

  lemma {:induction false} ShardRowsPlain(I: Meaning, fanOut: Select, cols: seq<string>, shards: seq<seq<Row>>)
    requires var e := Expand(fanOut, cols); Ready(e, cols) && NothingDropped(I, e, shards)
    ensures var e := Expand(fanOut, cols); var loaded := ShardRows(I, fanOut, cols, AnswerNames(fanOut, cols), shards);
      loaded.Success? && Flatten(loaded.value) == ShardImages(I, e, Flatten(shards))
  {
    hide IsScatterGather, Run, Images;
    if shards == [] {
      assert Images(I, Expand(fanOut, cols), []) == [];
    } else {
      var e := Expand(fanOut, cols);
      ShardAnswerPlain(I, fanOut, cols, shards[0]);
      ShardRowsPlain(I, fanOut, cols, shards[1..]);
      PassingAppend(I, OptionExprs(e.where), shards[0], Flatten(shards[1..]));
      ImagesAppend(I, e, Passing(I, OptionExprs(e.where), shards[0]),
                   Passing(I, OptionExprs(e.where), Flatten(shards[1..])));
      var loaded := ShardRows(I, fanOut, cols, AnswerNames(fanOut, cols), shards);
      assert loaded.value[1..] == ShardRows(I, fanOut, cols, AnswerNames(fanOut, cols), shards[1..]).value;
    }
  }

  // ----- re-running the query ---------------------------------------------------------------

  /** Over the images of the rows that passed, the WHERE clause passes again and the lines are the same. */
  lemma RerunLines(I: Meaning, q: Select, e: Select, rows: seq<Row>)
    requires e.where == q.where
    requires Distinct(OutputNames(e.columns)) && Covered(e.columns, QueryRefs(q)) && NoShadow(e.columns, QueryRefs(q))
    requires STAR !in QueryRefs(q)
    ensures var p := Passing(I, OptionExprs(q.where), rows);
      && Passing(I, OptionExprs(q.where), Images(I, e, p)) == Images(I, e, p)
      && SameRows(QueryRefs(q), p, Images(I, e, p))
      && Lines(I, q, Images(I, e, p)) == Lines(I, q, p)
  {
    hide IsScatterGather, Lines, Image;
    var p := Passing(I, OptionExprs(q.where), rows);
    PassingHolds(I, OptionExprs(q.where), rows);
    forall i | 0 <= i < |p|
      ensures SameOn(QueryRefs(q), p[i], Images(I, e, p)[i]) && Holds(I, OptionExprs(q.where), Images(I, e, p)[i])
    {
      ImageSame(I, e, QueryRefs(q), p[i]);
      HoldsLocal(I, OptionExprs(q.where), p[i], Images(I, e, p)[i]);
    }
    PassingAll(I, OptionExprs(q.where), Images(I, e, p));
    LinesLocal(I, q, p, Images(I, e, p));
  }

  lemma {:induction false} StarNotReferenced(es: seq<Expr>)
    ensures STAR !in RefsIn(es)
    decreases es, 0
  {
    if es == [] {
    } else {
      StarNotReferencedIn(es[0]);
      StarNotReferenced(es[1..]);
    }
  }

  lemma {:induction false} StarNotReferencedIn(e: Expr)
    ensures STAR !in Refs(e)
    decreases e, 0
  {
    match e
    case Ref(_) =>
    case Const(_) =>
    case Binary(_, l, r) => StarNotReferencedIn(l); StarNotReferencedIn(r);
    case Unary(_, a) => StarNotReferencedIn(a);
    case Call(_, args, _, filter, orderBy, withinGroup, _, _) =>
      StarNotReferenced(args); StarNotReferenced(filter); StarNotReferenced(orderBy); StarNotReferenced(withinGroup);
    case Subquery =>
    case Other(_, _, es) => StarNotReferenced(es);
  }

  lemma StarNotInQuery(q: Select)
    ensures STAR !in QueryRefs(q)
  {
    StarNotReferenced(ColumnExprs(q.columns));
    StarNotReferenced(OptionExprs(q.where));
    StarNotReferenced(q.groupBy);
    StarNotReferenced(OptionExprs(q.having));
    StarNotReferenced(OrderTerms(q));
  }

  // ----- the shard query of an aggregate query ----------------------------------------------

  ghost predicate NoStar(columns: seq<Column>) {
    forall i :: 0 <= i < |columns| ==> columns[i].expr != Ref(STAR)
  }

  lemma {:induction false} ExpandWithoutStar(columns: seq<Column>, cols: seq<string>)
    requires NoStar(columns)
    ensures ExpandColumns(columns, cols) == columns
  {
    if columns == [] {
    } else {
      ExpandWithoutStar(columns[1..], cols);
    }
  }

  /** No aggregate hides below a node that the walkers do not enter. */
  predicate Visible(e: Expr)
    decreases e, 0
  {
    match e
    case Binary(_, l, r) => Visible(l) && Visible(r)
    case Unary(_, a) => Visible(a)
    case Call(_, args, _, _, _, _, _, _) => AllVisible(args)
    case Other(_, _, es) => AllScalar(es)
    case _ => true
  }

  predicate AllVisible(es: seq<Expr>)
    decreases es, 0
  {
    es == [] || (Visible(es[0]) && AllVisible(es[1..]))
  }

  lemma {:induction false} AllScalarMember(es: seq<Expr>, e: Expr)
    requires AllScalar(es) && e in es
    ensures Scalar(e)
  {
    if es[0] != e {
      AllScalarMember(es[1..], e);
    }
  }

  /** A group-level expression in which the walker finds no aggregate is a row-level one. */
  lemma {:induction false} GroupedWithoutAggregates(e: Expr, groupBy: seq<Expr>)
    requires Grouped(e, groupBy) && AllScalar(groupBy) && FindAggregates(e) == [] && Visible(e)
    ensures Scalar(e)
    decreases e, 0
  {
    hide IsScatterGather;
    if e in groupBy {
      AllScalarMember(groupBy, e);
    } else {
      match e
      case Ref(_) =>
      case Const(_) =>
      case Binary(_, l, r) => GroupedWithoutAggregates(l, groupBy); GroupedWithoutAggregates(r, groupBy);
      case Unary(_, a) => GroupedWithoutAggregates(a, groupBy);
      case Call(_, args, _, _, _, _, _, _) => GroupedListWithoutAggregates(args, groupBy);
      case Subquery =>
      case Other(_, _, _) =>
    }
  }

  lemma {:induction false} GroupedListWithoutAggregates(es: seq<Expr>, groupBy: seq<Expr>)
    requires AllGrouped(es, groupBy) && AllScalar(groupBy) && FindAggregatesIn(es) == [] && AllVisible(es)
    ensures AllScalar(es)
    decreases es, 0
  {
    hide IsScatterGather;
    if es == [] {
    } else {
      GroupedWithoutAggregates(es[0], groupBy);
      GroupedListWithoutAggregates(es[1..], groupBy);
    }
  }

  lemma {:induction false} CollectedAreReferenced(e: Expr)
    ensures forall n :: n in CollectRefs(e) ==> n in Refs(e) && n != STAR
    decreases e, 0
  {
    match e
    case Call(_, args, _, filter, orderBy, withinGroup, _, _) =>
      CollectedListReferenced(args); CollectedListReferenced(filter);
      CollectedListReferenced(orderBy); CollectedListReferenced(withinGroup);
    case Binary(_, l, r) => CollectedAreReferenced(l); CollectedAreReferenced(r);
    case Unary(_, a) => CollectedAreReferenced(a);
    case _ =>
  }

  lemma {:induction false} CollectedListReferenced(es: seq<Expr>)
    ensures forall n :: n in CollectRefsAll(es) ==> n in RefsIn(es) && n != STAR
    decreases es, 0
  {
    if es == [] {
    } else {
      CollectedAreReferenced(es[0]);
      CollectedListReferenced(es[1..]);
    }
  }

  lemma {:induction false} AggregateRefs(e: Expr)
    ensures RefsIn(FindAggregates(e)) <= Refs(e)
    decreases e, 0
  {
    hide IsScatterGather;
    match e
    case Call(_, args, _, _, _, _, _, _) =>
      AggregateRefsIn(args);
      if IsScatterGather(e) {
        RefsInAppend([e], FindAggregatesIn(args));
        assert RefsIn([e]) == Refs(e) + RefsIn([e][1..]);
      } else {
        assert FindAggregates(e) == FindAggregatesIn(args);
      }
    case Binary(_, l, r) => AggregateRefs(l); AggregateRefs(r); RefsInAppend(FindAggregates(l), FindAggregates(r));
    case Unary(_, a) => AggregateRefs(a);
    case _ =>
  }

  lemma {:induction false} AggregateRefsIn(es: seq<Expr>)
    ensures RefsIn(FindAggregatesIn(es)) <= RefsIn(es)
    decreases es, 0
  {
    hide IsScatterGather;
    if es == [] {
    } else {
      AggregateRefs(es[0]);
      AggregateRefsIn(es[1..]);
      RefsInAppend(FindAggregates(es[0]), FindAggregatesIn(es[1..]));
    }
  }

  /** A column the shards can compute, reading only what the whole query reads. */
  ghost predicate FineColumn(c: Column, names: set<string>) {
    Scalar(c.expr) && Refs(c.expr) <= names && c.expr != Ref(STAR)
  }

  ghost predicate Fine(columns: seq<Column>, names: set<string>) {
    forall i :: 0 <= i < |columns| ==> FineColumn(columns[i], names)
  }

  lemma {:induction false} GroupsFine(projection: seq<Column>, groupBy: seq<Expr>, names: set<string>)
    requires Fine(projection, names) && AllScalar(groupBy) && RefsIn(groupBy) <= names && Ref(STAR) !in groupBy
    ensures Fine(AddGroups(projection, groupBy), names)
    decreases groupBy
  {
    hide IsScatterGather;
    if groupBy == [] {
    } else {
      GroupsFine(AddColumn(projection, Column(groupBy[0], None)), groupBy[1..], names);
    }
  }

  lemma {:induction false} PlainColumnsFine(projection: seq<Column>, columns: seq<Column>, q: Select,
                                            names: set<string>)
    requires Fine(projection, names) && AllScalar(q.groupBy) && NoStar(columns)
    requires AllGrouped(ColumnExprs(columns), q.groupBy) && AllVisible(ColumnExprs(columns))
    requires RefsIn(ColumnExprs(columns)) <= names
    ensures Fine(AddPlainColumns(projection, columns), names)
    decreases columns
  {
    hide IsScatterGather;
    if columns == [] {
    } else {
      assert ColumnExprs(columns)[1..] == ColumnExprs(columns[1..]);
      if FindAggregates(columns[0].expr) != [] {
        PlainColumnsFine(projection, columns[1..], q, names);
      } else {
        GroupedWithoutAggregates(columns[0].expr, q.groupBy);
        PlainColumnsFine(AddColumn(projection, columns[0]), columns[1..], q, names);
      }
    }
  }

  lemma {:induction false} MissingFine(columns: seq<Column>, needed: seq<string>, names: set<string>)
    requires Fine(columns, names) && forall n :: n in needed ==> n in names && n != STAR
    ensures Fine(AddMissingRefs(columns, needed), names)
    decreases needed
  {
    hide IsScatterGather;
    if needed == [] {
    } else {
      var n := needed[0];
      assert n in needed && FineColumn(RefColumn(n), names);
      assert forall m :: m in needed[1..] ==> m in needed;
      MissingFine(if ProjectsRef(columns, n) then columns else columns + [RefColumn(n)], needed[1..], names);
    }
  }

  lemma {:induction false} ColumnsRefsReferenced(columns: seq<Column>)
    ensures forall n :: n in ColumnsRefs(columns) ==> n in RefsIn(ColumnExprs(columns)) && n != STAR
  {
    hide IsScatterGather;
    if columns == [] {
    } else {
      var e := columns[0].expr;
      assert ColumnExprs(columns)[1..] == ColumnExprs(columns[1..]);
      CollectedAreReferenced(e);
      AggregateRefs(e);
      CollectedListReferenced(FindAggregates(e));
      ColumnsRefsReferenced(columns[1..]);
    }
  }

  lemma NeededAreReferenced(q: Select)
    ensures forall n :: n in NeededRefs(q) ==> n in QueryRefs(q) && n != STAR
  {
    CollectedListReferenced(q.groupBy);
    ColumnsRefsReferenced(q.columns);
    AggregateRefsIn(OptionExprs(q.having));
    CollectedListReferenced(FindAggregatesIn(OptionExprs(q.having)));
  }

  lemma {:induction false} FineColumnsScalar(columns: seq<Column>, names: set<string>)
    requires Fine(columns, names)
    ensures AllScalar(ColumnExprs(columns)) && RefsIn(ColumnExprs(columns)) <= names && NoStar(columns)
  {
    if columns == [] {
    } else {
      assert ColumnExprs(columns)[1..] == ColumnExprs(columns[1..]);
      FineColumnsScalar(columns[1..], names);
    }
  }

  lemma MarkerFine(names: set<string>)
    ensures FineColumn(ROW_MARKER, names)
  {
  }

  lemma RowLevelColumnsFine(q: Select)
    requires Valid(q) && IsGrouped(q) && NoStar(q.columns) && Ref(STAR) !in q.groupBy
      && AllVisible(ColumnExprs(q.columns))
    ensures Fine(RowLevelColumns(q), QueryRefs(q)) && RowLevelColumns(q) != []
  {
    hide IsScatterGather, AddMissingRefs, AddGroups, AddPlainColumns, NeededRefs, FineColumn, AllVisible, AllGrouped;
    GroupsFine([], q.groupBy, QueryRefs(q));
    PlainColumnsFine(AddGroups([], q.groupBy), q.columns, q, QueryRefs(q));
    NeededAreReferenced(q);
    DedupElements(NeededRefs(q));
    MissingFine(Projection(q), Dedup(NeededRefs(q)), QueryRefs(q));
    MarkerFine(QueryRefs(q));
  }

  lemma {:induction false} ScalarWithoutAggregates(e: Expr)
    requires Scalar(e)
    ensures FindAggregates(e) == []
    decreases e, 0
  {
    hide IsScatterGather;
    match e
    case Call(_, args, _, _, _, _, _, _) => ScalarListWithoutAggregates(args);
    case Binary(_, l, r) => ScalarWithoutAggregates(l); ScalarWithoutAggregates(r);
    case Unary(_, a) => ScalarWithoutAggregates(a);
    case _ =>
  }

  lemma {:induction false} ScalarListWithoutAggregates(es: seq<Expr>)
    requires AllScalar(es)
    ensures FindAggregatesIn(es) == []
    decreases es, 0
  {
    hide IsScatterGather;
    if es == [] {
    } else {
      ScalarWithoutAggregates(es[0]);
      ScalarListWithoutAggregates(es[1..]);
    }
  }

  lemma AggregateIsGrouped(q: Select)
    requires HasAggregates(q)
    ensures IsGrouped(q)
  {
    hide IsScatterGather;
    if AllScalar(ColumnExprs(q.columns)) {
      ScalarListWithoutAggregates(ColumnExprs(q.columns));
    }
  }

  // ----- the theorems -----------------------------------------------------------------------

  /** Both fail, or both return the same rows. */
  ghost predicate SameAnswer(merged: Result<seq<seq<Value>>, MergeError>, direct: Result<seq<seq<Value>>, QueryError>) {
    if direct.Success? then merged == Success(direct.value) else merged.Failure?
  }

  /** The query as PostgreSQL would run it on one table holding every shard's rows. */
  function Direct(I: Meaning, q: Select, cols: seq<string>,
                  shards: seq<seq<Row>>): Result<seq<seq<Value>>, QueryError> {
    Run(I, q, Table(cols, Flatten(shards)))
  }

  /** The statement is accepted and merged, and `fanOut` is what the shards run. */
  ghost predicate Splits(q: Select, fanOut: Select, hasAggregates: bool) {
    var s := SplitOf(q);
    s.Success? && s.value.LocalMerge? && s.value.fanOut == fanOut && s.value.hasAggregates == hasAggregates
  }

  /** No aggregate is hidden from the walkers, and `*` appears only as an argument. */
  ghost predicate Transparent(q: Select) {
    NoStar(q.columns) && Ref(STAR) !in q.groupBy && AllVisible(ColumnExprs(q.columns))
  }

  lemma AggregateShardsReady(q: Select, fanOut: Select, cols: seq<string>)
    requires Splits(q, fanOut, true) && Transparent(q) && Valid(q)
    requires forall n :: n in QueryRefs(q) ==> n in cols
    ensures Expand(q, cols) == q && Expand(fanOut, cols) == fanOut && NoStar(fanOut.columns)
    ensures Ready(fanOut, cols) && fanOut.distinct == q.distinct && fanOut.where == q.where
    ensures forall names :: Expand(q, names) == q
  {
    hide IsScatterGather, RowLevelColumns, SupportError, RequiresValidation;
    AggregateIsGrouped(q);
    RowLevelColumnsFine(q);
    FineColumnsScalar(RowLevelColumns(q), QueryRefs(q));
    ExpandWithoutStar(RowLevelColumns(q), cols);
    forall names ensures ExpandColumns(q.columns, names) == q.columns {
      ExpandWithoutStar(q.columns, names);
    }
    assert OrderTerms(fanOut) == [];
    assert fanOut.columns == RowLevelColumns(q);
  }

  lemma RunsPlain(I: Meaning, q: Select, cols: seq<string>, rows: seq<Row>)
    requires Expand(q, cols) == q && Valid(q) && forall n :: n in QueryRefs(q) ==> n in cols
    ensures Run(I, q, Table(cols, rows)) == Success(Execute(I, q, rows))
  {
    hide Valid, Execute, QueryRefs;
  }

  lemma DirectNeeds(I: Meaning, q: Select, cols: seq<string>, shards: seq<seq<Row>>)
    requires Transparent(q) && Direct(I, q, cols, shards).Success?
    ensures Valid(q) && forall n :: n in QueryRefs(q) ==> n in cols
    ensures Direct(I, q, cols, shards) == Success(Execute(I, q, Flatten(shards)))
  {
    ExpandWithoutStar(q.columns, cols);
    hide Valid, Execute, QueryRefs;
  }

  /** Once the answers are loaded, the merge is a run of the whole query over them. */
  lemma GatherRuns(I: Meaning, q: Select, fanOut: Select, hasAggregates: bool, cols: seq<string>, shards: seq<seq<Row>>)
    requires Splits(q, fanOut, hasAggregates) && shards != [] && Distinct(AnswerNames(fanOut, cols))
    requires ShardRows(I, fanOut, cols, AnswerNames(fanOut, cols), shards).Success?
    ensures var names := AnswerNames(fanOut, cols);
      var answer := Run(I, q, Table(names, Flatten(ShardRows(I, fanOut, cols, names, shards).value)));
      answer.Success? ==> ScatterGather(I, q, cols, shards) == Success(answer.value)
  {
    hide IsScatterGather, SplitOf, Run, ShardRows, AnswerNames;
  }

  /** Merging gives the direct answer when the temporary table carries every column the query reads. */
  lemma CoveredAggregatesAgree(I: Meaning, q: Select, fanOut: Select, cols: seq<string>, shards: seq<seq<Row>>)
    requires Splits(q, fanOut, true) && Transparent(q) && shards != []
    requires NothingDropped(I, fanOut, shards)
    requires Direct(I, q, cols, shards).Success?
    requires NoShadow(fanOut.columns, QueryRefs(q))
    requires Distinct(OutputNames(fanOut.columns)) && Covered(fanOut.columns, QueryRefs(q))
    ensures ScatterGather(I, q, cols, shards) == Success(Direct(I, q, cols, shards).value)
  {
    hide IsScatterGather, SplitOf, Splits, Valid, IsGrouped, Lines, Finish, Images, ShardRows, NoShadow, NothingDropped;
    hide Run, ScatterGather, Direct, Transparent, QueryRefs;
    DirectNeeds(I, q, cols, shards);
    AggregateShardsReady(q, fanOut, cols);
    StarNotInQuery(q);
    ShardRowsPlain(I, fanOut, cols, shards);
    var names := AnswerNames(fanOut, cols);
    var loaded := Flatten(ShardRows(I, fanOut, cols, names, shards).value);
    GatherRuns(I, q, fanOut, true, cols, shards);
    RunsPlain(I, q, names, loaded);
    RerunLines(I, q, fanOut, Flatten(shards));
  }

  /** If the direct query fails, so does the merged one. */
  lemma FailingAggregatesFail(I: Meaning, q: Select, fanOut: Select, cols: seq<string>, shards: seq<seq<Row>>)
    requires Splits(q, fanOut, true) && Transparent(q) && shards != []
    requires NoShadow(fanOut.columns, QueryRefs(q))
    requires Direct(I, q, cols, shards).Failure?
    ensures ScatterGather(I, q, cols, shards).Failure?
  {
    hide IsScatterGather, SplitOf, Valid, IsGrouped, OutputNames, Execute, NoShadow, QueryRefs, ScatterGather;
    hide RowLevelColumns, AllVisible;
    ExpandWithoutStar(q.columns, cols);
    if Valid(q) {
      AggregateShardsReady(q, fanOut, QueryRefsSeq(q));
      ExpandWithoutStar(fanOut.columns, cols);
      var n :| n in QueryRefs(q) && n !in cols;
      if n in OutputNames(fanOut.columns) {
        StarNotInQuery(q);
        NamedIsRead(fanOut, QueryRefs(q), n);
        UnknownFails(I, fanOut, cols, shards[0], n);
      } else {
        ExpandWithoutStar(q.columns, OutputNames(fanOut.columns));
      }
      LostColumnFails(I, q, fanOut, true, cols, shards, n);
    } else {
      ExpandWithoutStar(q.columns, AnswerNames(fanOut, cols));
      InvalidFails(I, q, fanOut, true, cols, shards);
    }
  }

  lemma UnknownFails(I: Meaning, e: Select, cols: seq<string>, rows: seq<Row>, n: string)
    requires Expand(e, cols) == e && n in QueryRefs(e) && n !in cols
    ensures Run(I, e, Table(cols, rows)).Failure?
  {
    hide Valid, QueryRefs, Execute;
  }

  /** A column that no shard has, or that no shard returns. */
  lemma LostColumnFails(I: Meaning, q: Select, fanOut: Select, hasAggregates: bool, cols: seq<string>,
                        shards: seq<seq<Row>>, n: string)
    requires Splits(q, fanOut, hasAggregates) && shards != [] && n in QueryRefs(q)
    requires var names := AnswerNames(fanOut, cols);
      Run(I, fanOut, Table(cols, shards[0])).Failure? || (Expand(q, names) == q && n !in names)
    ensures ScatterGather(I, q, cols, shards).Failure?
  {
    hide SplitOf, Valid, QueryRefs, Execute, AnswerNames, Expand;
  }

  lemma InvalidFails(I: Meaning, q: Select, fanOut: Select, hasAggregates: bool, cols: seq<string>,
                     shards: seq<seq<Row>>)
    requires Splits(q, fanOut, hasAggregates) && shards != []
    requires Expand(q, AnswerNames(fanOut, cols)) == q && !Valid(q)
    ensures ScatterGather(I, q, cols, shards).Failure?
  {
    hide SplitOf, Valid, QueryRefs, Execute, AnswerNames, Expand, ShardRows;
  }

  /** A name that is read and returned is read by the shards. */
  lemma NamedIsRead(e: Select, names: set<string>, n: string)
    requires NoShadow(e.columns, names) && n in names && n != STAR && n in OutputNames(e.columns)
    ensures n in QueryRefs(e)
  {
    var i :| 0 <= i < |e.columns| && OutputNames(e.columns)[i] == n;
    RefsInMember(ColumnExprs(e.columns), i);
  }

  /** A merged answer means that the temporary table could be made and carries what the query reads. */
  lemma MergedAggregateNeeds(I: Meaning, q: Select, fanOut: Select, cols: seq<string>, shards: seq<seq<Row>>)
    requires Splits(q, fanOut, true) && Transparent(q) && shards != []
    requires Direct(I, q, cols, shards).Success? && ScatterGather(I, q, cols, shards).Success?
    ensures Distinct(OutputNames(fanOut.columns)) && Covered(fanOut.columns, QueryRefs(q))
  {
    hide IsScatterGather, SplitOf, IsGrouped, Execute, ShardRows;
    ExpandWithoutStar(q.columns, cols);
    AggregateShardsReady(q, fanOut, cols);
  }

  /** Some table's columns in which the query resolves. */
  ghost function QueryRefsSeq(q: Select): (cols: seq<string>)
    ensures forall n :: n in QueryRefs(q) ==> n in cols
  {
    SetSeq(QueryRefs(q))
  }

  ghost function SetSeq(s: set<string>): (r: seq<string>)
    ensures forall n :: n in s ==> n in r
  {
    if s == {} then [] else var n :| n in s; [n] + SetSeq(s - {n})
  }

  /**
   The aggregate rewrite preserves meaning exactly when the query is invalid anyway, or the output
   names of the shard query are distinct and cover every column that the whole query reads.
   */
  lemma AggregateRewriteExact(I: Meaning, q: Select, fanOut: Select, cols: seq<string>, shards: seq<seq<Row>>)
    requires Splits(q, fanOut, true) && Transparent(q) && shards != []
    requires NothingDropped(I, fanOut, shards)
    requires NoShadow(fanOut.columns, QueryRefs(q))
    ensures SameAnswer(ScatterGather(I, q, cols, shards), Direct(I, q, cols, shards))
       <==> Direct(I, q, cols, shards).Failure?
            || (Distinct(OutputNames(fanOut.columns)) && Covered(fanOut.columns, QueryRefs(q)))
  {
    hide IsScatterGather, SplitOf, IsGrouped, Execute, ShardRows, NoShadow, NothingDropped;
    if Direct(I, q, cols, shards).Failure? {
      FailingAggregatesFail(I, q, fanOut, cols, shards);
    } else if Distinct(OutputNames(fanOut.columns)) && Covered(fanOut.columns, QueryRefs(q)) {
      CoveredAggregatesAgree(I, q, fanOut, cols, shards);
    } else if ScatterGather(I, q, cols, shards).Success? {
      MergedAggregateNeeds(I, q, fanOut, cols, shards);
    }
  }
}
