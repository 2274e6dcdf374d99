/** Encoding a batch and decoding it: round trip, truncation, trailing bytes. */
module RpgbProofs {
  import opened Wrappers
  import opened Bytes
  import opened Cells
  import opened Rpgb

  // ----- what decoding an encoded batch gives, without any bytes -----------------------------

  /** Every cell encoded and decoded on its own, from a column and row on. */
  function RebuildFrom(fields: seq<Field>, rows: seq<GivenRow>, col: nat, row: nat, acc: seq<Row>): Option<seq<Row>>
    requires col <= |fields| && row <= |rows| == |acc|
    decreases |fields| - col, |rows| - row
  {
    if col == |fields| then Some(acc)
    else if row == |rows| then RebuildFrom(fields, rows, col + 1, 0, acc)
    else
      var name := fields[col].name;
      var v := Back(fields[col], Lookup(rows[row], name));
      if v.None? then None else RebuildFrom(fields, rows, col, row + 1, Assign(acc, row, name, v.value))
  }

  function Rebuilt(fields: seq<Field>, rows: seq<GivenRow>): Option<seq<Row>> {
    RebuildFrom(fields, rows, 0, 0, EmptyRows(|rows|))
  }

  /** The encoded cells lie in the buffer, each at its place. */
  ghost predicate Holds(b: seq<byte>, cells: seq<Cell>) {
    && Short(cells)
    && 16 + |Body(cells, |cells|)| <= |b|
    && b[16..16 + |Body(cells, |cells|)|] == Body(cells, |cells|)
  }

  ghost function Place(cells: seq<Cell>, k: nat): nat
    requires k <= |cells| && Short(cells)
  {
    16 + |Body(cells, k)|
  }

  lemma HoldsShort(b: seq<byte>, cells: seq<Cell>)
    requires Holds(b, cells)
    ensures Short(cells)
  {
  }

  lemma PlaceOfFirst(cells: seq<Cell>)
    requires Short(cells)
    ensures Place(cells, 0) == 16
  {
  }

  lemma CellAt(b: seq<byte>, cells: seq<Cell>, k: nat)
    requires Holds(b, cells) && k < |cells|
    ensures Place(cells, k + 1) == Place(cells, k) + |PutCell(cells[k])| <= |b|
    ensures b[Place(cells, k)..Place(cells, k + 1)] == PutCell(cells[k])
  {
    hide PutCell;
    BodyFits(cells, k + 1, |cells|);
    var all := Body(cells, |cells|);
    var upto := Body(cells, k + 1);
    assert upto == all[..|upto|] && upto == Body(cells, k) + PutCell(cells[k]);
    assert all[|Body(cells, k)|..|upto|] == upto[|Body(cells, k)|..] == PutCell(cells[k]);
    PartOfPart(b, 16, |all|, |Body(cells, k)|, |upto|);
  }

  /** A written cell is read back, with its end. */
  lemma ReadWritten(b: seq<byte>, at: nat, cell: Cell)
    requires cell.Some? ==> |cell.value| < TWO_32
    requires at + |PutCell(cell)| <= |b| && b[at..at + |PutCell(cell)|] == PutCell(cell)
    ensures ReadCell(b, at) == Success(Read(cell, at + |PutCell(cell)|))
  {
    hide PutLE32, LE32;
    var put := PutCell(cell);
    assert b[at] == b[at..at + |put|][0] == put[0];
    if cell.Some? {
      PartOfPart(b, at, |put|, 1, 5);
      PartOfPart(b, at, |put|, 5, |put|);
      assert put[1..5] == PutLE32(|cell.value|);
      LE32Inverse(|cell.value|, b, at + 1);
      assert put[5..|put|] == cell.value;
    }
  }

  function ToResult(r: Option<seq<Row>>): Result<seq<Row>, Error> {
    if r.None? then Failure(BadCell) else Success(r.value)
  }

  lemma DecodeOfCell(field: Field, v: Given)
    requires CellOf(field, v).Some?
    ensures DecodeOne(field, CellOf(field, v).value) == Back(field, v)
  {
    hide EncodeCell, DecodeCell;
  }

  lemma {:induction false} DecodeMeetsRebuild(b: seq<byte>, fields: seq<Field>, rows: seq<GivenRow>, cells: seq<Cell>,
                                               col: nat, row: nat, k: nat, acc: seq<Row>)
    requires Holds(b, cells) && col <= |fields| && row <= |rows| == |acc| && k <= |cells|
    requires CellsFrom(fields, rows, col, row) == Some(cells[k..])
    ensures DecodeFrom(b, Place(cells, k), fields, col, row, acc) == ToResult(RebuildFrom(fields, rows, col, row, acc))
    decreases |fields| - col, |rows| - row
  {
    hide CellOf, Back, PutCell, ReadCell, Body, Place, Holds, DecodeOne, Short;
    if col < |fields| {
      if row == |rows| {
        DecodeMeetsRebuild(b, fields, rows, cells, col + 1, 0, k, acc);
      } else {
        var v := Lookup(rows[row], fields[col].name);
        var cell := CellOf(fields[col], v).value;
        var rest := CellsFrom(fields, rows, col, row + 1).value;
        assert cells[k..] == [cell] + rest && |cells[k..]| == 1 + |rest|;
        assert cells[k] == cells[k..][0] == cell && cells[k + 1..] == cells[k..][1..] == rest;
        ReadHeld(b, cells, k);
        DecodeOfCell(fields[col], v);
        var back := Back(fields[col], v);
        if back.Some? {
          DecodeMeetsRebuild(b, fields, rows, cells, col, row + 1, k + 1,
                             Assign(acc, row, fields[col].name, back.value));
        }
      }
    }
  }

  lemma ReadHeld(b: seq<byte>, cells: seq<Cell>, k: nat)
    requires Holds(b, cells) && k < |cells|
    ensures ReadCell(b, Place(cells, k)) == Success(Read(cells[k], Place(cells, k + 1)))
  {
    hide ReadCell, PutCell;
    CellAt(b, cells, k);
    ReadWritten(b, Place(cells, k), cells[k]);
  }

  lemma HeaderReadsBack(b: seq<byte>, numRows: nat, numCols: nat)
    requires numRows < TWO_32 && numCols < TWO_32 && Header(numRows, numCols) <= b
    ensures |b| >= 16 && LE32(b, 0) == MAGIC && LE32(b, 4) == VERSION && LE32(b, 8) == numRows && LE32(b, 12) == numCols
  {
    hide PutLE32, LE32;
    var h := Header(numRows, numCols);
    assert b[0..16] == h;
    PartOfPart(b, 0, 16, 0, 4);
    PartOfPart(b, 0, 16, 4, 8);
    PartOfPart(b, 0, 16, 8, 12);
    PartOfPart(b, 0, 16, 12, 16);
    assert h[0..4] == PutLE32(MAGIC) && h[4..8] == PutLE32(VERSION) && h[8..12] == PutLE32(numRows)
      && h[12..16] == PutLE32(numCols);
    LE32Inverse(MAGIC, b, 0);
    LE32Inverse(VERSION, b, 4);
    LE32Inverse(numRows, b, 8);
    LE32Inverse(numCols, b, 12);
  }

  /** Decoding an encoded batch, with anything behind it, is decoding each encoded cell. */
  lemma DecodeOfEncoded(fields: seq<Field>, rows: seq<GivenRow>, trailing: seq<byte>)
    requires Encodable(fields, rows)
    ensures Decoded(Encoded(fields, rows) + trailing, fields) == ToResult(Rebuilt(fields, rows))
  {
    hide LE32, PutLE32, DecodeFrom, RebuildFrom, CellsFrom, Body, Header;
    var b := Encoded(fields, rows) + trailing;
    var cells := CellsFrom(fields, rows, 0, 0).value;
    CellsAreShort(fields, rows, 0, 0);
    HeaderReadsBack(b, |rows|, |fields|);
    assert b[16..16 + |Body(cells, |cells|)|] == Body(cells, |cells|);
    assert cells[0..] == cells;
    PlaceOfFirst(cells);
    DecodeMeetsRebuild(b, fields, rows, cells, 0, 0, 0, EmptyRows(|rows|));
  }

  // ----- truncation -------------------------------------------------------------------------

  lemma LengthOfPrefix(b: seq<byte>, p: seq<byte>, at: nat)
    requires p <= b && at + 4 <= |p|
    ensures LE32(p, at) == LE32(b, at)
  {
  }

  /** A cell cut short is not read. */
  lemma ReadCut(b: seq<byte>, p: seq<byte>, cells: seq<Cell>, k: nat)
    requires Holds(b, cells) && k < |cells| && p <= b && Place(cells, k) <= |p|
    ensures |p| < Place(cells, k + 1) ==> ReadCell(p, Place(cells, k)).Failure?
    ensures |p| >= Place(cells, k + 1) ==> ReadCell(p, Place(cells, k)) == ReadCell(b, Place(cells, k))
  {
    hide LE32, PutLE32, Body, Place;
    CellAt(b, cells, k);
    var at := Place(cells, k);
    ReadWritten(b, at, cells[k]);
    if at < |p| {
      assert p[at] == b[at];
      if p[at] == 0 && at + 5 <= |p| {
        LengthOfPrefix(b, p, at + 1);
        if at + 5 + LE32(p, at + 1) <= |p| {
          assert p[at + 5..at + 5 + LE32(p, at + 1)] == b[at + 5..at + 5 + LE32(b, at + 1)];
        }
      }
    }
  }

  lemma {:induction false} CutFails(b: seq<byte>, p: seq<byte>, fields: seq<Field>, rows: seq<GivenRow>,
                                    cells: seq<Cell>,
                                    col: nat, row: nat, k: nat, acc: seq<Row>)
    requires Holds(b, cells) && p <= b && col <= |fields| && row <= |rows| == |acc| && k <= |cells|
    requires CellsFrom(fields, rows, col, row) == Some(cells[k..])
    requires Place(cells, k) <= |p| < Place(cells, |cells|)
    ensures DecodeFrom(p, Place(cells, k), fields, col, row, acc).Failure?
    decreases |fields| - col, |rows| - row
  {
    hide CellOf, PutCell, ReadCell, Body, Place, Holds, DecodeOne, Short;
    if col < |fields| && row == |rows| {
      CutFails(b, p, fields, rows, cells, col + 1, 0, k, acc);
    } else if col < |fields| {
      var cell := CellOf(fields[col], Lookup(rows[row], fields[col].name)).value;
      var rest := CellsFrom(fields, rows, col, row + 1).value;
      assert cells[k..] == [cell] + rest && |cells[k..]| == 1 + |rest|;
      assert cells[k + 1..] == cells[k..][1..] == rest;
      HoldsShort(b, cells);
      ReadCut(b, p, cells, k);
      if |p| >= Place(cells, k + 1) {
        ReadHeld(b, cells, k);
        var v := DecodeOne(fields[col], cells[k]);
        if v.Some? {
          CutFails(b, p, fields, rows, cells, col, row + 1, k + 1, Assign(acc, row, fields[col].name, v.value));
        }
      }
    }
  }

  /** Every part of an encoded batch from its start, short of the whole and not empty, is rejected. */
  lemma TruncationIsRejected(fields: seq<Field>, rows: seq<GivenRow>, p: seq<byte>)
    requires Encodable(fields, rows) && p != [] && p < Encoded(fields, rows)
    ensures Decoded(p, fields).Failure?
  {
    hide LE32, PutLE32, DecodeFrom, CellsFrom, Body, Header;
    var b := Encoded(fields, rows);
    var cells := CellsFrom(fields, rows, 0, 0).value;
    CellsAreShort(fields, rows, 0, 0);
    if |p| >= 16 {
      assert Header(|rows|, |fields|) <= p;
      HeaderReadsBack(p, |rows|, |fields|);
      assert b[16..16 + |Body(cells, |cells|)|] == Body(cells, |cells|);
      assert cells[0..] == cells;
      PlaceOfFirst(cells);
      CutFails(b, p, fields, rows, cells, 0, 0, 0, EmptyRows(|rows|));
    }
  }

  // ----- which batches come back unchanged ---------------------------------------------------

  ghost predicate DistinctNames(fields: seq<Field>) {
    forall i, j :: 0 <= i < j < |fields| ==> fields[i].name != fields[j].name
  }

  function Names(fields: seq<Field>): set<string> { set i | 0 <= i < |fields| :: fields[i].name }

  /** Column c of a row holds what encoding and decoding made of the given cell. */
  ghost predicate CellDone(fields: seq<Field>, rows: seq<GivenRow>, acc: seq<Row>, c: nat, r: nat)
    requires c < |fields| && r < |rows| == |acc|
  {
    var name := fields[c].name;
    name in acc[r] && Back(fields[c], Lookup(rows[r], name)) == Some(acc[r][name])
  }

  /** The columns before col are done, and column col is up to row. */
  ghost predicate DoneTo(fields: seq<Field>, rows: seq<GivenRow>, acc: seq<Row>, col: nat, row: nat)
    requires |rows| == |acc|
  {
    && (forall r, c :: 0 <= r < |rows| && 0 <= c < |fields| && (c < col || (c == col && r < row)) ==>
          CellDone(fields, rows, acc, c, r))
    && (forall r :: 0 <= r < |rows| ==> acc[r].Keys <= Names(fields))
  }

  lemma DoneStep(fields: seq<Field>, rows: seq<GivenRow>, acc: seq<Row>, col: nat, row: nat, v: Value)
    requires DistinctNames(fields) && |rows| == |acc| && col < |fields| && row < |rows|
    requires DoneTo(fields, rows, acc, col, row) && Back(fields[col], Lookup(rows[row], fields[col].name)) == Some(v)
    ensures DoneTo(fields, rows, Assign(acc, row, fields[col].name, v), col, row + 1)
  {
    hide Back;
    var acc' := Assign(acc, row, fields[col].name, v);
    forall r, c | 0 <= r < |rows| && 0 <= c < |fields| && (c < col || (c == col && r < row + 1))
      ensures CellDone(fields, rows, acc', c, r)
    {
      if c != col || r != row {
        assert CellDone(fields, rows, acc, c, r);
      }
    }
    assert fields[col].name in Names(fields);
  }

  lemma ColumnDone(fields: seq<Field>, rows: seq<GivenRow>, acc: seq<Row>, col: nat)
    requires |rows| == |acc| && DoneTo(fields, rows, acc, col, |rows|)
    ensures DoneTo(fields, rows, acc, col + 1, 0)
  {
    hide CellDone;
  }

  lemma AllColumnsDone(fields: seq<Field>, rows: seq<GivenRow>, acc: seq<Row>, row: nat)
    requires |rows| == |acc| && DoneTo(fields, rows, acc, |fields|, row)
    ensures DoneTo(fields, rows, acc, |fields|, 0)
  {
    hide CellDone;
  }

  lemma {:induction false} RebuiltIsDone(fields: seq<Field>, rows: seq<GivenRow>, col: nat, row: nat, acc: seq<Row>)
    requires DistinctNames(fields) && col <= |fields| && row <= |rows| == |acc| && DoneTo(fields, rows, acc, col, row)
    requires RebuildFrom(fields, rows, col, row, acc).Some?
    ensures var r := RebuildFrom(fields, rows, col, row, acc).value;
      |r| == |rows| && DoneTo(fields, rows, r, |fields|, 0)
    decreases |fields| - col, |rows| - row
  {
    hide Back, DoneTo, DistinctNames, CellDone;
    if col < |fields| {
      if row == |rows| {
        ColumnDone(fields, rows, acc, col);
        RebuiltIsDone(fields, rows, col + 1, 0, acc);
      } else {
        var v := Back(fields[col], Lookup(rows[row], fields[col].name)).value;
        DoneStep(fields, rows, acc, col, row, v);
        RebuiltIsDone(fields, rows, col, row + 1, Assign(acc, row, fields[col].name, v));
      }
    } else {
      AllColumnsDone(fields, rows, acc, row);
    }
  }

  /** No cell fails to come back as something. */
  ghost predicate AllBack(fields: seq<Field>, rows: seq<GivenRow>) {
    forall c, r :: 0 <= c < |fields| && 0 <= r < |rows| ==> Back(fields[c], Lookup(rows[r], fields[c].name)).Some?
  }

  lemma {:induction false} RebuildSucceeds(fields: seq<Field>, rows: seq<GivenRow>, col: nat, row: nat, acc: seq<Row>)
    requires AllBack(fields, rows) && col <= |fields| && row <= |rows| == |acc|
    ensures RebuildFrom(fields, rows, col, row, acc).Some?
    decreases |fields| - col, |rows| - row
  {
    hide Back;
    if col < |fields| {
      if row == |rows| {
        RebuildSucceeds(fields, rows, col + 1, 0, acc);
      } else {
        var v := Back(fields[col], Lookup(rows[row], fields[col].name));
        RebuildSucceeds(fields, rows, col, row + 1, Assign(acc, row, fields[col].name, v.value));
      }
    }
  }

  lemma RebuiltCells(fields: seq<Field>, rows: seq<GivenRow>)
    requires DistinctNames(fields) && Rebuilt(fields, rows).Some?
    ensures var out := Rebuilt(fields, rows).value;
      && |out| == |rows|
      && (forall r :: 0 <= r < |rows| ==> out[r].Keys == Names(fields))
      && (forall r, c :: 0 <= r < |rows| && 0 <= c < |fields| ==> CellDone(fields, rows, out, c, r))
  {
    hide Back, RebuildFrom;
    RebuiltIsDone(fields, rows, 0, 0, EmptyRows(|rows|));
    var out := Rebuilt(fields, rows).value;
    forall r | 0 <= r < |rows| ensures out[r].Keys == Names(fields) {
      forall c | 0 <= c < |fields| ensures fields[c].name in out[r] {
        assert CellDone(fields, rows, out, c, r);
      }
    }
  }

  /** Every row has exactly the columns, and every cell is typed. */
  ghost predicate TypedRows(fields: seq<Field>, rows: seq<GivenRow>) {
    && (forall r :: 0 <= r < |rows| ==> rows[r].Keys == Names(fields))
    && (forall c, r :: 0 <= c < |fields| && 0 <= r < |rows| ==> Typed(fields[c], Lookup(rows[r], fields[c].name)))
  }

  lemma TypedRowsRebuild(fields: seq<Field>, rows: seq<GivenRow>)
    requires DistinctNames(fields) && (forall f <- fields :: f.format <= 1) && TypedRows(fields, rows)
    ensures Rebuilt(fields, rows) == Some(rows)
  {
    hide Back, Typed, RebuildFrom;
    forall c, r | 0 <= c < |fields| && 0 <= r < |rows|
      ensures Back(fields[c], Lookup(rows[r], fields[c].name)) == Some(Lookup(rows[r], fields[c].name))
    {
      CellRoundTripExact(fields[c], Lookup(rows[r], fields[c].name));
    }
    RebuildSucceeds(fields, rows, 0, 0, EmptyRows(|rows|));
    RebuiltCells(fields, rows);
    var out := Rebuilt(fields, rows).value;
    forall r | 0 <= r < |rows| ensures out[r] == rows[r] {
      forall name | name in Names(fields) ensures out[r][name] == rows[r][name] {
        var c :| 0 <= c < |fields| && fields[c].name == name;
        assert CellDone(fields, rows, out, c, r);
      }
    }
    assert out == rows;
  }

  lemma RebuiltSameIsTyped(fields: seq<Field>, rows: seq<GivenRow>)
    requires DistinctNames(fields) && (forall f <- fields :: f.format <= 1) && Rebuilt(fields, rows) == Some(rows)
    ensures TypedRows(fields, rows)
  {
    hide Back, Typed, RebuildFrom;
    RebuiltCells(fields, rows);
    forall c, r | 0 <= c < |fields| && 0 <= r < |rows| ensures Typed(fields[c], Lookup(rows[r], fields[c].name)) {
      assert CellDone(fields, rows, rows, c, r);
      CellRoundTripExact(fields[c], Lookup(rows[r], fields[c].name));
    }
  }

  /** An encoded batch decodes to its rows exactly when the rows are complete and typed, whatever follows it. */
  lemma BatchRoundTripExact(fields: seq<Field>, rows: seq<GivenRow>, trailing: seq<byte>)
    requires DistinctNames(fields) && (forall f <- fields :: f.format <= 1) && Encodable(fields, rows)
    ensures Decoded(Encoded(fields, rows) + trailing, fields) == Success(rows) <==> TypedRows(fields, rows)
  {
    hide Decoded, Encoded, Encodable, Rebuilt, TypedRows;
    DecodeOfEncoded(fields, rows, trailing);
    if TypedRows(fields, rows) {
      TypedRowsRebuild(fields, rows);
    }
    if Rebuilt(fields, rows) == Some(rows) {
      RebuiltSameIsTyped(fields, rows);
    }
  }

  // ----- batches put together ---------------------------------------------------------------

  lemma {:induction false} RebuildNeedsAll(fields: seq<Field>, rows: seq<GivenRow>, col: nat, row: nat, acc: seq<Row>,
                                           c: nat, r: nat)
    requires col <= |fields| && row <= |rows| == |acc| && RebuildFrom(fields, rows, col, row, acc).Some?
    requires c < |fields| && r < |rows| && (c > col || (c == col && r >= row))
    ensures Back(fields[c], Lookup(rows[r], fields[c].name)).Some?
    decreases |fields| - col, |rows| - row
  {
    hide Back;
    if row == |rows| {
      RebuildNeedsAll(fields, rows, col + 1, 0, acc, c, r);
    } else if c != col || r != row {
      var v := Back(fields[col], Lookup(rows[row], fields[col].name));
      RebuildNeedsAll(fields, rows, col, row + 1, Assign(acc, row, fields[col].name, v.value), c, r);
    }
  }

  lemma RebuiltExact(fields: seq<Field>, rows: seq<GivenRow>)
    ensures Rebuilt(fields, rows).Some? <==> AllBack(fields, rows)
  {
    hide Back, RebuildFrom;
    if Rebuilt(fields, rows).Some? {
      forall c, r | 0 <= c < |fields| && 0 <= r < |rows|
        ensures Back(fields[c], Lookup(rows[r], fields[c].name)).Some?
      {
        RebuildNeedsAll(fields, rows, 0, 0, EmptyRows(|rows|), c, r);
      }
    }
    if AllBack(fields, rows) {
      RebuildSucceeds(fields, rows, 0, 0, EmptyRows(|rows|));
    }
  }

  function Join(a: Option<seq<Row>>, b: Option<seq<Row>>): Option<seq<Row>> {
    if a.None? || b.None? then None else Some(a.value + b.value)
  }

  /** A row's cells do not depend on the batch it is in. */
  lemma SameRow(fields: seq<Field>, rows: seq<GivenRow>, others: seq<GivenRow>, r: nat, s: nat)
    requires DistinctNames(fields) && Rebuilt(fields, rows).Some? && Rebuilt(fields, others).Some?
    requires r < |rows| && s < |others| && rows[r] == others[s]
    ensures |Rebuilt(fields, rows).value| == |rows| && |Rebuilt(fields, others).value| == |others|
    ensures Rebuilt(fields, rows).value[r] == Rebuilt(fields, others).value[s]
  {
    hide Back, Rebuilt;
    RebuiltCells(fields, rows);
    RebuiltCells(fields, others);
    var a, b := Rebuilt(fields, rows).value, Rebuilt(fields, others).value;
    forall name | name in Names(fields) ensures a[r][name] == b[s][name] {
      var c :| 0 <= c < |fields| && fields[c].name == name;
      assert CellDone(fields, rows, a, c, r) && CellDone(fields, others, b, c, s);
    }
    assert a[r] == b[s];
  }

  lemma AllBackAppend(fields: seq<Field>, rows: seq<GivenRow>, more: seq<GivenRow>)
    ensures AllBack(fields, rows + more) <==> AllBack(fields, rows) && AllBack(fields, more)
  {
    hide Back;
    var all := rows + more;
    if AllBack(fields, all) {
      forall c, r | 0 <= c < |fields| && 0 <= r < |rows|
        ensures Back(fields[c], Lookup(rows[r], fields[c].name)).Some?
      {
        assert all[r] == rows[r];
      }
      forall c, r | 0 <= c < |fields| && 0 <= r < |more|
        ensures Back(fields[c], Lookup(more[r], fields[c].name)).Some?
      {
        assert all[|rows| + r] == more[r];
      }
    }
  }

  /** Decoding two batches gives what decoding one batch of all their rows gives. */
  lemma RebuiltAppend(fields: seq<Field>, rows: seq<GivenRow>, more: seq<GivenRow>)
    requires DistinctNames(fields)
    ensures Rebuilt(fields, rows + more) == Join(Rebuilt(fields, rows), Rebuilt(fields, more))
  {
    hide Back, Rebuilt, AllBack;
    var all := rows + more;
    RebuiltExact(fields, all);
    RebuiltExact(fields, rows);
    RebuiltExact(fields, more);
    AllBackAppend(fields, rows, more);
    if AllBack(fields, all) {
      RebuiltCells(fields, all);
      RebuiltCells(fields, rows);
      RebuiltCells(fields, more);
      var a, b, ab := Rebuilt(fields, rows).value, Rebuilt(fields, more).value, Rebuilt(fields, all).value;
      forall i | 0 <= i < |all| ensures ab[i] == (a + b)[i] {
        if i < |rows| {
          SameRow(fields, all, rows, i, i);
        } else {
          SameRow(fields, all, more, i, i - |rows|);
        }
      }
      assert ab == a + b;
    }
  }
}
