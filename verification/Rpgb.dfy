/** The column-major batch format RPGB v1 (src/pg-binary-encode.ts, src/pg-binary-decode.ts). */
module Rpgb {
  import opened Wrappers
  import opened Bytes
  import opened Cells

  type Row = map<string, Value>
  type GivenRow = map<string, Given>
  type Cell = Option<seq<byte>>

  const MAGIC := 0x42504752
  const VERSION := 1

  /** A missing property reads as undefined, which is encoded as null. */
  function Lookup(row: GivenRow, name: string): Given {
    if name in row then row[name] else Null
  }

  // ----- encoding ---------------------------------------------------------------------------

  /** None inside is a null cell; None outside, that encoding the value throws. */
  function CellOf(field: Field, v: Given): (cell: Option<Cell>)
    ensures cell.Some? && cell.value.Some? ==> |cell.value.value| < TWO_32
  {
    if v.Null? then Some(None)
    else
      var bytes := EncodeCell(field, v);
      if bytes.None? || |bytes.value| >= TWO_32 then None else Some(bytes)
  }

  /** The cells from a column and row on, one column after the other. */
  function CellsFrom(fields: seq<Field>, rows: seq<GivenRow>, col: nat, row: nat): Option<seq<Cell>>
    requires col <= |fields| && row <= |rows|
    decreases |fields| - col, |rows| - row
  {
    if col == |fields| then Some([])
    else if row == |rows| then CellsFrom(fields, rows, col + 1, 0)
    else
      var cell := CellOf(fields[col], Lookup(rows[row], fields[col].name));
      var rest := CellsFrom(fields, rows, col, row + 1);
      if cell.None? || rest.None? then None else Some([cell.value] + rest.value)
  }

  function PutCell(cell: Cell): seq<byte>
    requires cell.Some? ==> |cell.value| < TWO_32
  {
    if cell.None? then [1] else [0] + PutLE32(|cell.value|) + cell.value
  }

  ghost predicate Short(cells: seq<Cell>) {
    forall k :: 0 <= k < |cells| && cells[k].Some? ==> |cells[k].value| < TWO_32
  }

  /** The bytes of the first n cells. */
  ghost function Body(cells: seq<Cell>, n: nat): seq<byte>
    requires n <= |cells| && Short(cells)
  {
    if n == 0 then [] else Body(cells, n - 1) + PutCell(cells[n - 1])
  }

  function Header(numRows: nat, numCols: nat): (r: seq<byte>)
    requires numRows < TWO_32 && numCols < TWO_32
    ensures |r| == 16
  {
    PutLE32(MAGIC) + PutLE32(VERSION) + PutLE32(numRows) + PutLE32(numCols)
  }

  ghost predicate Encodable(fields: seq<Field>, rows: seq<GivenRow>) {
    |fields| < TWO_32 && |rows| < TWO_32 && CellsFrom(fields, rows, 0, 0).Some?
  }

  lemma {:induction false} CellsAreShort(fields: seq<Field>, rows: seq<GivenRow>, col: nat, row: nat)
    requires col <= |fields| && row <= |rows| && CellsFrom(fields, rows, col, row).Some?
    ensures Short(CellsFrom(fields, rows, col, row).value)
    decreases |fields| - col, |rows| - row
  {
    hide EncodeCell;
    if col < |fields| {
      if row == |rows| {
        CellsAreShort(fields, rows, col + 1, 0);
      } else {
        CellsAreShort(fields, rows, col, row + 1);
      }
    }
  }

  ghost function Encoded(fields: seq<Field>, rows: seq<GivenRow>): seq<byte>
    requires Encodable(fields, rows)
  {
    var cells := CellsFrom(fields, rows, 0, 0).value;
    CellsAreShort(fields, rows, 0, 0);
    Header(|rows|, |fields|) + Body(cells, |cells|)
  }

  /** The cells already pushed, and the rest. */
  function PutBefore(cells: seq<Cell>, rest: Option<seq<Cell>>): Option<seq<Cell>> {
    if rest.None? then None else Some(cells + rest.value)
  }

  lemma PushCell(fields: seq<Field>, rows: seq<GivenRow>, col: nat, row: nat, cells: seq<Cell>)
    requires col < |fields| && row < |rows|
    ensures var cell := CellOf(fields[col], Lookup(rows[row], fields[col].name));
      PutBefore(cells, CellsFrom(fields, rows, col, row))
      == if cell.None? then None else PutBefore(cells + [cell.value], CellsFrom(fields, rows, col, row + 1))
  {
    hide CellOf;
    var cell := CellOf(fields[col], Lookup(rows[row], fields[col].name));
    var rest := CellsFrom(fields, rows, col, row + 1);
    if cell.Some? && rest.Some? {
      assert cells + ([cell.value] + rest.value) == cells + [cell.value] + rest.value;
    }
  }

  lemma NextColumn(fields: seq<Field>, rows: seq<GivenRow>, col: nat)
    requires col < |fields|
    ensures CellsFrom(fields, rows, col, |rows|) == CellsFrom(fields, rows, col + 1, 0)
  {
  }

  lemma LastColumn(fields: seq<Field>, rows: seq<GivenRow>, cells: seq<Cell>)
    ensures PutBefore(cells, CellsFrom(fields, rows, |fields|, 0)) == Some(cells)
  {
    assert cells + [] == cells;
  }

  /** The first pass has come to this cell. */
  ghost predicate Collected(fields: seq<Field>, rows: seq<GivenRow>, col: nat, row: nat, cells: seq<Cell>, size: nat) {
    && col <= |fields| && row <= |rows| && Short(cells) && size == 16 + |Body(cells, |cells|)|
    && PutBefore(cells, CellsFrom(fields, rows, col, row)) == CellsFrom(fields, rows, 0, 0)
  }

  lemma CollectedNone(fields: seq<Field>, rows: seq<GivenRow>)
    ensures Collected(fields, rows, 0, 0, [], 16)
  {
    hide CellsFrom;
    var whole := CellsFrom(fields, rows, 0, 0);
    assert whole.Some? ==> [] + whole.value == whole.value;
  }

  lemma CollectedOne(fields: seq<Field>, rows: seq<GivenRow>, col: nat, row: nat, cells: seq<Cell>, size: nat)
    requires Collected(fields, rows, col, row, cells, size) && col < |fields| && row < |rows|
    ensures var cell := CellOf(fields[col], Lookup(rows[row], fields[col].name));
      if cell.None? then CellsFrom(fields, rows, 0, 0).None?
      else Collected(fields, rows, col, row + 1, cells + [cell.value],
                     size + if cell.value.None? then 1 else 5 + |cell.value.value|)
  {
    hide CellOf, CellsFrom, Body, PutBefore, Short;
    PushCell(fields, rows, col, row, cells);
    var cell := CellOf(fields[col], Lookup(rows[row], fields[col].name));
    if cell.Some? {
      BodyGrows(cells, cell.value);
    }
  }

  lemma CollectedColumn(fields: seq<Field>, rows: seq<GivenRow>, col: nat, cells: seq<Cell>, size: nat)
    requires Collected(fields, rows, col, |rows|, cells, size) && col < |fields|
    ensures Collected(fields, rows, col + 1, 0, cells, size)
  {
    hide CellsFrom, Body, PutBefore, Short;
    NextColumn(fields, rows, col);
  }

  lemma CollectedAll(fields: seq<Field>, rows: seq<GivenRow>, cells: seq<Cell>, size: nat)
    requires Collected(fields, rows, |fields|, 0, cells, size)
    ensures CellsFrom(fields, rows, 0, 0) == Some(cells) && Short(cells) && size == 16 + |Body(cells, |cells|)|
  {
    hide CellsFrom, Body, Short;
    LastColumn(fields, rows, cells);
  }

  /** The first half of encodeRawPgBatch: collect the cells and add up their sizes. */
  method CollectCells(fields: seq<Field>, rows: seq<GivenRow>) returns (ok: bool, cells: seq<Cell>, totalSize: nat)
    ensures ok == CellsFrom(fields, rows, 0, 0).Some?
    ensures ok ==> cells == CellsFrom(fields, rows, 0, 0).value && Short(cells)
    ensures ok ==> totalSize == 16 + |Body(cells, |cells|)|
  {
    hide CellOf, CellsFrom, PutBefore, Body, Short, Collected;
    ok, cells, totalSize := true, [], 16;
    CollectedNone(fields, rows);
    for col := 0 to |fields|
      invariant Collected(fields, rows, col, 0, cells, totalSize)
    {
      for row := 0 to |rows|
        invariant Collected(fields, rows, col, row, cells, totalSize)
      {
        CollectedOne(fields, rows, col, row, cells, totalSize);
        var cell := CellOf(fields[col], Lookup(rows[row], fields[col].name));
        if cell.None? {
          return false, [], 0;
        }
        totalSize := totalSize + if cell.value.None? then 1 else 5 + |cell.value.value|;
        cells := cells + [cell.value];
      }
      CollectedColumn(fields, rows, col, cells, totalSize);
    }
    CollectedAll(fields, rows, cells, totalSize);
  }

  lemma {:induction false} BodyOfPrefix(cells: seq<Cell>, more: seq<Cell>, n: nat)
    requires n <= |cells| && Short(cells) && Short(cells + more)
    ensures Body(cells + more, n) == Body(cells, n)
  {
    if n > 0 {
      BodyOfPrefix(cells, more, n - 1);
    }
  }

  lemma BodyGrows(cells: seq<Cell>, cell: Cell)
    requires Short(cells) && (cell.Some? ==> |cell.value| < TWO_32)
    ensures Short(cells + [cell])
    ensures |Body(cells + [cell], |cells| + 1)| == |Body(cells, |cells|)| + if cell.None? then 1 else 5 + |cell.value|
  {
    BodyOfPrefix(cells, [cell], |cells|);
  }

  /** copy and the fixed-width writers. */
  method WriteAt(out: array<byte>, offset: nat, bytes: seq<byte>)
    requires offset + |bytes| <= out.Length
    modifies out
    ensures out[..offset] == old(out[..offset])
    ensures out[offset..offset + |bytes|] == bytes
  {
    for i := 0 to |bytes|
      invariant out[..offset] == old(out[..offset])
      invariant out[offset..offset + i] == bytes[..i]
    {
      out[offset + i] := bytes[i];
      assert out[offset..offset + i + 1] == out[offset..offset + i] + [bytes[i]];
    }
  }

  method Append(out: array<byte>, offset: nat, bytes: seq<byte>, ghost written: seq<byte>) returns (next: nat)
    requires offset + |bytes| <= out.Length && out[..offset] == written
    modifies out
    ensures next == offset + |bytes| && out[..next] == written + bytes
  {
    WriteAt(out, offset, bytes);
    next := offset + |bytes|;
    assert out[..next] == out[..offset] + out[offset..next];
  }

  lemma {:induction false} BodyFits(cells: seq<Cell>, n: nat, m: nat)
    requires n <= m <= |cells| && Short(cells)
    ensures Body(cells, n) <= Body(cells, m)
    decreases m
  {
    hide PutCell;
    if n < m {
      BodyFits(cells, n, m - 1);
    }
  }

  method WriteHeader(out: array<byte>, numRows: nat, numCols: nat) returns (offset: nat)
    requires out.Length >= 16 && numRows < TWO_32 && numCols < TWO_32
    modifies out
    ensures offset == 16 && out[..offset] == Header(numRows, numCols)
  {
    hide PutLE32;
    offset := Append(out, 0, PutLE32(MAGIC), []);
    offset := Append(out, offset, PutLE32(VERSION), out[..offset]);
    offset := Append(out, offset, PutLE32(numRows), out[..offset]);
    offset := Append(out, offset, PutLE32(numCols), out[..offset]);
  }

  method WriteCell(out: array<byte>, start: nat, cell: Cell, ghost written: seq<byte>) returns (offset: nat)
    requires (cell.Some? ==> |cell.value| < TWO_32) && start + |PutCell(cell)| <= out.Length && out[..start] == written
    modifies out
    ensures offset == start + |PutCell(cell)| && out[..offset] == written + PutCell(cell)
  {
    hide PutLE32;
    if cell.None? {
      offset := Append(out, start, [1], written);
    } else {
      offset := Append(out, start, [0], written);
      offset := Append(out, offset, PutLE32(|cell.value|), out[..offset]);
      offset := Append(out, offset, cell.value, out[..offset]);
    }
  }

  lemma BodyStart(cells: seq<Cell>, header: seq<byte>)
    requires Short(cells)
    ensures Body(cells, 0) == [] && header + Body(cells, 0) == header
  {
  }

  lemma BodyNext(cells: seq<Cell>, i: nat, header: seq<byte>)
    requires i < |cells| && Short(cells)
    ensures Body(cells, i + 1) == Body(cells, i) + PutCell(cells[i])
    ensures header + Body(cells, i) + PutCell(cells[i]) == header + Body(cells, i + 1)
  {
    hide PutCell;
  }

  /** The second half: one buffer of the size computed, filled cell by cell. */
  method WriteCells(cells: seq<Cell>, totalSize: nat, numRows: nat, numCols: nat) returns (r: seq<byte>)
    requires Short(cells) && totalSize == 16 + |Body(cells, |cells|)| && numRows < TWO_32 && numCols < TWO_32
    ensures r == Header(numRows, numCols) + Body(cells, |cells|)
  {
    hide Header, PutCell, Body;
    BodyStart(cells, Header(numRows, numCols));
    var out := new byte[totalSize](_ => 0);
    ghost var header := Header(numRows, numCols);
    var offset := WriteHeader(out, numRows, numCols);
    for i := 0 to |cells|
      invariant offset == 16 + |Body(cells, i)| <= out.Length && out[..offset] == header + Body(cells, i)
    {
      BodyFits(cells, i + 1, |cells|);
      BodyNext(cells, i, header);
      offset := WriteCell(out, offset, cells[i], header + Body(cells, i));
    }
    assert out[..offset] == out[..];
    r := out[..];
  }

  method EncodeRawPgBatch(fields: seq<Field>, rows: seq<GivenRow>) returns (ok: bool, out: seq<byte>)
    ensures ok == Encodable(fields, rows)
    ensures ok ==> out == Encoded(fields, rows)
  {
    hide CellsFrom, Body;
    var cells, totalSize;
    ok, cells, totalSize := CollectCells(fields, rows);
    out := [];
    if !ok || |fields| >= TWO_32 || |rows| >= TWO_32 {
      return false, out;
    }
    out := WriteCells(cells, totalSize, |rows|, |fields|);
  }

  // ----- decoding ---------------------------------------------------------------------------

  datatype Error =
    TooShort | BadMagic | BadVersion | ColumnMismatch | Truncated | TruncatedAtLength | TruncatedAtValue | BadCell

  datatype ReadResult = Read(cell: Cell, next: nat)

  function ReadCell(b: seq<byte>, offset: nat): (r: Result<ReadResult, Error>)
    ensures r.Success? ==> offset < r.value.next <= |b|
  {
    if offset >= |b| then Failure(Truncated)
    else if b[offset] != 0 then Success(Read(None, offset + 1))
    else if offset + 5 > |b| then Failure(TruncatedAtLength)
    else
      var len := LE32(b, offset + 1);
      if offset + 5 + len > |b| then Failure(TruncatedAtValue)
      else Success(Read(Some(b[offset + 5..offset + 5 + len]), offset + 5 + len))
  }

  function DecodeOne(field: Field, cell: Cell): Option<Value> {
    if cell.None? then Some(Null) else DecodeCell(field, cell.value)
  }

  /** rows[row][name] = value. */
  function Assign(rows: seq<Row>, row: nat, name: string, v: Value): (r: seq<Row>)
    requires row < |rows|
    ensures |r| == |rows|
  {
    rows[row := rows[row][name := v]]
  }

  /** The rows after reading from a column and row on. */
  function DecodeFrom(b: seq<byte>, offset: nat, fields: seq<Field>, col: nat, row: nat,
                      rows: seq<Row>): Result<seq<Row>, Error>
    requires col <= |fields| && row <= |rows|
    decreases |fields| - col, |rows| - row
  {
    if col == |fields| then Success(rows)
    else if row == |rows| then DecodeFrom(b, offset, fields, col + 1, 0, rows)
    else
      var read := ReadCell(b, offset);
      if read.Failure? then Failure(read.error)
      else
        var v := DecodeOne(fields[col], read.value.cell);
        if v.None? then Failure(BadCell)
        else DecodeFrom(b, read.value.next, fields, col, row + 1, Assign(rows, row, fields[col].name, v.value))
  }

  function EmptyRows(n: nat): (r: seq<Row>)
    ensures |r| == n && forall k :: 0 <= k < n ==> r[k] == map[]
  {
    seq(n, _ => map[])
  }

  function CheckHeader(b: seq<byte>, numFields: nat): Option<Error> {
    if |b| < 16 then Some(TooShort)
    else if LE32(b, 0) != MAGIC then Some(BadMagic)
    else if LE32(b, 4) != VERSION then Some(BadVersion)
    else if LE32(b, 12) != numFields then Some(ColumnMismatch)
    else None
  }

  function Decoded(payload: seq<byte>, fields: seq<Field>): Result<seq<Row>, Error> {
    if payload == [] then Success([])
    else
      var bad := CheckHeader(payload, |fields|);
      if bad.Some? then Failure(bad.value) else DecodeFrom(payload, 16, fields, 0, 0, EmptyRows(LE32(payload, 8)))
  }

  method DecodeRawPgBatch(payload: seq<byte>, fields: seq<Field>) returns (r: Result<seq<Row>, Error>)
    ensures r == Decoded(payload, fields)
  {
    hide DecodeOne, LE32, ReadCell;
    if |payload| == 0 {
      return Success([]);
    }
    var bad := CheckHeader(payload, |fields|);
    if bad.Some? {
      return Failure(bad.value);
    }
    var numRows := LE32(payload, 8);
    var rows := EmptyRows(numRows);
    var offset := 16;
    ghost var whole := DecodeFrom(payload, 16, fields, 0, 0, rows);
    for col := 0 to |fields|
      invariant |rows| == numRows && DecodeFrom(payload, offset, fields, col, 0, rows) == whole
    {
      for row := 0 to numRows
        invariant |rows| == numRows && DecodeFrom(payload, offset, fields, col, row, rows) == whole
      {
        var read := ReadCell(payload, offset);
        if read.Failure? {
          return Failure(read.error);
        }
        var v := DecodeOne(fields[col], read.value.cell);
        if v.None? {
          return Failure(BadCell);
        }
        offset := read.value.next;
        rows := Assign(rows, row, fields[col].name, v.value);
      }
    }
    return Success(rows);
  }
}
