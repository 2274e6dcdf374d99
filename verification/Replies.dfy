/** The frames a result is sent in (rowDescription, dataRow and encodeResult of src/proxy/pg-wire.ts), read back. */
module Replies {
  import opened Wrappers
  import opened Bytes
  import opened Wire
  import opened Framing
  import opened Chunking
  import Cells

  type int32 = v: int | -TWO_31 <= v < TWO_31

  /** The name is its UTF-8 bytes; a type of 0 stands for an undefined one. */
  datatype Column = Column(name: Text, oid: int32)

  /** A row is a list of cells or an object with a cell per name. */
  datatype RowValue = List(cells: Params) | ByName(named: map<Text, Option<Text>>)

  datatype Result = Result(command: Text, rowCount: nat, columns: seq<Column>, rows: seq<RowValue>)

  const ROW_DESCRIPTION: byte := 84   // T
  const DATA_ROW: byte := 68          // D
  const COMMAND_COMPLETE: byte := 67  // C
  const TEXT_OID := 25
  const INSERT: Text := [73, 78, 83, 69, 82, 84]
  const SET: Text := [83, 69, 84]
  const SELECT: Text := [83, 69, 76, 69, 67, 84]

  function OidOf(column: Column): int32 { if column.oid == 0 then TEXT_OID else column.oid }

  /** A name, then table, attribute, type, length, modifier and format. */
  function PutColumn(column: Column): seq<byte> {
    column.name + [0] + (PutI32(0) + PutI16(0) + PutI32(OidOf(column)) + PutI16(-1) + PutI32(-1) + PutI16(0))
  }

  function PutColumns(columns: seq<Column>): seq<byte> {
    if columns == [] then [] else PutColumn(columns[0]) + PutColumns(columns[1..])
  }

  function RowDescription(columns: seq<Column>): (m: Message)
    requires |columns| < 0x8000
    ensures m.Frame?
  {
    Frame(ROW_DESCRIPTION, PutI16(|columns|) + PutColumns(columns))
  }

  function DataRow(values: Params): (m: Message)
    requires Sendable(values)
    ensures m.Frame?
  {
    Frame(DATA_ROW, PutI16(|values|) + PutParams(values))
  }

  function CommandComplete(tag: Text): Message { Frame(COMMAND_COMPLETE, tag + [0]) }

  function TagOf(r: Result): Text {
    var command := if r.command == [] then SELECT else r.command;
    if r.columns == [] && command == SET then SET
    else command + (if command == INSERT then [32, 48, 32] else [32]) + Cells.Decimal(r.rowCount)
  }

  function Named(cells: map<Text, Option<Text>>, columns: seq<Column>): (r: Params)
    ensures |r| == |columns|
  {
    seq(|columns|, i requires 0 <= i < |columns| => if columns[i].name in cells then cells[columns[i].name] else None)
  }

  /** The cells sent for a row. */
  function CellsOf(row: RowValue, columns: seq<Column>): Params {
    match row
    case List(cells) => cells
    case ByName(named) => Named(named, columns)
  }

  /** The cells of every row. */
  function CellLists(r: Result): (lists: seq<Params>)
    ensures |lists| == |r.rows|
  {
    seq(|r.rows|, i requires 0 <= i < |r.rows| => CellsOf(r.rows[i], r.columns))
  }

  /** Counts and lengths fit their fields, names and tags hold no NUL. */
  ghost predicate Sized(r: Result) {
    && |r.columns| < 0x8000
    && |PutColumns(r.columns)| < TWO_31 - 8
    && (forall c <- r.columns :: NulFree(c.name))
    && NulFree(r.command) && |TagOf(r)| < TWO_31 - 8
    && (forall i :: 0 <= i < |r.rows| ==> SizedRow(CellLists(r)[i]))
  }

  ghost predicate SizedRow(values: Params) {
    Sendable(values) && |PutParams(values)| < TWO_31 - 8
  }

  function DataRows(lists: seq<Params>): (r: seq<Message>)
    requires forall i :: 0 <= i < |lists| ==> SizedRow(lists[i])
    ensures |r| == |lists|
  {
    seq(|lists|, i requires 0 <= i < |lists| =>
      assert SizedRow(lists[i]);
      DataRow(lists[i]))
  }

  /** The frames of a result: rows are sent only when there are columns. */
  function FramesOf(r: Result): seq<Message>
    requires Sized(r)
  {
    (if r.columns == [] then [] else [RowDescription(r.columns)] + DataRows(CellLists(r))) + [CommandComplete(TagOf(r))]
  }

  // ----- the writers ------------------------------------------------------------------------

  lemma {:induction false} PutColumnsSnoc(columns: seq<Column>, column: Column)
    ensures PutColumns(columns + [column]) == PutColumns(columns) + PutColumn(column)
    decreases |columns|
  {
    hide PutColumn;
    if columns == [] {
      assert ([] + [column])[1..] == [];
    } else {
      assert (columns + [column])[1..] == columns[1..] + [column];
      PutColumnsSnoc(columns[1..], column);
    }
  }

  method WriteRowDescription(columns: seq<Column>) returns (m: Message)
    requires |columns| < 0x8000
    ensures m == RowDescription(columns)
  {
    hide PutI16, PutColumn;
    var parts := PutI16(|columns|);
    for i := 0 to |columns|
      invariant parts == PutI16(|columns|) + PutColumns(columns[..i])
    {
      assert columns[..i + 1] == columns[..i] + [columns[i]];
      PutColumnsSnoc(columns[..i], columns[i]);
      parts := parts + PutColumn(columns[i]);
    }
    assert columns[..|columns|] == columns;
    m := Frame(ROW_DESCRIPTION, parts);
  }

  lemma NextParam(values: Params, i: nat)
    requires ShortValues(values) && i < |values|
    ensures ShortValues(values[i..]) && ShortValues(values[i + 1..]) && (values[i].Some? ==> |values[i].value| < TWO_31)
    ensures PutParams(values[i..]) == PutParam(values[i]) + PutParams(values[i + 1..])
  {
    hide PutParam;
    assert values[i..][1..] == values[i + 1..];
  }

  lemma ParamsEnds(values: Params)
    requires ShortValues(values)
    ensures ShortValues(values[0..]) && PutParams(values[0..]) == PutParams(values)
    ensures ShortValues(values[|values|..]) && PutParams(values[|values|..]) == []
  {
    assert values[0..] == values && values[|values|..] == [];
  }

  method WriteDataRow(values: Params) returns (m: Message)
    requires Sendable(values)
    ensures m == DataRow(values)
  {
    hide PutI16, PutI32, PutParams, ShortValues;
    ghost var payload := PutI16(|values|) + PutParams(values);
    ParamsEnds(values);
    var parts := PutI16(|values|);
    for i := 0 to |values|
      invariant ShortValues(values[i..]) && parts + PutParams(values[i..]) == payload
    {
      var v := values[i];
      NextParam(values, i);
      assert parts + (PutParam(v) + PutParams(values[i + 1..])) == parts + PutParam(v) + PutParams(values[i + 1..]);
      if v.None? {
        parts := parts + PutI32(-1);
      } else {
        parts := parts + (PutI32(|v.value|) + v.value);
      }
    }
    assert parts + [] == parts;
    m := Frame(DATA_ROW, parts);
  }

  method EncodeResult(r: Result) returns (chunks: seq<Message>)
    requires Sized(r)
    ensures chunks == FramesOf(r)
  {
    hide TagOf, RowDescription, DataRow, PutColumns, PutParams;
    chunks := [];
    if |r.columns| > 0 {
      var description := WriteRowDescription(r.columns);
      chunks := [description];
      for i := 0 to |r.rows|
        invariant |chunks| == i + 1 && chunks[0] == description
        invariant forall k :: 0 <= k < i ==> chunks[k + 1] == DataRow(CellLists(r)[k])
      {
        assert SizedRow(CellLists(r)[i]);
        var row := WriteDataRow(CellsOf(r.rows[i], r.columns));
        chunks := chunks + [row];
      }
      assert chunks == [description] + DataRows(CellLists(r));
    }
    chunks := chunks + [CommandComplete(TagOf(r))];
  }

  // ----- reading back -----------------------------------------------------------------------

  /** A client's reading of a RowDescription: names and types; None where it does not parse. */
  function ReadColumns(b: seq<byte>, at: nat, count: nat): Option<seq<Column>>
    decreases count
  {
    if count == 0 then (if at == |b| then Some([]) else None)
    else
      var name := ReadCString(b, at);
      if name.None? || name.value.next + 18 > |b| then None
      else
        var rest := ReadColumns(b, name.value.next + 18, count - 1);
        if rest.None? then None else Some([Column(name.value.value, I32(b, name.value.next + 6))] + rest.value)
  }

  function ReadRowDescription(payload: seq<byte>): Option<seq<Column>> {
    if |payload| < 2 || I16(payload, 0) < 0 then None else ReadColumns(payload, 2, I16(payload, 0))
  }

  function ReadDataRow(payload: seq<byte>): Option<Params> {
    if |payload| < 2 || I16(payload, 0) < 0 then None else ReadParams(payload, 2, I16(payload, 0))
  }

  function ReadTag(payload: seq<byte>): Option<Text> {
    var tag := ReadCString(payload, 0);
    if tag.None? || tag.value.next != |payload| then None else Some(tag.value.value)
  }

  function Filled(columns: seq<Column>): (r: seq<Column>)
    ensures |r| == |columns|
  {
    seq(|columns|, i requires 0 <= i < |columns| => columns[i].(oid := OidOf(columns[i])))
  }

  lemma ColumnReadsBack(b: seq<byte>, at: nat, column: Column)
    requires NulFree(column.name) && at + |PutColumn(column)| <= |b|
      && b[at..at + |PutColumn(column)|] == PutColumn(column)
    ensures |PutColumn(column)| == |column.name| + 19
    ensures ReadCString(b, at) == Some(CString(column.name, at + |column.name| + 1))
    ensures I32(b, at + |column.name| + 7) == OidOf(column)
  {
    hide PutI32, PutI16, I32, ReadCString;
    var put := PutColumn(column);
    var n := |column.name|;
    assert b[at..at + |put|][..n] == b[at..at + n] == column.name;
    assert b[at + n] == b[at..at + |put|][n] == 0;
    CStringInverse(b, at, column.name);
    var tail := PutI32(0) + PutI16(0) + PutI32(OidOf(column)) + PutI16(-1) + PutI32(-1) + PutI16(0);
    assert put == column.name + [0] + tail && tail[6..10] == PutI32(OidOf(column));
    assert put[n + 7..n + 11] == tail[6..10];
    PartOfPart(b, at, |put|, n + 7, n + 11);
    I32Inverse(OidOf(column), b, at + n + 7);
  }

  lemma {:induction false} ColumnsReadBack(b: seq<byte>, at: nat, columns: seq<Column>)
    requires (forall c <- columns :: NulFree(c.name)) && at <= |b| && b[at..] == PutColumns(columns)
    ensures ReadColumns(b, at, |columns|) == Some(Filled(columns))
    decreases |columns|
  {
    hide PutColumn, ReadCString, I32, NulFree;
    if columns == [] {
    } else {
      var put := PutColumn(columns[0]);
      assert columns[0] in columns && forall c <- columns[1..] :: c in columns;
      assert b[at..at + |put|] == b[at..][..|put|] == put;
      ColumnReadsBack(b, at, columns[0]);
      assert b[at + |put|..] == b[at..][|put|..] == PutColumns(columns[1..]);
      ColumnsReadBack(b, at + |put|, columns[1..]);
      assert Filled(columns) == [Filled(columns)[0]] + Filled(columns[1..]);
    }
  }

  lemma DescriptionReadsBack(columns: seq<Column>)
    requires |columns| < 0x8000 && forall c <- columns :: NulFree(c.name)
    ensures ReadRowDescription(RowDescription(columns).payload) == Some(Filled(columns))
  {
    hide PutI16, I16, PutColumns, ReadColumns;
    var b := RowDescription(columns).payload;
    assert b[0..2] == PutI16(|columns|) && b[2..] == PutColumns(columns);
    I16Inverse(|columns|, b, 0);
    ColumnsReadBack(b, 2, columns);
  }

  lemma DataRowReadsBack(values: Params)
    requires Sendable(values)
    ensures ReadDataRow(DataRow(values).payload) == Some(values)
  {
    hide PutI16, I16, PutParams, ReadParams;
    var b := DataRow(values).payload;
    assert b[0..2] == PutI16(|values|) && b[2..] == PutParams(values);
    I16Inverse(|values|, b, 0);
    ParamsInverse(b, 2, values);
  }

  lemma TagReadsBack(r: Result)
    requires NulFree(r.command)
    ensures ReadTag(CommandComplete(TagOf(r)).payload) == Some(TagOf(r))
  {
    var tag := TagOf(r);
    var b := tag + [0];
    assert 0 !in Cells.Decimal(r.rowCount);
    assert NulFree(tag);
    assert b[0..|tag|] == tag;
    CStringInverse(b, 0, tag);
  }

  lemma AllOrdinary(r: Result)
    requires Sized(r)
    ensures forall m <- FramesOf(r) :: Ordinary(m)
  {
    hide PutColumns, PutParams, PutI16, TagOf, CellLists;
    forall m | m in DataRows(CellLists(r)) ensures Ordinary(m) {
      var i :| 0 <= i < |r.rows| && DataRows(CellLists(r))[i] == m;
      assert SizedRow(CellLists(r)[i]);
    }
    assert Ordinary(RowDescription(r.columns)) && Ordinary(CommandComplete(TagOf(r)));
  }

  /** What a client makes of the frames of one result. */
  datatype Reply = Reply(columns: Option<seq<Column>>, rows: seq<Params>, tag: Text)

  /** Any number of DataRows and then one CommandComplete. */
  function ReadRows(frames: seq<Message>): Option<(seq<Params>, Text)> {
    if frames == [] || !frames[0].Frame? then None
    else if frames[0].kind == COMMAND_COMPLETE then
      var tag := ReadTag(frames[0].payload);
      if tag.None? || |frames| > 1 then None else Some(([], tag.value))
    else if frames[0].kind == DATA_ROW then
      var row := ReadDataRow(frames[0].payload);
      var rest := ReadRows(frames[1..]);
      if row.None? || rest.None? then None else Some(([row.value] + rest.value.0, rest.value.1))
    else None
  }

  /** A RowDescription, if there is one, and then the rows. */
  function ReadReply(frames: seq<Message>): Option<Reply> {
    if frames != [] && frames[0].Frame? && frames[0].kind == ROW_DESCRIPTION then
      var columns := ReadRowDescription(frames[0].payload);
      var rest := ReadRows(frames[1..]);
      if columns.None? || rest.None? then None else Some(Reply(columns, rest.value.0, rest.value.1))
    else
      var rest := ReadRows(frames);
      if rest.None? then None else Some(Reply(None, rest.value.0, rest.value.1))
  }

  lemma {:induction false} RowsReadBack(lists: seq<Params>, tag: Text)
    requires (forall i :: 0 <= i < |lists| ==> SizedRow(lists[i])) && ReadTag(CommandComplete(tag).payload) == Some(tag)
    ensures ReadRows(DataRows(lists) + [CommandComplete(tag)]) == Some((lists, tag))
    decreases |lists|
  {
    hide ReadDataRow, ReadTag, SizedRow, PutParams, PutI16;
    var frames := DataRows(lists) + [CommandComplete(tag)];
    if lists == [] {
    } else {
      SizedIsSendable(lists[0]);
      DataRowReadsBack(lists[0]);
      RowsReadBack(lists[1..], tag);
      assert frames[1..] == DataRows(lists[1..]) + [CommandComplete(tag)];
      assert [lists[0]] + lists[1..] == lists;
    }
  }

  lemma SizedIsSendable(values: Params)
    requires SizedRow(values)
    ensures Sendable(values)
  {
  }

  lemma FramesParse(r: Result)
    requires Sized(r)
    ensures (forall m <- FramesOf(r) :: Ordinary(m))
      && Parse([], Ready, PutFrames(FramesOf(r))) == Open(FramesOf(r), Ready, [])
  {
    hide FramesOf, PutFrames, Parse, Ordinary, Sized;
    AllOrdinary(r);
    FramesReadBack([], FramesOf(r));
  }

  lemma ReplyWithColumns(r: Result)
    requires Sized(r) && r.columns != []
    ensures ReadReply(FramesOf(r)) == Some(Reply(Some(Filled(r.columns)), CellLists(r), TagOf(r)))
  {
    hide PutColumns, PutParams, PutI16, TagOf, ReadTag, ReadRowDescription, ReadDataRow, CellLists, ReadRows;
    hide DataRows, Filled, NulFree;
    var tail := DataRows(CellLists(r)) + [CommandComplete(TagOf(r))];
    TagReadsBack(r);
    DescriptionReadsBack(r.columns);
    RowsReadBack(CellLists(r), TagOf(r));
    assert FramesOf(r) == [RowDescription(r.columns)] + tail;
    assert FramesOf(r)[1..] == tail;
  }

  lemma ReplyWithoutColumns(r: Result)
    requires Sized(r) && r.columns == []
    ensures ReadReply(FramesOf(r)) == Some(Reply(None, [], TagOf(r)))
  {
    hide PutColumns, PutParams, PutI16, TagOf, ReadTag, CellLists, NulFree;
    TagReadsBack(r);
    assert FramesOf(r) == [CommandComplete(TagOf(r))];
  }

  /** A text of ASCII characters as it is sent. */
  function Ascii(s: string): Text
    requires forall c <- s :: c < '\U{0080}'
  {
    seq(|s|, i requires 0 <= i < |s| => assert s[i] in s; AsciiByte(s[i]))
  }

  function AsciiByte(c: char): byte
    requires c < '\U{0080}'
  {
    c as int
  }

  /** A number in decimal digits, without leading zeros. */
  ghost predicate IsDecimal(t: Text, n: nat) {
    && t != [] && (forall d <- t :: 48 <= d <= 57) && (|t| > 1 ==> t[0] != 48)
    && Cells.BigIntOf(t) == Some(n)
  }

  lemma DecimalIs(n: nat)
    ensures IsDecimal(Cells.Decimal(n), n)
  {
    Cells.BigIntOfDecimal(n);
    if n >= 10 {
      assert Cells.Decimal(n)[0] != 48;
    }
  }

  /** The tag names the command, SELECT if there is none, and counts the rows; a SET without columns is bare. */
  ghost predicate TagSays(tag: Text, r: Result) {
    if r.columns == [] && r.command == Ascii("SET") then tag == Ascii("SET")
    else
      var word := if r.command == [] then Ascii("SELECT") else r.command;
      var head := word + if r.command == Ascii("INSERT") then Ascii(" 0 ") else Ascii(" ");
      head <= tag && IsDecimal(tag[|head|..], r.rowCount)
  }

  /** The row that a client finds: a list as it is, an object column by column under the columns' names. */
  ghost predicate RowShows(cells: Params, row: RowValue, columns: seq<Column>) {
    match row
    case List(list) => cells == list
    case ByName(named) =>
      && |cells| == |columns|
      && forall j :: 0 <= j < |columns| ==>
           cells[j] == if columns[j].name in named then named[columns[j].name] else None
  }

  /** The column that a client finds: its name, and its type, or text when the type is not known. */
  ghost predicate ColumnShows(shown: Column, column: Column) {
    shown.name == column.name && shown.oid == if column.oid == 0 then 25 else column.oid
  }

  ghost predicate Shows(reply: Reply, r: Result) {
    && TagSays(reply.tag, r)
    && if r.columns == [] then reply.columns == None && reply.rows == []
       else
         && reply.columns.Some? && |reply.columns.value| == |r.columns| && |reply.rows| == |r.rows|
         && (forall j :: 0 <= j < |r.columns| ==> ColumnShows(reply.columns.value[j], r.columns[j]))
         && (forall i :: 0 <= i < |r.rows| ==> RowShows(reply.rows[i], r.rows[i], r.columns))
  }

  lemma TagIs(r: Result)
    ensures TagSays(TagOf(r), r)
  {
    hide IsDecimal;
    DecimalIs(r.rowCount);
    assert Ascii("SET") == SET && Ascii("SELECT") == SELECT && Ascii("INSERT") == INSERT;
    assert Ascii(" 0 ") == [32, 48, 32] && Ascii(" ") == [32];
    if !(r.columns == [] && r.command == SET) {
      var word := if r.command == [] then SELECT else r.command;
      var head := word + if r.command == INSERT then Ascii(" 0 ") else Ascii(" ");
      assert TagOf(r) == head + Cells.Decimal(r.rowCount);
      assert TagOf(r)[|head|..] == Cells.Decimal(r.rowCount);
    }
  }

  /**
   The bytes of a result, read with the frame rule of the protocol and then frame by frame, show a
   client its columns, the cells of each row, in order, and its tag; without columns only the tag.
   */
  lemma ResultReadsBack(r: Result)
    requires Sized(r)
    ensures (forall m <- FramesOf(r) :: Ordinary(m))
      && Parse([], Ready, PutFrames(FramesOf(r))) == Open(FramesOf(r), Ready, [])
    ensures ReadReply(FramesOf(r)).Some? && Shows(ReadReply(FramesOf(r)).value, r)
  {
    hide Sized, FramesOf, PutFrames, Parse, Ordinary, ReadReply, TagOf, TagSays;
    FramesParse(r);
    TagIs(r);
    if r.columns == [] {
      ReplyWithoutColumns(r);
    } else {
      ReplyWithColumns(r);
    }
  }
}
