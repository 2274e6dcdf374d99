/**
 Query results as a stream of chunks (src/grpc-query-codec.ts). The metadata of a chunk stands for its
 decoded form.
 */
module Stream {
  import opened Wrappers
  import opened Sequences
  import opened Bytes
  import opened Cells
  import opened Rpgb
  import opened RpgbProofs
  import Splitter

  datatype SchemaField = SchemaField(name: string, tableOid: nat, columnId: nat, oid: nat, format: nat)

  datatype Schema = Schema(command: string, fields: seq<SchemaField>)

  datatype Trailer = Trailer(commandTag: string, rowCount: Option<nat>, oid: Option<nat>)

  /** `None` where a chunk carries no metadata; the payload may be empty. */
  datatype Chunk =
    | SchemaChunk(schema: Option<Schema>, payload: seq<byte>)
    | BatchChunk(payload: seq<byte>)
    | TrailerChunk(trailer: Option<Trailer>)
    | ErrorChunk(message: Option<string>)
    | OtherChunk

  datatype StreamError = Server(message: string) | BatchBeforeSchema | BadBatch(error: Error)

  datatype PgField = PgField(
    name: string,
    dataTypeID: Option<nat>,
    tableID: Option<nat>,
    columnID: Option<nat>,
    format: Option<nat>)

  datatype Answer = Answer(command: string, rowCount: nat, oid: Option<nat>, fields: seq<PgField>, rows: seq<Row>)

  // ----- decoding ---------------------------------------------------------------------------

  function CellField(f: SchemaField): Field { Field(f.name, f.oid, f.format) }

  function CellFields(s: Schema): seq<Field> { Map(CellField, s.fields) }

  datatype Progress = Progress(schema: Option<Schema>, trailer: Option<Trailer>, rows: seq<Row>)

  function WithRows(p: Progress, payload: seq<byte>): Result<Progress, StreamError>
    requires p.schema.Some?
  {
    var rows := Decoded(payload, CellFields(p.schema.value));
    if rows.Failure? then Failure(BadBatch(rows.error)) else Success(p.(rows := p.rows + rows.value))
  }

  /** The chunks from here on; an error chunk without a message ends the stream quietly. */
  function Absorb(chunks: seq<Chunk>, p: Progress): Result<Progress, StreamError>
    decreases chunks
  {
    if chunks == [] then Success(p)
    else
      match chunks[0]
      case ErrorChunk(message) => if message.Some? then Failure(Server(message.value)) else Success(p)
      case SchemaChunk(schema, payload) =>
        var p' := if schema.Some? then p.(schema := schema) else p;
        if p'.schema.None? || payload == [] then Absorb(chunks[1..], p')
        else
          var next := WithRows(p', payload);
          if next.Failure? then next else Absorb(chunks[1..], next.value)
      case BatchChunk(payload) =>
        if p.schema.None? then Failure(BatchBeforeSchema)
        else if payload == [] then Absorb(chunks[1..], p)
        else
          var next := WithRows(p, payload);
          if next.Failure? then next else Absorb(chunks[1..], next.value)
      case TrailerChunk(trailer) => Absorb(chunks[1..], if trailer.Some? then p.(trailer := trailer) else p)
      case OtherChunk => Absorb(chunks[1..], p)
  }

  function Upper(s: string): string { Map(Splitter.FoldCase, s) }

  /** The text up to the first white space. */
  function FirstToken(s: string): string {
    if s == "" || Splitter.IsSpace(s[0]) then "" else [s[0]] + FirstToken(s[1..])
  }

  function CommandFromTag(tag: string, fallback: Option<string>): string {
    var token := FirstToken(Splitter.Trim(tag));
    if token != "" then Upper(token) else if fallback.Some? then fallback.value else "SELECT"
  }

  function PgFieldOf(f: SchemaField): PgField {
    PgField(f.name, Some(f.oid), Some(f.tableOid), Some(f.columnId), Some(f.format))
  }

  function Finish(p: Progress): Answer {
    var fallback := if p.schema.None? then None else Some(p.schema.value.command);
    Answer(
      CommandFromTag(if p.trailer.None? then "" else p.trailer.value.commandTag, fallback),
      if p.trailer.Some? && p.trailer.value.rowCount.Some? then p.trailer.value.rowCount.value else |p.rows|,
      if p.trailer.None? then None else p.trailer.value.oid,
      if p.schema.None? then [] else Map(PgFieldOf, p.schema.value.fields),
      p.rows)
  }

  const NOTHING := Progress(None, None, [])

  function AnswerOf(chunks: seq<Chunk>): Result<Answer, StreamError> {
    var p := Absorb(chunks, NOTHING);
    if p.Failure? then Failure(p.error) else Success(Finish(p.value))
  }

  method DecodeQueryStream(chunks: seq<Chunk>) returns (r: Result<Answer, StreamError>)
    ensures r == AnswerOf(chunks)
  {
    hide Decoded, Finish;
    var schema: Option<Schema>, trailer: Option<Trailer>, rows: seq<Row> := None, None, [];
    var i := 0;
    assert chunks[0..] == chunks;
    while i < |chunks|
      invariant 0 <= i <= |chunks|
      invariant Absorb(chunks[i..], Progress(schema, trailer, rows)) == Absorb(chunks, NOTHING)
    {
      var chunk := chunks[i];
      assert chunks[i..][0] == chunk && chunks[i..][1..] == chunks[i + 1..];
      if chunk.ErrorChunk? {
        if chunk.message.Some? {
          return Failure(Server(chunk.message.value));
        }
        break;
      }
      var payload := [];
      if chunk.SchemaChunk? {
        if chunk.schema.Some? {
          schema := chunk.schema;
        }
        payload := chunk.payload;
      } else if chunk.BatchChunk? {
        if schema.None? {
          return Failure(BatchBeforeSchema);
        }
        payload := chunk.payload;
      } else if chunk.TrailerChunk? && chunk.trailer.Some? {
        trailer := chunk.trailer;
      }
      if schema.Some? && payload != [] {
        var batch := DecodeRawPgBatch(payload, CellFields(schema.value));
        if batch.Failure? {
          return Failure(BadBatch(batch.error));
        }
        rows := rows + batch.value;
      }
      i := i + 1;
    }
    assert Absorb(chunks, NOTHING) == Success(Progress(schema, trailer, rows));
    return Success(Finish(Progress(schema, trailer, rows)));
  }

  // ----- batching does not matter -----------------------------------------------------------

  ghost predicate AllEncodable(fields: seq<Field>, parts: seq<seq<GivenRow>>) {
    forall part <- parts :: Encodable(fields, part)
  }

  /** One BATCH chunk for each part of the rows. */
  ghost function Batches(fields: seq<Field>, parts: seq<seq<GivenRow>>): seq<Chunk>
    requires AllEncodable(fields, parts)
  {
    if parts == [] then []
    else
      assert Encodable(fields, parts[0]);
      [BatchChunk(Encoded(fields, parts[0]))] + Batches(fields, parts[1..])
  }

  function RowsAdded(p: Progress, rows: Option<seq<Row>>): Result<Progress, StreamError> {
    if rows.None? then Failure(BadBatch(BadCell)) else Success(p.(rows := p.rows + rows.value))
  }

  lemma {:induction false} BatchesAddRows(p: Progress, parts: seq<seq<GivenRow>>, tail: seq<Chunk>)
    requires p.schema.Some? && DistinctNames(CellFields(p.schema.value))
      && AllEncodable(CellFields(p.schema.value), parts)
    ensures var fields := CellFields(p.schema.value);
      var after := RowsAdded(p, Rebuilt(fields, Flatten(parts)));
      Absorb(Batches(fields, parts) + tail, p) == if after.Failure? then after else Absorb(tail, after.value)
    decreases |parts|
  {
    hide Rebuilt, Encoded, Decoded, Encodable, CellFields;
    var fields := CellFields(p.schema.value);
    if parts == [] {
      NoRows(fields);
      assert p.rows + [] == p.rows && [] + tail == tail;
    } else {
      assert Encodable(fields, parts[0]);
      var payload := Encoded(fields, parts[0]);
      var rest := Batches(fields, parts[1..]);
      PayloadDecodes(fields, parts[0]);
      RebuiltAppend(fields, parts[0], Flatten(parts[1..]));
      assert Batches(fields, parts) + tail == [BatchChunk(payload)] + (rest + tail);
      var first := Rebuilt(fields, parts[0]);
      if first.Some? {
        var p' := p.(rows := p.rows + first.value);
        BatchesAddRows(p', parts[1..], tail);
        var more := Rebuilt(fields, Flatten(parts[1..]));
        if more.Some? {
          assert p.rows + (first.value + more.value) == p.rows + first.value + more.value;
        }
      }
    }
  }

  lemma PayloadDecodes(fields: seq<Field>, rows: seq<GivenRow>)
    requires Encodable(fields, rows)
    ensures Encoded(fields, rows) != [] && Decoded(Encoded(fields, rows), fields) == ToResult(Rebuilt(fields, rows))
  {
    hide Rebuilt, Decoded, CellsFrom, Body;
    DecodeOfEncoded(fields, rows, []);
    assert Encoded(fields, rows) + [] == Encoded(fields, rows);
  }

  lemma NoRows(fields: seq<Field>)
    ensures Rebuilt(fields, []) == Some([])
  {
    NoRowsFrom(fields, 0);
  }

  lemma {:induction false} NoRowsFrom(fields: seq<Field>, col: nat)
    requires col <= |fields|
    ensures RebuildFrom(fields, [], col, 0, []) == Some([])
    decreases |fields| - col
  {
    if col < |fields| {
      NoRowsFrom(fields, col + 1);
    }
  }

  /** The schema with the first part, a chunk for each further part, and the trailer. */
  ghost function ChunksFor(schema: Schema, first: seq<GivenRow>, parts: seq<seq<GivenRow>>,
                           trailer: Trailer): seq<Chunk>
    requires Encodable(CellFields(schema), first) && AllEncodable(CellFields(schema), parts)
  {
    [SchemaChunk(Some(schema), Encoded(CellFields(schema), first))]
    + (Batches(CellFields(schema), parts) + [TrailerChunk(Some(trailer))])
  }

  /** However the rows are spread over the chunks, the answer is that of all the rows in one payload. */
  lemma BatchingIsHarmless(schema: Schema, first: seq<GivenRow>, parts: seq<seq<GivenRow>>, trailer: Trailer)
    requires DistinctNames(CellFields(schema))
    requires Encodable(CellFields(schema), first) && AllEncodable(CellFields(schema), parts)
    ensures AnswerOf(ChunksFor(schema, first, parts, trailer))
         == var rows := Rebuilt(CellFields(schema), first + Flatten(parts));
            if rows.None? then Failure(BadBatch(BadCell))
            else Success(Finish(Progress(Some(schema), Some(trailer), rows.value)))
  {
    hide Rebuilt, Encoded, Decoded, Encodable, CellFields, Finish;
    var fields := CellFields(schema);
    var chunks := ChunksFor(schema, first, parts, trailer);
    var tail := [TrailerChunk(Some(trailer))];
    PayloadDecodes(fields, first);
    RebuiltAppend(fields, first, Flatten(parts));
    assert chunks[1..] == Batches(fields, parts) + tail;
    var rows := Rebuilt(fields, first);
    if rows.Some? {
      assert [] + rows.value == rows.value;
      var p := Progress(Some(schema), None, rows.value);
      BatchesAddRows(p, parts, tail);
      assert tail[1..] == [];
    }
  }

  // ----- errors of the server ---------------------------------------------------------------

  lemma {:induction false} AbsorbOn(a: seq<Chunk>, b: seq<Chunk>, p: Progress)
    requires forall c <- a :: !c.ErrorChunk?
    ensures Absorb(a + b, p) == if Absorb(a, p).Failure? then Absorb(a, p) else Absorb(b, Absorb(a, p).value)
    decreases |a|
  {
    hide WithRows;
    if a == [] {
      assert a + b == b;
    } else {
      assert a[0] in a && forall c <- a[1..] :: c in a;
      assert (a + b)[0] == a[0] && (a + b)[1..] == a[1..] + b;
      forall p' ensures Absorb(a[1..] + b, p')
                     == if Absorb(a[1..], p').Failure? then Absorb(a[1..], p')
                       else Absorb(b, Absorb(a[1..], p').value) {
        AbsorbOn(a[1..], b, p');
      }
    }
  }

  /**
   An error chunk with a message fails the query with that message, whatever comes behind it; one
   without a message ends the stream there, and the query returns what came before.
   */
  lemma ErrorChunkEnds(a: seq<Chunk>, message: Option<string>, b: seq<Chunk>)
    requires (forall c <- a :: !c.ErrorChunk?) && Absorb(a, NOTHING).Success?
    ensures AnswerOf(a + ([ErrorChunk(message)] + b))
         == if message.Some? then Failure(Server(message.value)) else AnswerOf(a)
  {
    hide Finish, WithRows;
    AbsorbOn(a, [ErrorChunk(message)] + b, NOTHING);
  }

  /** Rows before any schema fail the query. */
  lemma BatchNeedsSchema(a: seq<Chunk>, payload: seq<byte>, b: seq<Chunk>)
    requires forall c <- a :: c.TrailerChunk? || c.OtherChunk?
    ensures AnswerOf(a + ([BatchChunk(payload)] + b)) == Failure(BatchBeforeSchema)
  {
    hide Finish, WithRows;
    NoSchemaYet(a, NOTHING);
    AbsorbOn(a, [BatchChunk(payload)] + b, NOTHING);
  }

  lemma {:induction false} NoSchemaYet(a: seq<Chunk>, p: Progress)
    requires (forall c <- a :: c.TrailerChunk? || c.OtherChunk?) && p.schema.None?
    ensures Absorb(a, p).Success? && Absorb(a, p).value.schema.None?
    decreases |a|
  {
    hide WithRows;
    if a == [] {
    } else {
      assert a[0] in a && forall c <- a[1..] :: c in a;
      NoSchemaYet(a[1..], if a[0].TrailerChunk? && a[0].trailer.Some? then p.(trailer := a[0].trailer) else p);
    }
  }

  /** What schema and trailer say of a result without rows: everything but the rows comes from them. */
  lemma AnswerCarries(s: Schema, t: Trailer)
    ensures var r := AnswerOf([SchemaChunk(Some(s), []), TrailerChunk(Some(t))]);
      && r.Success? && r.value.rows == [] && r.value.oid == t.oid
      && r.value.rowCount == (if t.rowCount.Some? then t.rowCount.value else 0)
      && |r.value.fields| == |s.fields|
      && forall i :: 0 <= i < |s.fields| ==>
           var f, g := s.fields[i], r.value.fields[i];
           && g.name == f.name && g.dataTypeID == Some(f.oid) && g.tableID == Some(f.tableOid)
           && g.columnID == Some(f.columnId) && g.format == Some(f.format)
  {
    hide WithRows, CommandFromTag;
    var schema, trailer := SchemaChunk(Some(s), []), TrailerChunk(Some(t));
    assert [schema, trailer][1..] == [trailer] && [trailer][1..] == [];
    var p := NOTHING.(schema := Some(s));
    assert Absorb([trailer], p) == Absorb([], p.(trailer := Some(t)));
    assert Absorb([schema, trailer], NOTHING) == Absorb([trailer], p);
  }
}
