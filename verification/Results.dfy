/** A result encoded as a stream and decoded again (encodePgResultAsChunks in src/grpc-query-codec.ts). */
module Results {
  import opened Wrappers
  import opened Sequences
  import opened Bytes
  import opened Cells
  import opened Rpgb
  import opened RpgbProofs
  import opened Stream
  import Splitter

  /** A row object, with its keys in their own order. */
  datatype Record = Record(keys: seq<string>, cells: GivenRow)

  datatype PgResult = PgResult(
    command: Option<string>,
    rowCount: Option<nat>,
    oid: Option<nat>,
    fields: seq<PgField>,
    rows: seq<Record>)

  function NameOf(f: PgField): string { f.name }

  function KeysOf(r: Record): seq<string> { r.keys }

  function NonEmpty(names: seq<string>): seq<string> {
    if names == [] then [] else (if names[0] == "" then [] else [names[0]]) + NonEmpty(names[1..])
  }

  /** The columns of the first row that the fields do not name. */
  function ExtraFields(known: seq<string>, keys: seq<string>, cells: GivenRow): seq<PgField> {
    if keys == [] then []
    else
      var rest := ExtraFields(known, keys[1..], cells);
      if keys[0] in known then rest
      else [PgField(keys[0], Some(if Lookup(cells, keys[0]).Int? then 23 else 25), None, None, None)] + rest
  }

  function InferFields(fields: seq<PgField>, rows: seq<Record>): seq<PgField> {
    if rows == [] then fields else fields + ExtraFields(Map(NameOf, fields), rows[0].keys, rows[0].cells)
  }

  /** All names, fields first, each once. */
  function ColumnNames(fields: seq<PgField>, rows: seq<Record>): seq<string> {
    Dedup(NonEmpty(Map(NameOf, fields)) + Flatten(Map(KeysOf, rows)))
  }

  lemma NoKeysYet(named: seq<string>, rows: seq<Record>)
    ensures named + Flatten(Map(KeysOf, rows[..0])) == named
  {
  }

  method ColumnNamesForRows(fields: seq<PgField>, rows: seq<Record>) returns (names: seq<string>)
    ensures names == ColumnNames(fields, rows)
  {
    hide Dedup, Flatten, NonEmpty;
    ghost var named := NonEmpty(Map(NameOf, fields));
    NoKeysYet(named, rows);
    names := FieldNames(fields);
    for i := 0 to |rows|
      invariant names == Dedup(named + Flatten(Map(KeysOf, rows[..i])))
    {
      ghost var before := Flatten(Map(KeysOf, rows[..i]));
      names := AddKeys(names, rows[i].keys, named + before);
      assert Map(KeysOf, rows[..i + 1]) == Map(KeysOf, rows[..i]) + [rows[i].keys];
      FlattenSnoc(Map(KeysOf, rows[..i]), rows[i].keys);
      assert named + before + rows[i].keys == named + (before + rows[i].keys);
    }
    assert rows[..|rows|] == rows;
  }

  method FieldNames(fields: seq<PgField>) returns (names: seq<string>)
    ensures names == Dedup(NonEmpty(Map(NameOf, fields)))
  {
    names := [];
    assert Dedup<string>([]) == [];
    hide Dedup;
    for i := 0 to |fields|
      invariant names == Dedup(NonEmpty(Map(NameOf, fields[..i])))
    {
      assert Map(NameOf, fields[..i + 1]) == Map(NameOf, fields[..i]) + [fields[i].name];
      NonEmptySnoc(Map(NameOf, fields[..i]), fields[i].name);
      if fields[i].name != "" {
        names := Insert(names, fields[i].name, NonEmpty(Map(NameOf, fields[..i])));
      } else {
        assert NonEmpty(Map(NameOf, fields[..i])) + [] == NonEmpty(Map(NameOf, fields[..i]));
      }
    }
    assert fields[..|fields|] == fields;
  }

  method AddKeys(names: seq<string>, keys: seq<string>, ghost seen: seq<string>) returns (r: seq<string>)
    requires names == Dedup(seen)
    ensures r == Dedup(seen + keys)
  {
    hide Dedup;
    r := names;
    assert seen + keys[..0] == seen;
    for k := 0 to |keys|
      invariant r == Dedup(seen + keys[..k])
    {
      r := Insert(r, keys[k], seen + keys[..k]);
      assert seen + keys[..k] + [keys[k]] == seen + keys[..k + 1];
    }
    assert keys[..|keys|] == keys;
  }

  /** Set.add on an insertion-ordered set. */
  method Insert(names: seq<string>, name: string, ghost seen: seq<string>) returns (r: seq<string>)
    requires names == Dedup(seen)
    ensures r == Dedup(seen + [name])
  {
    DedupSnoc(seen, name);
    DedupElements(seen);
    r := if name in names then names else names + [name];
  }

  lemma {:induction false} NonEmptySnoc(names: seq<string>, name: string)
    ensures NonEmpty(names + [name]) == NonEmpty(names) + if name == "" then [] else [name]
  {
    if names == [] {
      assert ([] + [name])[1..] == [];
    } else {
      assert (names + [name])[1..] == names[1..] + [name];
      NonEmptySnoc(names[1..], name);
    }
  }

  // ----- encoding ---------------------------------------------------------------------------

  /** mockWireFormat: binary for the types a server sends in binary, unless a format is given. */
  function MockWireFormat(oid: nat, format: Option<nat>): (r: nat)
    ensures format.Some? && format.value != 0 ==> r == format.value
    ensures format == None || format == Some(0) ==> r <= 1
  {
    if format.Some? && format.value != 0 then format.value
    else if oid in {OID_BOOL, OID_INT2, OID_INT4, OID_INT8, OID_FLOAT4, OID_FLOAT8} then 1
    else 0
  }

  function Or0(n: Option<nat>): nat { if n.Some? then n.value else 0 }

  /** The last field of a name, as a map built from the fields holds it. */
  function LastField(fields: seq<PgField>, name: string): Option<PgField> {
    if fields == [] then None
    else if fields[|fields| - 1].name == name then Some(fields[|fields| - 1])
    else LastField(fields[..|fields| - 1], name)
  }

  function FlexField(fields: seq<PgField>, name: string): SchemaField {
    var f := LastField(fields, name);
    if f.None? then SchemaField(name, 0, 0, 0, 0) else Flexed(f.value)
  }

  /** A field with its gaps filled. */
  function Flexed(f: PgField): SchemaField {
    SchemaField(f.name, Or0(f.tableID), Or0(f.columnID), Or0(f.dataTypeID), MockWireFormat(Or0(f.dataTypeID), f.format))
  }

  function OrderedRow(names: seq<string>, cells: GivenRow): GivenRow {
    map name | name in names :: Lookup(cells, name)
  }

  function SchemaOf(r: PgResult): Schema {
    var fields := InferFields(r.fields, r.rows);
    Schema(if r.command.Some? then r.command.value else "SELECT",
           Map(name => FlexField(fields, name), ColumnNames(fields, r.rows)))
  }

  function RowsOf(r: PgResult): seq<GivenRow> {
    var names := ColumnNames(InferFields(r.fields, r.rows), r.rows);
    Map((row: Record) => OrderedRow(names, row.cells), r.rows)
  }

  function DigitText(n: nat): (s: string)
    ensures s != "" && forall c <- s :: '0' <= c <= '9'
  {
    (if n < 10 then "" else DigitText(n / 10)) + ["0123456789"[n % 10]]
  }

  function TrailerOf(r: PgResult): Trailer {
    Trailer(SchemaOf(r).command + " " + DigitText(Or0(r.rowCount)),
            Some(if r.rowCount.Some? then r.rowCount.value else |r.rows|), Some(Or0(r.oid)))
  }

  method EncodePgResultAsChunks(r: PgResult) returns (ok: bool, chunks: seq<Chunk>)
    ensures ok == Encodable(CellFields(SchemaOf(r)), RowsOf(r))
    ensures ok ==> chunks == ChunksFor(SchemaOf(r), RowsOf(r), [], TrailerOf(r))
  {
    hide Encodable, Encoded;
    var fields := InferFields(r.fields, r.rows);
    var names := ColumnNamesForRows(fields, r.rows);
    var command := if r.command.Some? then r.command.value else "SELECT";
    var schema := Schema(command, Map(name => FlexField(fields, name), names));
    var rows := Map((row: Record) => OrderedRow(names, row.cells), r.rows);
    assert schema.fields == SchemaOf(r).fields;
    assert rows == RowsOf(r);
    var payload;
    ok, payload := EncodeRawPgBatch(CellFields(schema), rows);
    chunks := [SchemaChunk(Some(schema), payload)];
    chunks := chunks + [TrailerChunk(Some(TrailerOf(r)))];
  }

  // ----- round trip -------------------------------------------------------------------------

  /** Fields with distinct names that name every key of every row. */
  ghost predicate Named(r: PgResult) {
    && Distinct(Map(NameOf, r.fields))
    && (forall f <- r.fields :: f.name != "")
    && (forall row <- r.rows :: forall key <- row.keys :: key in Map(NameOf, r.fields))
  }

  lemma {:induction false} NoExtra(known: seq<string>, keys: seq<string>, cells: GivenRow)
    requires forall key <- keys :: key in known
    ensures ExtraFields(known, keys, cells) == []
  {
    if keys == [] {
    } else {
      NoExtra(known, keys[1..], cells);
    }
  }

  lemma {:induction false} NonEmptyAll(names: seq<string>)
    requires forall name <- names :: name != ""
    ensures NonEmpty(names) == names
  {
    if names == [] {
    } else {
      assert forall name <- names[1..] :: name in names;
      NonEmptyAll(names[1..]);
      assert names[0] in names;
      assert names == [names[0]] + names[1..];
    }
  }

  lemma {:induction false} DedupAddsNothing(names: seq<string>, more: seq<string>)
    requires Distinct(names) && forall x <- more :: x in names
    ensures Dedup(names + more) == names
  {
    if more == [] {
      assert names + [] == names;
      DedupOfDistinct(names);
    } else {
      var n := |more| - 1;
      DedupAddsNothing(names, more[..n]);
      assert names + more == names + more[..n] + [more[n]];
      assert more[n] in names;
      DedupSnoc(names + more[..n], more[n]);
    }
  }

  lemma {:induction false} FlattenMember<T>(ss: seq<seq<T>>, x: T)
    requires x in Flatten(ss)
    ensures exists s <- ss :: x in s
  {
    if x !in ss[0] {
      FlattenMember(ss[1..], x);
    }
  }

  lemma NamedColumns(r: PgResult)
    requires Named(r)
    ensures InferFields(r.fields, r.rows) == r.fields
    ensures ColumnNames(r.fields, r.rows) == Map(NameOf, r.fields)
  {
    var names := Map(NameOf, r.fields);
    if r.rows != [] {
      assert r.rows[0] in r.rows;
      NoExtra(names, r.rows[0].keys, r.rows[0].cells);
    }
    forall name | name in names ensures name != "" {
      var i :| 0 <= i < |names| && names[i] == name;
      assert r.fields[i] in r.fields;
    }
    NonEmptyAll(names);
    forall x | x in Flatten(Map(KeysOf, r.rows)) ensures x in names {
      FlattenMember(Map(KeysOf, r.rows), x);
      var keys :| keys in Map(KeysOf, r.rows) && x in keys;
      MapMember(KeysOf, r.rows, keys);
    }
    DedupAddsNothing(names, Flatten(Map(KeysOf, r.rows)));
  }

  lemma {:induction false} LastFieldIs(fields: seq<PgField>, i: nat)
    requires Distinct(Map(NameOf, fields)) && i < |fields|
    ensures LastField(fields, fields[i].name) == Some(fields[i])
  {
    var n := |fields| - 1;
    if i < n {
      assert Map(NameOf, fields)[i] != Map(NameOf, fields)[n];
      assert forall j, k :: 0 <= j < k < n ==> Map(NameOf, fields)[j] != Map(NameOf, fields)[k];
      LastFieldIs(fields[..n], i);
    }
  }

  /** The columns that are sent are the column names, each once. */
  lemma SchemaNames(r: PgResult)
    ensures var names := ColumnNames(InferFields(r.fields, r.rows), r.rows); var fields := CellFields(SchemaOf(r));
      && |fields| == |names| && (forall i :: 0 <= i < |names| ==> fields[i].name == names[i])
      && DistinctNames(fields)
  {
    hide Dedup, NonEmpty, InferFields;
    var all := InferFields(r.fields, r.rows);
    var names := ColumnNames(all, r.rows);
    var fields := CellFields(SchemaOf(r));
    DedupElements(NonEmpty(Map(NameOf, all)) + Flatten(Map(KeysOf, r.rows)));
    forall i | 0 <= i < |names| ensures fields[i].name == names[i] {
      LastFieldNamed(all, names[i]);
    }
  }

  lemma {:induction false} LastFieldNamed(fields: seq<PgField>, name: string)
    ensures var f := LastField(fields, name);
      if f.Some? then f.value.name == name && f.value in fields else forall g <- fields :: g.name != name
  {
    if fields == [] {
    } else {
      assert fields == fields[..|fields| - 1] + [fields[|fields| - 1]];
      LastFieldNamed(fields[..|fields| - 1], name);
    }
  }

  lemma {:induction false} LastFieldAppend(s: seq<PgField>, t: seq<PgField>, name: string)
    ensures LastField(s + t, name) == if LastField(t, name).Some? then LastField(t, name) else LastField(s, name)
  {
    if t == [] {
      assert s + t == s;
    } else {
      var n := |t| - 1;
      assert (s + t)[..|s + t| - 1] == s + t[..n];
      LastFieldAppend(s, t[..n], name);
    }
  }

  /** A key of the first row that no field names becomes an int4 column for a number, and a text column otherwise. */
  lemma {:induction false} ExtraFieldsName(known: seq<string>, keys: seq<string>, cells: GivenRow, name: string)
    ensures LastField(ExtraFields(known, keys, cells), name)
         == if name in keys && name !in known
            then Some(PgField(name, Some(if Lookup(cells, name).Int? then 23 else 25), None, None, None)) else None
  {
    if keys == [] {
    } else {
      ExtraFieldsName(known, keys[1..], cells, name);
      var rest := ExtraFields(known, keys[1..], cells);
      if keys[0] !in known {
        var first := PgField(keys[0], Some(if Lookup(cells, keys[0]).Int? then 23 else 25), None, None, None);
        LastFieldAppend([first], rest, name);
        assert [first][..0] == [];
      }
    }
  }

  /**
   What a column is sent as: the last field of its name; else, if the first row has it, an int4 column
   for a number there and a text column for anything else; else a column without a type.
   */
  lemma ColumnIs(r: PgResult, name: string)
    ensures name in Map(NameOf, r.fields) ==> LastField(r.fields, name).Some?
    ensures var known := Map(NameOf, r.fields);
      FlexField(InferFields(r.fields, r.rows), name) ==
        if name in known then Flexed(LastField(r.fields, name).value)
        else if r.rows != [] && name in r.rows[0].keys then
          if Lookup(r.rows[0].cells, name).Int? then SchemaField(name, 0, 0, 23, 1) else SchemaField(name, 0, 0, 25, 0)
        else SchemaField(name, 0, 0, 0, 0)
  {
    hide LastField, ExtraFields;
    LastFieldNamed(r.fields, name);
    if name in Map(NameOf, r.fields) {
      MapMember(NameOf, r.fields, name);
    }
    if r.rows != [] {
      var extra := ExtraFields(Map(NameOf, r.fields), r.rows[0].keys, r.rows[0].cells);
      LastFieldAppend(r.fields, extra, name);
      ExtraFieldsName(Map(NameOf, r.fields), r.rows[0].keys, r.rows[0].cells, name);
    }
    if LastField(r.fields, name).Some? {
      MapMember(NameOf, r.fields, name);
    }
  }

  lemma NamedSchema(r: PgResult)
    requires Named(r)
    ensures SchemaOf(r).fields == Map(Flexed, r.fields)
  {
    NamedColumns(r);
    var fields := SchemaOf(r).fields;
    forall i | 0 <= i < |r.fields| ensures fields[i] == Flexed(r.fields[i]) {
      LastFieldIs(r.fields, i);
    }
  }

  lemma {:induction false} TokenOfWord(word: string, rest: string)
    requires (forall c <- word :: !Splitter.IsSpace(c)) && (rest == "" || Splitter.IsSpace(rest[0]))
    ensures FirstToken(word + rest) == word
  {
    if word == "" {
      assert word + rest == rest;
    } else {
      assert word[0] in word && forall c <- word[1..] :: c in word;
      assert (word + rest)[1..] == word[1..] + rest;
      TokenOfWord(word[1..], rest);
    }
  }

  lemma {:induction false} TokenHasNoSpace(s: string)
    ensures forall c <- FirstToken(s) :: !Splitter.IsSpace(c)
  {
    if s == "" || Splitter.IsSpace(s[0]) {
    } else {
      TokenHasNoSpace(s[1..]);
    }
  }

  lemma FoldKeepsSpace(c: char)
    ensures Splitter.IsSpace(Splitter.FoldCase(c)) <==> Splitter.IsSpace(c)
  {
  }

  /** The command of a result comes back from its tag exactly when it is one word in upper case. */
  lemma CommandExact(command: string, n: nat)
    ensures CommandFromTag(command + " " + DigitText(n), Some(command)) == command
      <==> command != "" && (forall c <- command :: !Splitter.IsSpace(c)) && Upper(command) == command
  {
    hide Splitter.IsSpace, Splitter.FoldCase, Upper, Splitter.Trim, DigitText;
    var digits := DigitText(n);
    var tag := command + " " + digits;
    var token := FirstToken(Splitter.Trim(tag));
    TokenHasNoSpace(Splitter.Trim(tag));
    if command != "" && forall c <- command :: !Splitter.IsSpace(c) {
      WordTag(command, digits);
    } else if command == "" {
      DigitsTag(n);
    } else if token != "" {
      UpperHasNoSpace(token);
    } else {
      TagHasToken(command, n);
    }
  }

  lemma WordTag(command: string, digits: string)
    requires command != "" && (forall c <- command :: !Splitter.IsSpace(c))
    requires digits != "" && forall c <- digits :: '0' <= c <= '9'
    ensures FirstToken(Splitter.Trim(command + " " + digits)) == command
  {
    var tag := command + " " + digits;
    assert command[0] in command && digits[|digits| - 1] in digits;
    assert tag[0] == command[0] && tag[|tag| - 1] == digits[|digits| - 1];
    Splitter.TrimmedIsFixed(tag);
    assert tag == command + (" " + digits);
    TokenOfWord(command, " " + digits);
  }

  lemma DigitsTag(n: nat)
    ensures FirstToken(Splitter.Trim("" + " " + DigitText(n))) == DigitText(n)
    ensures Upper(DigitText(n)) != ""
  {
    var digits := DigitText(n);
    assert digits[0] in digits && digits[|digits| - 1] in digits;
    assert "" + " " + digits == " " + digits && (" " + digits)[1..] == digits;
    assert Splitter.TrimStart(" " + digits) == Splitter.TrimStart(digits) == digits;
    Splitter.TrimmedIsFixed(digits);
    forall c | c in digits ensures !Splitter.IsSpace(c) {
    }
    TokenOfWord(digits, "");
    assert digits + "" == digits;
  }

  lemma UpperHasNoSpace(token: string)
    requires forall c <- token :: !Splitter.IsSpace(c)
    ensures forall c <- Upper(token) :: !Splitter.IsSpace(c)
  {
    forall c | c in Upper(token) ensures !Splitter.IsSpace(c) {
      MapMember(Splitter.FoldCase, token, c);
      var x :| x in token && Splitter.FoldCase(x) == c;
      FoldKeepsSpace(x);
    }
  }

  /** The digits of a tag are never trimmed away. */
  lemma TagHasToken(command: string, n: nat)
    ensures FirstToken(Splitter.Trim(command + " " + DigitText(n))) != ""
  {
    var digits := DigitText(n);
    var tag := command + " " + digits;
    var last := digits[|digits| - 1];
    assert last in digits && tag[|tag| - 1] == last;
    LastStays(tag);
  }

  lemma {:induction false} LastStays(s: string)
    requires s != "" && !Splitter.IsSpace(s[|s| - 1])
    ensures FirstToken(Splitter.Trim(s)) != ""
    decreases |s|
  {
    if Splitter.IsSpace(s[0]) {
      LastStays(s[1..]);
    } else {
      Splitter.TrimmedIsFixed(s);
    }
  }

  /**
   Encoding a result and decoding the stream gives back its count, its columns (ColumnIs), its rows,
   and of its command what CommandExact says. When the fields name every key of every row, each once,
   the columns are the fields with their gaps filled.
   */
  lemma ResultRoundTrip(r: PgResult)
    requires Encodable(CellFields(SchemaOf(r)), RowsOf(r))
    ensures AnswerOf(ChunksFor(SchemaOf(r), RowsOf(r), [], TrailerOf(r)))
         == var rows := Rebuilt(CellFields(SchemaOf(r)), RowsOf(r));
            var fields := InferFields(r.fields, r.rows);
            if rows.None? then Failure(BadBatch(BadCell))
            else Success(Answer(
              CommandFromTag(SchemaOf(r).command + " " + DigitText(Or0(r.rowCount)), Some(SchemaOf(r).command)),
              if r.rowCount.Some? then r.rowCount.value else |r.rows|,
              Some(Or0(r.oid)),
              Map(PgFieldOf, Map(name => FlexField(fields, name), ColumnNames(fields, r.rows))),
              rows.value))
    ensures Named(r) ==>
      Map(name => FlexField(InferFields(r.fields, r.rows), name), ColumnNames(InferFields(r.fields, r.rows), r.rows))
      == Map(Flexed, r.fields)
  {
    hide Rebuilt, Encoded, Encodable, CellFields, DigitText, RowsOf, InferFields, FlexField, ColumnNames, Named;
    SchemaNames(r);
    assert RowsOf(r) + Flatten([]) == RowsOf(r);
    BatchingIsHarmless(SchemaOf(r), RowsOf(r), [], TrailerOf(r));
    if Named(r) {
      NamedSchema(r);
    }
  }

  function OrZero(n: Option<nat>): Option<nat> { if n == None then Some(0) else n }

  /** bool, int2, int4, int8, float4, float8. */
  const BINARY_OIDS := {16, 21, 23, 20, 700, 701}

  /** A field comes back with its own type, table and column, 0 where it has none, and the format it was sent in. */
  lemma FieldReadsBack(f: PgField)
    ensures var g := PgFieldOf(Flexed(f));
      && g.name == f.name && g.dataTypeID == OrZero(f.dataTypeID)
      && g.tableID == OrZero(f.tableID) && g.columnID == OrZero(f.columnID)
      && (f.format.Some? && f.format != Some(0) ==> g.format == f.format)
      && (f.format == None || f.format == Some(0) ==>
            g.format == Some(if OrZero(f.dataTypeID).value in BINARY_OIDS then 1 else 0))
  {
  }

  /** Every row holds a typed value, or nothing, for each column, and no other cell. */
  ghost predicate TypedResult(r: PgResult) {
    TypedRows(CellFields(SchemaOf(r)), Map((row: Record) => row.cells, r.rows))
  }

  /** No column is sent in a format that the protocol does not have. */
  lemma FormatsFit(r: PgResult)
    requires forall f <- r.fields :: f.format.None? || f.format.value <= 1
    ensures forall f <- CellFields(SchemaOf(r)) :: f.format <= 1
  {
    hide LastField, ExtraFields;
    var names := ColumnNames(InferFields(r.fields, r.rows), r.rows);
    var fields := CellFields(SchemaOf(r));
    forall f | f in fields ensures f.format <= 1 {
      var i :| 0 <= i < |fields| && fields[i] == f;
      ColumnIs(r, names[i]);
      LastFieldNamed(r.fields, names[i]);
    }
  }

  /**
   The rows come back unchanged exactly when every row is complete and typed for the formats that are
   sent, be the columns named by the fields or found in the rows.
   */
  lemma ResultRowsExact(r: PgResult)
    requires Encodable(CellFields(SchemaOf(r)), RowsOf(r))
    requires forall f <- r.fields :: f.format.None? || f.format.value <= 1
    requires forall row <- r.rows :: row.cells.Keys == (set key | key in row.keys)
    ensures Rebuilt(CellFields(SchemaOf(r)), RowsOf(r)) == Some(Map((row: Record) => row.cells, r.rows))
      <==> TypedResult(r)
  {
    hide Back, Typed, Encodable, RebuildFrom, SchemaOf, RowsOf;
    SchemaNames(r);
    FormatsFit(r);
    var fields := CellFields(SchemaOf(r));
    var plain := Map((row: Record) => row.cells, r.rows);
    if TypedResult(r) {
      CompleteRows(r, fields, plain);
      TypedRowsRebuild(fields, plain);
    }
    if Rebuilt(fields, RowsOf(r)) == Some(plain) {
      RebuiltCells(fields, RowsOf(r));
      CompleteRows(r, fields, plain);
      RebuiltSameIsTyped(fields, plain);
    }
  }

  lemma NamesOfFields(r: PgResult, fields: seq<Field>)
    requires fields == CellFields(SchemaOf(r))
    ensures forall name :: name in ColumnNames(InferFields(r.fields, r.rows), r.rows) <==> name in Names(fields)
  {
    hide ColumnNames, InferFields, SchemaOf;
    SchemaNames(r);
    var names := ColumnNames(InferFields(r.fields, r.rows), r.rows);
    forall name ensures name in names <==> name in Names(fields) {
      if name in names {
        var i :| 0 <= i < |names| && names[i] == name;
        assert fields[i].name == name;
      }
      if name in Names(fields) {
        var i :| 0 <= i < |fields| && fields[i].name == name;
        assert names[i] == name;
      }
    }
  }

  /** A row whose keys are the names is sent as it is. */
  lemma OrderedIsSame(names: seq<string>, cells: GivenRow)
    requires forall name :: name in names <==> name in cells
    ensures OrderedRow(names, cells) == cells
  {
    assert OrderedRow(names, cells).Keys == cells.Keys;
  }

  /** Rows that have every column are sent as they are. */
  lemma CompleteRows(r: PgResult, fields: seq<Field>, plain: seq<GivenRow>)
    requires fields == CellFields(SchemaOf(r)) && plain == Map((row: Record) => row.cells, r.rows)
    requires forall i :: 0 <= i < |plain| ==> plain[i].Keys == Names(fields)
    ensures RowsOf(r) == plain
  {
    hide SchemaOf, CellFields, Names, OrderedRow, ColumnNames, InferFields;
    NamesOfFields(r, fields);
    forall i | 0 <= i < |plain| ensures RowsOf(r)[i] == plain[i] {
      OrderedIsSame(ColumnNames(InferFields(r.fields, r.rows), r.rows), plain[i]);
    }
  }
}
