/** Loading the merged rows into the local temporary table (src/postgres-select-merge.ts). */
module Load {
  import opened Wrappers
  import opened Sequences

  /** A cell: NULL or text. */
  type Cell = Option<string>

  type Row = map<string, Cell>

  /** The rows of a table, each with one cell per column. */
  type Table = seq<seq<Cell>>

  const INSERT_BATCH_SIZE := 500

  /** row[field.name]; a missing property is undefined, which is stored as NULL. */
  function CellOf(row: Row, name: string): Cell {
    if name in row then row[name] else None
  }

  function CellsOf(names: seq<string>, row: Row): (r: seq<Cell>)
    ensures |r| == |names|
  {
    Map(name => CellOf(row, name), names)
  }

  /** The rows in the order of the columns: what every strategy should load. */
  function TableOf(names: seq<string>, rows: seq<Row>): (r: Table)
    ensures |r| == |rows| && forall k <- r :: |k| == |names|
  {
    Map(row => CellsOf(names, row), rows)
  }

  // ----- INSERT with numbered placeholders --------------------------------------------------

  /** The numbers $start, $start+1, … of one group. */
  function Group(columnCount: nat, start: nat): (r: seq<nat>)
    ensures |r| == columnCount
  {
    seq(columnCount, c requires 0 <= c < columnCount => start + c)
  }

  function Groups(rowCount: nat, columnCount: nat, start: nat): (r: seq<seq<nat>>)
    ensures |r| == rowCount
  {
    if rowCount == 0 then [] else [Group(columnCount, start)] + Groups(rowCount - 1, columnCount, start + columnCount)
  }

  function NextParam(rowCount: nat, columnCount: nat, start: nat): nat {
    if rowCount == 0 then start else NextParam(rowCount - 1, columnCount, start + columnCount)
  }

  lemma {:induction false} NextParamIs(rowCount: nat, columnCount: nat, start: nat)
    ensures NextParam(rowCount, columnCount, start) == start + rowCount * columnCount
  {
    if rowCount > 0 {
      NextParamIs(rowCount - 1, columnCount, start + columnCount);
    }
  }

  method BuildGroup(columnCount: nat, startParam: nat) returns (placeholders: seq<nat>, nextParam: nat)
    ensures placeholders == Group(columnCount, startParam) && nextParam == startParam + columnCount
  {
    placeholders, nextParam := [], startParam;
    for c := 0 to columnCount
      invariant |placeholders| == c && nextParam == startParam + c
      invariant forall k :: 0 <= k < c ==> placeholders[k] == startParam + k
    {
      placeholders := placeholders + [nextParam];
      nextParam := nextParam + 1;
    }
  }

  method BuildInsertPlaceholders(rowCount: nat, columnCount: nat, startParam: nat)
    returns (groups: seq<seq<nat>>, nextParam: nat)
    ensures groups == Groups(rowCount, columnCount, startParam) && nextParam == startParam + rowCount * columnCount
  {
    hide Group;
    NextParamIs(rowCount, columnCount, startParam);
    groups, nextParam := [], startParam;
    for r := 0 to rowCount
      invariant groups + Groups(rowCount - r, columnCount, nextParam) == Groups(rowCount, columnCount, startParam)
      invariant NextParam(rowCount - r, columnCount, nextParam) == NextParam(rowCount, columnCount, startParam)
    {
      var placeholders, next := BuildGroup(columnCount, nextParam);
      assert groups + ([placeholders] + Groups(rowCount - r - 1, columnCount, next))
          == groups + [placeholders] + Groups(rowCount - r - 1, columnCount, next);
      groups := groups + [placeholders];
      nextParam := next;
    }
  }

  function Param(params: seq<Cell>, p: nat): Cell {
    if 0 < p <= |params| then params[p - 1] else None
  }

  function Filled(params: seq<Cell>, g: seq<nat>): seq<Cell> { Map(p => Param(params, p), g) }

  predicate InRange(params: seq<Cell>, groups: seq<seq<nat>>) {
    forall g <- groups :: forall p <- g :: 0 < p <= |params|
  }

  /** VALUES with placeholders: $p stands for the p-th parameter; None when there is no such parameter. */
  function Inserted(groups: seq<seq<nat>>, params: seq<Cell>): Option<Table> {
    if InRange(params, groups) then Some(Map(g => Filled(params, g), groups)) else None
  }

  lemma GroupFills(columnCount: nat, before: seq<Cell>, row: seq<Cell>, after: seq<Cell>)
    requires |row| == columnCount
    ensures Filled(before + row + after, Group(columnCount, |before| + 1)) == row
    ensures InRange(before + row + after, [Group(columnCount, |before| + 1)])
  {
  }

  lemma NothingInserted(params: seq<Cell>)
    ensures Inserted([], params) == Some([])
  {
  }

  lemma FlattenFirst(table: Table)
    requires table != []
    ensures Flatten(table) == table[0] + Flatten(table[1..])
  {
  }

  /** Row after row, the parameters are the cells of the rows. */
  lemma {:induction false} GroupsSpell(table: Table, columnCount: nat, before: seq<Cell>, after: seq<Cell>)
    requires forall row <- table :: |row| == columnCount
    ensures Inserted(Groups(|table|, columnCount, |before| + 1), before + Flatten(table) + after) == Some(table)
    decreases |table|
  {
    var params := before + Flatten(table) + after;
    hide Flatten, Filled, Group, Inserted, InRange;
    if table == [] {
      NothingInserted(params);
    } else {
      FlattenFirst(table);
      var row, rest := table[0], table[1..];
      assert row in table && forall r <- rest :: r in table;
      assert params == (before + row) + Flatten(rest) + after == before + row + (Flatten(rest) + after);
      GroupsSpell(rest, columnCount, before + row, after);
      GroupFills(columnCount, before, row, Flatten(rest) + after);
      InsertedCons(Group(columnCount, |before| + 1), Groups(|rest|, columnCount, |before| + 1 + columnCount),
                   params, row, rest);
      assert [row] + rest == table;
    }
  }

  lemma InsertedCons(g: seq<nat>, groups: seq<seq<nat>>, params: seq<Cell>, row: seq<Cell>, rest: Table)
    requires Inserted(groups, params) == Some(rest)
    requires Filled(params, g) == row && InRange(params, [g])
    ensures Inserted([g] + groups, params) == Some([row] + rest)
  {
    hide Filled;
    assert g in [g];
    assert InRange(params, [g] + groups);
    var all := Inserted([g] + groups, params).value;
    forall i | 0 <= i < |all| ensures all[i] == ([row] + rest)[i] {
    }
    assert all == [row] + rest;
  }

  // ----- unnest -----------------------------------------------------------------------------

  function Column(table: Table, c: nat): seq<Cell>
    requires forall row <- table :: c < |row|
  {
    seq(|table|, r requires 0 <= r < |table| =>
      assert table[r] in table;
      table[r][c])
  }

  /** Set-returning functions side by side: as many rows as the longest array, padded with NULL. */
  function Unnested(params: seq<seq<Cell>>): Table {
    seq(Longest(params), r requires 0 <= r => Map(column => if r < |column| then column[r] else None, params))
  }

  function Longest(params: seq<seq<Cell>>): nat {
    if params == [] then 0
    else
      var rest := Longest(params[1..]);
      if |params[0]| < rest then rest else |params[0]|
  }

  lemma {:induction false} LongestOfEqual(params: seq<seq<Cell>>, n: nat)
    requires params != [] && forall p <- params :: |p| == n
    ensures Longest(params) == n
  {
    if |params| > 1 {
      assert forall p <- params[1..] :: p in params;
      LongestOfEqual(params[1..], n);
    }
    assert params[0] in params;
  }

  // ----- CSV --------------------------------------------------------------------------------

  predicate NeedsQuotes(text: string) {
    '"' in text || ',' in text || '\n' in text || '\r' in text
  }

  function DoubleQuotes(text: string): string {
    if text == "" then "" else (if text[0] == '"' then "\"\"" else [text[0]]) + DoubleQuotes(text[1..])
  }

  function FormatCsvCell(value: Cell): string {
    if value.None? then ""
    else if NeedsQuotes(value.value) then "\"" + DoubleQuotes(value.value) + "\""
    else value.value
  }

  function Join(parts: seq<string>, separator: string): string {
    if parts == [] then "" else if |parts| == 1 then parts[0] else parts[0] + separator + Join(parts[1..], separator)
  }

  function CsvLine(cells: seq<Cell>): string { Join(Map(FormatCsvCell, cells), ",") }

  function CsvPayload(table: Table): string { Join(Map(CsvLine, table), "\n") + "\n" }

  method BuildCsvPayload(rows: seq<Row>, names: seq<string>) returns (payload: string)
    ensures payload == CsvPayload(TableOf(names, rows))
  {
    hide CsvLine, CellsOf, Join;
    var lines := [];
    for r := 0 to |rows|
      invariant lines == Map(CsvLine, TableOf(names, rows[..r]))
    {
      assert TableOf(names, rows[..r + 1]) == TableOf(names, rows[..r]) + [CellsOf(names, rows[r])];
      lines := lines + [CsvLine(CellsOf(names, rows[r]))];
    }
    assert rows[..|rows|] == rows;
    payload := Join(lines, "\n") + "\n";
  }

  // The reader: RFC 4180 section 2, with records that all end in a line feed, an unquoted empty
  // field read as NULL, and quotes or carriage returns inside an unquoted field refused.

  datatype Field = Field(value: Cell, rest: string)

  function ReadQuoted(s: string): Option<(string, string)> {
    if s == "" then None
    else if s[0] == '"' && |s| > 1 && s[1] == '"' then
      var more := ReadQuoted(s[2..]);
      if more.None? then None else Some(("\"" + more.value.0, more.value.1))
    else if s[0] == '"' then Some(("", s[1..]))
    else
      var more := ReadQuoted(s[1..]);
      if more.None? then None else Some(([s[0]] + more.value.0, more.value.1))
  }

  function ReadUnquoted(s: string): Option<(string, string)> {
    if s == "" || s[0] == ',' || s[0] == '\n' then Some(("", s))
    else if s[0] == '"' || s[0] == '\r' then None
    else
      var more := ReadUnquoted(s[1..]);
      if more.None? then None else Some(([s[0]] + more.value.0, more.value.1))
  }

  function ReadField(s: string): (f: Option<Field>)
    ensures f.Some? ==> |f.value.rest| <= |s|
  {
    if s != "" && s[0] == '"' then
      var q := ReadQuoted(s[1..]);
      if q.None? || |q.value.1| > |s| then None else Some(Field(Some(q.value.0), q.value.1))
    else
      var u := ReadUnquoted(s);
      if u.None? || |u.value.1| > |s| then None
      else Some(Field(if u.value.0 == "" then None else Some(u.value.0), u.value.1))
  }

  datatype Record = Record(cells: seq<Cell>, rest: string)

  function ReadRecord(s: string): (r: Option<Record>)
    ensures r.Some? ==> |r.value.rest| < |s|
    decreases |s|
  {
    var f := ReadField(s);
    if f.None? || f.value.rest == "" then None
    else if f.value.rest[0] == '\n' then Some(Record([f.value.value], f.value.rest[1..]))
    else if f.value.rest[0] == ',' then
      var more := ReadRecord(f.value.rest[1..]);
      if more.None? then None else Some(Record([f.value.value] + more.value.cells, more.value.rest))
    else None
  }

  function ReadCsv(s: string): Option<Table>
    decreases |s|
  {
    if s == "" then Some([])
    else
      var record := ReadRecord(s);
      if record.None? then None
      else
        var more := ReadCsv(record.value.rest);
        if more.None? then None else Some([record.value.cells] + more.value)
  }

  /** Empty text is printed as nothing, and nothing is NULL. */
  function Blanked(cell: Cell): Cell { if cell == Some("") then None else cell }

  function BlankedRow(row: seq<Cell>): seq<Cell> { Map(Blanked, row) }

  function BlankedTable(table: Table): Table { Map(BlankedRow, table) }

  predicate EndsField(rest: string) { rest != "" && (rest[0] == ',' || rest[0] == '\n') }

  lemma {:induction false} QuotedReadsBack(text: string, rest: string)
    requires EndsField(rest)
    ensures ReadQuoted(DoubleQuotes(text) + "\"" + rest) == Some((text, rest))
  {
    var s := DoubleQuotes(text) + "\"" + rest;
    if text == "" {
      assert s == "\"" + rest && s[1..] == rest;
    } else {
      var more := DoubleQuotes(text[1..]) + "\"" + rest;
      QuotedReadsBack(text[1..], rest);
      if text[0] == '"' {
        assert s == "\"\"" + more && s[2..] == more;
      } else {
        assert s == [text[0]] + more && s[1..] == more;
      }
      assert text == [text[0]] + text[1..];
    }
  }

  lemma {:induction false} UnquotedReadsBack(text: string, rest: string)
    requires EndsField(rest) && !NeedsQuotes(text)
    ensures ReadUnquoted(text + rest) == Some((text, rest))
  {
    if text == "" {
      assert text + rest == rest;
    } else {
      assert text[0] in text && forall c <- text[1..] :: c in text;
      assert (text + rest)[1..] == text[1..] + rest;
      UnquotedReadsBack(text[1..], rest);
      assert text == [text[0]] + text[1..];
    }
  }

  lemma PlainText(text: string)
    ensures text == "" ==> !NeedsQuotes(text)
    ensures text != "" && !NeedsQuotes(text) ==> text[0] != '"'
  {
    assert text != "" ==> text[0] in text;
  }

  lemma CellReadsBack(cell: Cell, rest: string)
    requires EndsField(rest)
    ensures ReadField(FormatCsvCell(cell) + rest) == Some(Field(Blanked(cell), rest))
  {
    var s := FormatCsvCell(cell) + rest;
    hide ReadQuoted, ReadUnquoted, DoubleQuotes, NeedsQuotes;
    PlainText("");
    if cell.Some? && NeedsQuotes(cell.value) {
      QuotedReadsBack(cell.value, rest);
      assert s[1..] == DoubleQuotes(cell.value) + "\"" + rest;
    } else {
      var text := if cell.None? then "" else cell.value;
      PlainText(text);
      UnquotedReadsBack(text, rest);
      assert s == text + rest;
      assert text != "" ==> s[0] == text[0];
    }
  }

  lemma {:induction false} LineReadsBack(cells: seq<Cell>, rest: string)
    requires cells != []
    ensures ReadRecord(CsvLine(cells) + "\n" + rest) == Some(Record(BlankedRow(cells), rest))
    decreases |cells|
  {
    hide ReadField, FormatCsvCell, Blanked;
    var s := CsvLine(cells) + "\n" + rest;
    if |cells| == 1 {
      CellReadsBack(cells[0], "\n" + rest);
      assert s == FormatCsvCell(cells[0]) + ("\n" + rest);
      assert ("\n" + rest)[1..] == rest;
      assert BlankedRow(cells) == [Blanked(cells[0])];
    } else {
      var more := CsvLine(cells[1..]) + "\n" + rest;
      LineReadsBack(cells[1..], rest);
      CellReadsBack(cells[0], "," + more);
      assert Map(FormatCsvCell, cells)[1..] == Map(FormatCsvCell, cells[1..]);
      assert s == FormatCsvCell(cells[0]) + ("," + more);
      assert ("," + more)[1..] == more;
      assert BlankedRow(cells) == [Blanked(cells[0])] + BlankedRow(cells[1..]);
    }
  }

  /** Reading a payload gives the rows, with empty texts turned into NULL. */
  lemma {:induction false} PayloadReadsBack(table: Table)
    requires table != [] && forall row <- table :: row != []
    ensures ReadCsv(CsvPayload(table)) == Some(BlankedTable(table))
    decreases |table|
  {
    hide ReadRecord, CsvLine, BlankedRow;
    assert table[0] in table;
    var s := CsvPayload(table);
    if |table| == 1 {
      LineReadsBack(table[0], "");
      assert s == CsvLine(table[0]) + "\n" + "";
      assert ReadCsv("") == Some([]) && ReadCsv(s) == Some([BlankedRow(table[0])] + []);
      assert [BlankedRow(table[0])] + [] == [BlankedRow(table[0])];
      assert BlankedTable(table) == [BlankedRow(table[0])];
    } else {
      var rest := table[1..];
      assert forall row <- rest :: row in table;
      PayloadReadsBack(rest);
      LineReadsBack(table[0], CsvPayload(rest));
      assert Map(CsvLine, table)[1..] == Map(CsvLine, rest);
      assert s == CsvLine(table[0]) + "\n" + CsvPayload(rest);
      assert ReadCsv(s) == Some([BlankedRow(table[0])] + BlankedTable(rest));
      assert BlankedTable(table) == [BlankedRow(table[0])] + BlankedTable(rest);
    }
  }

  ghost predicate NoEmptyText(table: Table) {
    forall row <- table :: forall cell <- row :: cell != Some("")
  }

  lemma BlankedExact(table: Table)
    ensures BlankedTable(table) == table <==> NoEmptyText(table)
  {
    if NoEmptyText(table) {
      forall r | 0 <= r < |table| ensures BlankedRow(table[r]) == table[r] {
        assert table[r] in table;
        forall c | 0 <= c < |table[r]| ensures Blanked(table[r][c]) == table[r][c] {
          assert table[r][c] in table[r];
        }
      }
    }
    if BlankedTable(table) == table {
      forall row, cell | row in table && cell in row ensures cell != Some("") {
        var r :| 0 <= r < |table| && table[r] == row;
        var c :| 0 <= c < |row| && row[c] == cell;
        assert BlankedTable(table)[r] == BlankedRow(row);
        assert BlankedRow(row)[c] == Blanked(cell);
      }
    }
  }

  // ----- the loaders ------------------------------------------------------------------------

  datatype Strategy = Batch | Unnest | Copy

  /** The temporary table as the server fills it. */
  class TempTable {
    var contents: Table

    constructor ()
      ensures contents == []
    {
      contents := [];
    }

    method InsertValues(groups: seq<seq<nat>>, params: seq<Cell>) returns (ok: bool)
      modifies this
      ensures ok == Inserted(groups, params).Some?
      ensures contents == old(contents) + if ok then Inserted(groups, params).value else []
    {
      var rows := Inserted(groups, params);
      ok := rows.Some?;
      contents := contents + if ok then rows.value else [];
    }

    method InsertUnnest(params: seq<seq<Cell>>)
      modifies this
      ensures contents == old(contents) + Unnested(params)
    {
      contents := contents + Unnested(params);
    }

    method CopyCsv(payload: string) returns (ok: bool)
      modifies this
      ensures ok == ReadCsv(payload).Some?
      ensures contents == old(contents) + if ok then ReadCsv(payload).value else []
    {
      var rows := ReadCsv(payload);
      ok := rows.Some?;
      contents := contents + if ok then rows.value else [];
    }
  }

  method RowValues(names: seq<string>, row: Row) returns (values: seq<Cell>)
    ensures values == CellsOf(names, row)
  {
    values := [];
    for c := 0 to |names|
      invariant |values| == c && forall k :: 0 <= k < c ==> values[k] == CellOf(row, names[k])
    {
      values := values + [CellOf(row, names[c])];
    }
  }

  /** The parameters of one batch, row by row. */
  method BatchValues(names: seq<string>, rows: seq<Row>) returns (values: seq<Cell>)
    ensures values == Flatten(TableOf(names, rows))
  {
    hide Flatten, CellsOf;
    values := [];
    NoValuesYet(names, rows);
    for r := 0 to |rows|
      invariant values == Flatten(TableOf(names, rows[..r]))
    {
      var more := RowValues(names, rows[r]);
      assert TableOf(names, rows[..r + 1]) == TableOf(names, rows[..r]) + [CellsOf(names, rows[r])];
      FlattenSnoc(TableOf(names, rows[..r]), CellsOf(names, rows[r]));
      values := values + more;
    }
    assert rows[..|rows|] == rows;
  }

  lemma NoValuesYet(names: seq<string>, rows: seq<Row>)
    ensures Flatten(TableOf(names, rows[..0])) == []
  {
  }

  lemma TableOfSplit(names: seq<string>, rows: seq<Row>, more: seq<Row>)
    ensures TableOf(names, rows + more) == TableOf(names, rows) + TableOf(names, more)
  {
    hide CellsOf;
  }

  lemma AppendTwice(a: Table, b: Table, c: Table)
    ensures a + b + c == a + (b + c)
  {
  }

  /** One INSERT of at most INSERT_BATCH_SIZE rows. */
  method InsertBatch(table: TempTable, names: seq<string>, batch: seq<Row>)
    modifies table
    ensures table.contents == old(table.contents) + TableOf(names, batch)
  {
    hide Flatten, Groups, Inserted, CellsOf;
    var groups, _ := BuildInsertPlaceholders(|batch|, |names|, 1);
    var values := BatchValues(names, batch);
    ghost var cells := TableOf(names, batch);
    GroupsSpell(cells, |names|, [], []);
    assert [] + Flatten(cells) + [] == Flatten(cells);
    var ok := table.InsertValues(groups, values);
  }

  method InsertRowsBatched(table: TempTable, names: seq<string>, rows: seq<Row>)
    modifies table
    ensures table.contents == old(table.contents) + TableOf(names, rows)
  {
    var offset := 0;
    ghost var before := table.contents;
    assert TableOf(names, rows[..0]) == [];
    hide TableOf;
    assert before + [] == before;
    while offset < |rows|
      invariant 0 <= offset <= |rows|
      invariant table.contents == before + TableOf(names, rows[..offset])
    {
      var end := if offset + INSERT_BATCH_SIZE < |rows| then offset + INSERT_BATCH_SIZE else |rows|;
      InsertBatch(table, names, rows[offset..end]);
      assert rows[..end] == rows[..offset] + rows[offset..end];
      TableOfSplit(names, rows[..offset], rows[offset..end]);
      AppendTwice(before, TableOf(names, rows[..offset]), TableOf(names, rows[offset..end]));
      offset := end;
    }
    assert rows[..|rows|] == rows;
  }

  method InsertRowsViaUnnest(table: TempTable, names: seq<string>, rows: seq<Row>)
    requires names != []
    modifies table
    ensures table.contents == old(table.contents) + TableOf(names, rows)
  {
    var params: seq<seq<Cell>> := [];
    for c := 0 to |names|
      invariant |params| == c && forall k :: 0 <= k < c ==> params[k] == Map(row => CellOf(row, names[k]), rows)
    {
      params := params + [Map(row => CellOf(row, names[c]), rows)];
    }
    ghost var all := TableOf(names, rows);
    forall p | p in params ensures |p| == |rows| {
      var k :| 0 <= k < |params| && params[k] == p;
    }
    LongestOfEqual(params, |rows|);
    forall r | 0 <= r < |rows| ensures Unnested(params)[r] == all[r] {
      forall c | 0 <= c < |names| ensures Unnested(params)[r][c] == all[r][c] {
        assert params[c][r] == CellOf(rows[r], names[c]);
      }
    }
    assert Unnested(params) == all;
    table.InsertUnnest(params);
  }

  method InsertRowsViaCopy(table: TempTable, names: seq<string>, rows: seq<Row>)
    requires names != [] && rows != []
    modifies table
    ensures table.contents == old(table.contents) + BlankedTable(TableOf(names, rows))
  {
    ghost var cells := TableOf(names, rows);
    assert cells != [];
    hide CsvPayload, ReadCsv, BlankedTable, TableOf;
    var payload := BuildCsvPayload(rows, names);
    PayloadReadsBack(cells);
    var ok := table.CopyCsv(payload);
  }

  /** The thresholds choose how; the table has at least one column. */
  method LoadRowsIntoTempTable(table: TempTable, names: seq<string>, rows: seq<Row>, copyThreshold: real,
                               unnestThreshold: real)
    returns (strategy: Strategy)
    requires names != []
    modifies table
    ensures table.contents == old(table.contents) + Loaded(TableOf(names, rows), copyThreshold)
    ensures strategy.Copy? <==> |rows| as real >= copyThreshold
    ensures strategy.Unnest? <==> unnestThreshold <= |rows| as real < copyThreshold
  {
    assert rows == [] ==> TableOf(names, rows) == [];
    hide TableOf;
    if |rows| as real >= copyThreshold {
      if rows != [] {
        InsertRowsViaCopy(table, names, rows);
      } else {
        assert table.contents + [] == table.contents;
      }
      return Copy;
    }
    if |rows| as real >= unnestThreshold {
      InsertRowsViaUnnest(table, names, rows);
      assert |TableOf(names, rows)| == |rows|;
      return Unnest;
    }
    InsertRowsBatched(table, names, rows);
    assert |TableOf(names, rows)| == |rows|;
    return Batch;
  }

  /** What the table then holds. */
  function Loaded(table: Table, copyThreshold: real): Table {
    if |table| as real >= copyThreshold then BlankedTable(table) else table
  }

  /** The rows are loaded unchanged exactly when COPY is not used or no cell is empty text. */
  lemma LoadExact(table: Table, copyThreshold: real)
    ensures Loaded(table, copyThreshold) == table <==> |table| as real < copyThreshold || NoEmptyText(table)
  {
    hide BlankedTable;
    BlankedExact(table);
  }
}
