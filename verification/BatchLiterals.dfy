/** Batches byte by byte, and the errors of the ones that are not. */
module BatchLiterals {
  import opened Wrappers
  import opened Bytes
  import opened Floats
  import opened Cells
  import opened Rpgb
  import opened RpgbProofs

  // ----- headers ----------------------------------------------------------------------------

  /** `RGPB`, the magic number least significant byte first. */
  const MAGIC_BYTES: seq<byte> := [0x52, 0x47, 0x50, 0x42]
  const VERSION_BYTES: seq<byte> := [1, 0, 0, 0]

  lemma SmallWord(n: nat)
    requires n < 256
    ensures PutLE32(n) == [n, 0, 0, 0]
  {
  }

  lemma MagicWord()
    ensures PutLE32(MAGIC) == MAGIC_BYTES && PutLE32(VERSION) == VERSION_BYTES
  {
  }

  /** Four bytes read as a number exactly when they are written as it. */
  lemma WordExactly(b: seq<byte>, at: nat, n: nat)
    requires at + 4 <= |b| && n < TWO_32
    ensures LE32(b, at) == n <==> b[at..at + 4] == PutLE32(n)
  {
    if b[at..at + 4] == PutLE32(n) {
      LE32Inverse(n, b, at);
    }
    if LE32(b, at) == n {
      WordIs(b, at);
    }
  }

  lemma Shift(b: nat, w: nat)
    requires b < 256
    ensures (b + 0x100 * w) / 0x100 == w && (b + 0x100 * w) % 0x100 == b
  {
  }

  lemma WordDigits(b0: nat, b1: nat, b2: nat, b3: nat)
    requires b0 < 256 && b1 < 256 && b2 < 256 && b3 < 256
    ensures PutLE32(b0 + b1 * 0x100 + b2 * 0x1_0000 + b3 * 0x100_0000) == [b0, b1, b2, b3]
  {
    var w1 := b2 + 0x100 * b3;
    var w0 := b1 + 0x100 * w1;
    var v := b0 + 0x100 * w0;
    Shift(b0, w0);
    Shift(b1, w1);
    Shift(b2, b3);
    assert v / 0x1_0000 == w1 && v / 0x100_0000 == b3;
  }

  lemma WordIs(b: seq<byte>, at: nat)
    requires at + 4 <= |b|
    ensures PutLE32(LE32(b, at)) == b[at..at + 4]
  {
    hide PutLE32;
    WordDigits(b[at], b[at + 1], b[at + 2], b[at + 3]);
  }

  /** What is wrong with a header, in the order in which it is looked at. */
  lemma HeaderExactly(payload: seq<byte>, fields: seq<Field>)
    requires payload != [] && |fields| < TWO_32
    ensures |payload| < 16 ==> Decoded(payload, fields) == Failure(TooShort)
    ensures |payload| >= 16 ==>
      var bad := CheckHeader(payload, |fields|);
      if payload[0..4] != MAGIC_BYTES then bad == Some(BadMagic)
      else if payload[4..8] != VERSION_BYTES then bad == Some(BadVersion)
      else if payload[12..16] != PutLE32(|fields|) then bad == Some(ColumnMismatch)
      else bad == None
    ensures |payload| >= 16 && CheckHeader(payload, |fields|).Some? ==>
      Decoded(payload, fields) == Failure(CheckHeader(payload, |fields|).value)
  {
    hide LE32, PutLE32, DecodeFrom;
    MagicWord();
    if |payload| >= 16 {
      WordExactly(payload, 0, MAGIC);
      WordExactly(payload, 4, VERSION);
      WordExactly(payload, 12, |fields|);
    }
  }

  /** A cell cut off before its mark, in its length and in its value, and whole ones; any mark but 0 is a NULL. */
  lemma CutCells()
    ensures ReadCell([], 0) == Failure(Truncated)
    ensures ReadCell([0, 2, 0, 0], 0) == Failure(TruncatedAtLength)
    ensures ReadCell([0, 2, 0, 0, 0, 7], 0) == Failure(TruncatedAtValue)
    ensures ReadCell([0, 2, 0, 0, 0, 7, 8], 0) == Success(Read(Some([7, 8]), 7))
    ensures ReadCell([0, 0, 0, 0, 0], 0) == Success(Read(Some([]), 5))
    ensures ReadCell([1], 0) == Success(Read(None, 1)) == ReadCell([9], 0)
  {
    assert [0, 2, 0, 0, 0, 7, 8][5..7] == [7, 8] && [0, 0, 0, 0, 0][5..5] == [];
  }

  // ----- cells ------------------------------------------------------------------------------

  lemma BinaryWords()
    ensures PutI16(-2) == [0xff, 0xfe] && PutI32(258) == [0, 0, 1, 2]
    ensures PutI64(-1) == [0xff, 0xff, 0xff, 0xff, 0xff, 0xff, 0xff, 0xff]
  {
    assert PutU16(0xfffe) == [0xff, 0xfe];
    assert PutU32(0xffff_ffff) == [0xff, 0xff, 0xff, 0xff];
    assert -1 / TWO_32 == -1 && -1 % TWO_32 == 0xffff_ffff;
    assert PutI64(-1) == PutI32(-1) + PutU32(0xffff_ffff);
  }

  /** Each type in its binary form. */
  lemma BinaryCells()
    ensures EncodeCell(Field("c", 21, 1), Int(-2)) == Some([0xff, 0xfe])
    ensures EncodeCell(Field("c", 23, 1), Int(258)) == Some([0, 0, 1, 2])
    ensures EncodeCell(Field("c", 20, 1), Big(-1)) == Some([0xff, 0xff, 0xff, 0xff, 0xff, 0xff, 0xff, 0xff])
    ensures EncodeCell(Field("c", 16, 1), Bool(true)) == Some([1])
    ensures EncodeCell(Field("c", 16, 1), Text([102])) == Some([0])
    ensures EncodeCell(Field("c", 17, 1), Raw([0, 7])) == Some([0, 7])
  {
    hide PutI16, PutI32, PutI64, BigIntOf, FloatBytes, DoubleBytes, DecimalText;
    BinaryWords();
    assert [102] != [116] && [102][0] != [84][0] && [102][0] != [49][0] && [102][0] != [116][0];
  }

  /** Each type read back from its binary form: too few bytes are an error, dates and the like stay bytes. */
  lemma DecodedCells(bytes: seq<byte>)
    ensures DecodeCell(Field("c", 16, 1), [1]) == Some(Bool(true))
    ensures DecodeCell(Field("c", 16, 1), []) == Some(Bool(false))
    ensures DecodeCell(Field("c", 17, 1), bytes) == Some(Raw(bytes))
    ensures DecodeCell(Field("c", 25, 1), bytes) == Some(Text(bytes))
    ensures DecodeCell(Field("c", 21, 1), [0xff, 0xfe]) == Some(Int(-2)) && DecodeCell(Field("c", 21, 1), [1]) == None
    ensures DecodeCell(Field("c", 23, 1), [0, 0, 1, 2]) == Some(Int(258))
    ensures DecodeCell(Field("c", 23, 1), [0, 1, 2]) == None
    ensures |bytes| < 4 ==> DecodeCell(Field("c", 700, 1), bytes) == None
    ensures |bytes| < 8 ==> DecodeCell(Field("c", 701, 1), bytes) == None == DecodeCell(Field("c", 20, 1), bytes)
    ensures DecodeCell(Field("c", 1082, 1), bytes) == if |bytes| < 4 then None else Some(Opaque(1082, bytes))
    ensures DecodeCell(Field("c", 1114, 1), bytes) == if |bytes| < 8 then None else Some(Opaque(1114, bytes))
    ensures DecodeCell(Field("c", 1184, 1), bytes) == if |bytes| < 8 then None else Some(Opaque(1184, bytes))
    ensures DecodeCell(Field("c", 2950, 1), bytes) == Some(Opaque(2950, bytes))
    ensures DecodeCell(Field("c", 1700, 1), bytes) == Some(Opaque(1700, bytes))
  {
    hide SinglePattern, DoublePattern, DecimalText, I64, Integer;
  }

  lemma SmallTexts()
    ensures DecimalText(-12) == [45, 49, 50] && DecimalText(0) == [48]
  {
    assert Decimal(1) == [49];
    assert Decimal(12) == Decimal(1) + [50];
  }

  /** Each kind of value in its text form. */
  lemma TextCells()
    ensures EncodeCell(Field("c", 25, 0), Int(-12)) == Some([45, 49, 50])
    ensures EncodeCell(Field("c", 25, 0), Big(0)) == Some([48])
    ensures EncodeCell(Field("c", 25, 0), Bool(true)) == Some([116])
    ensures EncodeCell(Field("c", 25, 0), Bool(false)) == Some([102])
    ensures EncodeCell(Field("c", 16, 0), Text([84])) == Some([116])
    ensures EncodeCell(Field("c", 16, 0), Text([49])) == Some([116])
    ensures EncodeCell(Field("c", 16, 0), Text([121])) == Some([102])
    ensures EncodeCell(Field("c", 25, 0), Text([121])) == Some([121])
  {
    hide DecimalText, EncodeBinary;
    SmallTexts();
    assert [84] != [116] && [84][0] != [49][0] && [121][0] != [116][0] && [121][0] != [84][0] && [121][0] != [49][0];
  }

  /** Digits of the bases 16, 8 and 2, in both cases, and what is no integer. */
  lemma Numerals()
    ensures Numeral([97, 70], 16) == Some(175) && Numeral([65, 102], 16) == Some(175)
    ensures Numeral([55], 8) == Some(7) && Numeral([56], 8) == None == Numeral([50], 2)
    ensures Numeral([103], 16) == None && Numeral([71], 16) == None && Numeral([47], 16) == None
    ensures Numeral([96], 16) == None && Numeral([91], 16) == None && Numeral([64], 16) == None
  {
    assert [97, 70][..1] == [97] && [65, 102][..1] == [65] && [97][..0] == [] && [65][..0] == [];
    assert Numeral([97], 16) == Some(10) && Numeral([65], 16) == Some(10);
  }

  lemma BlanksTrimmed()
    ensures TrimBlank([48, 120, 97, 70]) == [48, 120, 97, 70] && TrimBlank([49, 46, 53]) == [49, 46, 53]
    ensures TrimBlank([32, 49, 50, 10]) == [49, 50] && TrimBlank([9, 55, 13]) == [55]
    ensures TrimBlank([14, 55]) == [14, 55] && TrimBlank([8, 55]) == [8, 55]
  {
    assert [32, 49, 50, 10][1..] == [49, 50, 10] && [49, 50, 10][..2] == [49, 50];
    assert TrimBlank([49, 50, 10]) == [49, 50];
    assert [9, 55, 13][1..] == [55, 13] && [55, 13][..1] == [55] && TrimBlank([55, 13]) == [55];
  }

  /** `0xaF`, ` 12 `, `+7`, 7 between a tab and a line end, and the empty text, read as BigInt reads them. */
  lemma BigIntTexts()
    ensures BigIntOf([48, 120, 97, 70]) == Some(175)
    ensures BigIntOf([32, 49, 50, 10]) == Some(12)
    ensures BigIntOf([43, 55]) == Some(7) && BigIntOf([]) == Some(0)
    ensures BigIntOf([9, 55, 13]) == Some(7)
  {
    assert TrimBlank([43, 55]) == [43, 55] && TrimBlank([]) == [];
    BlanksTrimmed();
    Numerals();
    SmallNumerals();
    hide Numeral, TrimBlank;
    assert [48, 120, 97, 70][2..] == [97, 70] && [43, 55][1..] == [55];
  }

  /** `-`, `1.5` and control characters other than blanks are no integers. */
  lemma NoBigInts()
    ensures BigIntOf([45]) == None && BigIntOf([49, 46, 53]) == None
    ensures BigIntOf([14, 55]) == None && BigIntOf([8, 55]) == None
  {
    assert TrimBlank([45]) == [45];
    BlanksTrimmed();
    SmallNumerals();
    hide Numeral, TrimBlank;
  }

  /** `x`, `o` and `b` behind a zero, in both cases, and no other letter, choose the base. */
  lemma BasesExactly(c: byte)
    ensures RadixOf(c) == if c in {120, 88} then 16 else if c in {111, 79} then 8 else if c in {98, 66} then 2 else 0
  {
  }

  lemma SmallNumerals()
    ensures Numeral([49, 50], 10) == Some(12) && Numeral([49, 46, 53], 10) == None && Numeral([55], 10) == Some(7)
    ensures Numeral([14, 55], 10) == None && Numeral([8, 55], 10) == None
  {
    assert [14, 55][..1] == [14] && [8, 55][..1] == [8] && Numeral([14], 10) == None && Numeral([8], 10) == None;
    assert [49, 50][..1] == [49] && [49][..0] == [] && [55][..0] == [];
    assert Numeral([49], 10) == Some(1);
    assert [49, 46, 53][..2] == [49, 46];
    assert Numeral([49, 46], 10) == None;
  }

  lemma FiveAsSingle()
    ensures Pattern(5, SINGLE) == 0x40a0_0000 && Pattern(-5, SINGLE) == 0xc0a0_0000
  {
    PowersOfTwo();
    SignBits();
  }

  lemma OneAsDouble()
    ensures Pattern(1, DOUBLE) == 0x3ff0_0000_0000_0000
  {
    PowersOfTwo();
    SignBits();
  }

  lemma SingleWords()
    ensures PutLE32(0x40a0_0000) == [0, 0, 0xa0, 0x40] && PutLE32(0xc0a0_0000) == [0, 0, 0xa0, 0xc0]
  {
  }

  lemma SingleBytes()
    ensures FloatBytes(5) == [0, 0, 0xa0, 0x40] && FloatBytes(-5) == [0, 0, 0xa0, 0xc0]
  {
    hide Pattern, PutLE32;
    FiveAsSingle();
    SingleWords();
  }

  /** 5 and -5 as singles, least significant byte first, and the pattern of 1 as a double. */
  lemma FloatCells()
    ensures Pattern(1, DOUBLE) == 0x3ff0_0000_0000_0000
    ensures EncodeCell(Field("c", 700, 1), Int(5)) == Some([0, 0, 0xa0, 0x40])
    ensures EncodeCell(Field("c", 700, 1), Int(-5)) == Some([0, 0, 0xa0, 0xc0])
  {
    hide Pattern, FloatBytes, DoubleBytes, BigIntOf, DecimalText, PutI16, PutI32, PutI64;
    SingleBytes();
    OneAsDouble();
  }

  // ----- a batch ----------------------------------------------------------------------------

  const TWO_COLUMNS := [Field("a", 23, 1), Field("b", 25, 0)]
  const TWO_ROWS: seq<GivenRow> := [map["a" := Int(5), "b" := Text([120, 121])], map["a" := Null]]

  const FIRST_CELLS: seq<Cell> := [Some([0, 0, 0, 5]), None]
  const SECOND_CELLS: seq<Cell> := [Some([120, 121]), None]

  lemma ShownCells()
    ensures EncodeCell(TWO_COLUMNS[0], Int(5)) == Some([0, 0, 0, 5])
    ensures EncodeCell(TWO_COLUMNS[1], Text([120, 121])) == Some([120, 121])
  {
    hide BigIntOf, FloatBytes, DoubleBytes, DecimalText, PutI16, PutI64;
  }

  lemma SecondColumn()
    ensures CellsFrom(TWO_COLUMNS, TWO_ROWS, 1, 0) == Some(SECOND_CELLS)
  {
    hide EncodeCell;
    ShownCells();
    assert CellsFrom(TWO_COLUMNS, TWO_ROWS, 2, 0) == Some([]);
    assert CellsFrom(TWO_COLUMNS, TWO_ROWS, 1, 2) == Some([]);
    assert "b" !in TWO_ROWS[1] by { assert "a" != "b" by { assert "a"[0] != "b"[0]; } }
    assert Lookup(TWO_ROWS[1], TWO_COLUMNS[1].name) == Null;
    var none: Cell := None;
    assert [none] + [] == [none];
    assert CellsFrom(TWO_COLUMNS, TWO_ROWS, 1, 1) == Some([none]);
    assert [Some([120, 121])] + [none] == SECOND_CELLS;
  }

  lemma BothColumns()
    ensures CellsFrom(TWO_COLUMNS, TWO_ROWS, 0, 0) == Some(FIRST_CELLS + SECOND_CELLS)
  {
    hide EncodeCell;
    ShownCells();
    SecondColumn();
    assert CellsFrom(TWO_COLUMNS, TWO_ROWS, 0, 2) == Some(SECOND_CELLS);
    assert CellsFrom(TWO_COLUMNS, TWO_ROWS, 0, 1) == Some([None] + SECOND_CELLS);
    assert [Some([0, 0, 0, 5])] + ([None] + SECOND_CELLS) == FIRST_CELLS + SECOND_CELLS;
  }

  lemma ShownBody()
    ensures var cells := FIRST_CELLS + SECOND_CELLS;
      |cells| == 4 && Short(cells)
      && Body(cells, 4) == [0, 4, 0, 0, 0, 0, 0, 0, 5] + [1] + [0, 2, 0, 0, 0, 120, 121] + [1]
  {
    hide PutLE32;
    SmallWord(2);
    SmallWord(4);
    var cells := FIRST_CELLS + SECOND_CELLS;
    assert PutCell(cells[0]) == [0, 4, 0, 0, 0, 0, 0, 0, 5];
    assert PutCell(cells[2]) == [0, 2, 0, 0, 0, 120, 121];
    assert Body(cells, 0) == [];
    assert Body(cells, 1) == [0, 4, 0, 0, 0, 0, 0, 0, 5];
    assert Body(cells, 2) == Body(cells, 1) + [1];
    assert Body(cells, 3) == Body(cells, 2) + [0, 2, 0, 0, 0, 120, 121];
  }

  /** Two columns and two rows: the cells come column by column, and a missing cell is NULL. */
  lemma LiteralBatch()
    ensures Encodable(TWO_COLUMNS, TWO_ROWS)
    ensures Encoded(TWO_COLUMNS, TWO_ROWS)
         == [0x52, 0x47, 0x50, 0x42, 1, 0, 0, 0, 2, 0, 0, 0, 2, 0, 0, 0]
            + ([0, 4, 0, 0, 0, 0, 0, 0, 5] + [1] + [0, 2, 0, 0, 0, 120, 121] + [1])
  {
    hide PutLE32, CellsFrom, PutCell, Body;
    MagicWord();
    SmallWord(2);
    BothColumns();
    ShownBody();
  }
}
