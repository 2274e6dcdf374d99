/** One cell of a result: its value, its libpq bytes, and back (src/pg-binary-encode.ts, src/pg-binary-decode.ts). */
module Cells {
  import opened Wrappers
  import opened Bytes
  import opened Floats

  type Text = seq<byte>

  /**
   What a cell may hold. Text is its UTF-8 bytes. Int is an integral JavaScript number. Opaque
   stands for what decoding makes of fractions, infinities and the date, uuid and numeric types.
   */
  datatype Value =
    | Null
    | Bool(b: bool)
    | Int(n: int)
    | Big(n: int)
    | Text(t: Text)
    | Raw(bytes: seq<byte>)
    | Opaque(oid: nat, bytes: seq<byte>)

  /** The values that the encoder is given. */
  type Given = v: Value | !v.Opaque? witness Null

  datatype Field = Field(name: string, oid: nat, format: nat)

  const OID_BOOL := 16
  const OID_BYTEA := 17
  const OID_INT8 := 20
  const OID_INT2 := 21
  const OID_INT4 := 23
  const OID_FLOAT4 := 700
  const OID_FLOAT8 := 701
  const OID_DATE := 1082
  const OID_TIMESTAMP := 1114
  const OID_TIMESTAMPTZ := 1184
  const OID_NUMERIC := 1700
  const OID_UUID := 2950

  const TWO_63 := 0x8000_0000_0000_0000

  // ----- decimal text -----------------------------------------------------------------------

  function Decimal(n: nat): (r: Text)
    ensures r != [] && forall c <- r :: 48 <= c <= 57
    ensures n > 0 ==> r[0] != 48
    ensures n < 10 ==> |r| == 1
  {
    if n < 10 then [48 + n] else Decimal(n / 10) + [48 + n % 10]
  }

  /** String(n) and n.toString(). */
  function DecimalText(n: int): Text {
    if n < 0 then [45] + Decimal(-n) else Decimal(n)
  }

  function DigitValue(c: byte): nat {
    if 48 <= c <= 57 then c - 48 else if 65 <= c <= 90 then c - 55 else if 97 <= c <= 122 then c - 87 else 36
  }

  /** The value of digits in a base, or None when one is no digit. */
  function Numeral(t: Text, base: nat): Option<nat> {
    if t == [] then Some(0)
    else
      var high := Numeral(t[..|t| - 1], base);
      var d := DigitValue(t[|t| - 1]);
      if high.None? || d >= base then None else Some(high.value * base + d)
  }

  predicate IsBlank(c: byte) { c == 32 || 9 <= c <= 13 }

  function TrimBlank(t: Text): Text {
    if t == [] then t
    else if IsBlank(t[0]) then TrimBlank(t[1..])
    else if IsBlank(t[|t| - 1]) then TrimBlank(t[..|t| - 1])
    else t
  }

  function RadixOf(c: byte): nat {
    if c == 120 || c == 88 then 16 else if c == 111 || c == 79 then 8 else if c == 98 || c == 66 then 2 else 0
  }

  /** BigInt(text); None where it throws. */
  function BigIntOf(t: Text): Option<int> {
    var u := TrimBlank(t);
    if u == [] then Some(0)
    else if |u| > 2 && u[0] == 48 && RadixOf(u[1]) != 0 then
      var v := Numeral(u[2..], RadixOf(u[1]));
      if v.None? then None else Some(v.value)
    else
      var signed := u[0] == 45 || u[0] == 43;
      var v := Numeral(if signed then u[1..] else u, 10);
      if v.None? || (signed && |u| == 1) then None else Some((if u[0] == 45 then -1 else 1) * v.value)
  }

  lemma {:induction false} NumeralOfDecimal(n: nat)
    ensures Numeral(Decimal(n), 10) == Some(n)
  {
    var t := Decimal(n);
    if n >= 10 {
      NumeralOfDecimal(n / 10);
      assert t[..|t| - 1] == Decimal(n / 10);
    } else {
      assert t[..0] == [];
    }
  }

  lemma BigIntOfDecimal(n: int)
    ensures BigIntOf(DecimalText(n)) == Some(n)
  {
    var t := DecimalText(n);
    var digits := Decimal(if n < 0 then -n else n);
    NumeralOfDecimal(if n < 0 then -n else n);
    assert digits[0] in digits && digits[|digits| - 1] in digits;
    assert t[|t| - 1] == digits[|digits| - 1];
    assert TrimBlank(t) == t;
    if n < 0 {
      assert t[1..] == digits;
    }
  }

  // ----- eight bytes ------------------------------------------------------------------------

  function PutI64(v: int): (r: seq<byte>)
    requires -TWO_63 <= v < TWO_63
    ensures |r| == 8
  {
    PutI32(v / TWO_32) + PutU32(v % TWO_32)
  }

  function I64(b: seq<byte>): (v: int)
    requires 8 <= |b|
    ensures -TWO_63 <= v < TWO_63
  {
    I32(b, 0) * TWO_32 + U32(b, 4)
  }

  lemma I64Inverse(v: int)
    requires -TWO_63 <= v < TWO_63
    ensures I64(PutI64(v)) == v
  {
    var b := PutI64(v);
    assert b[0..4] == PutI32(v / TWO_32) && b[4..8] == PutU32(v % TWO_32);
    I32Inverse(v / TWO_32, b, 0);
    U32Inverse(v % TWO_32, b, 4);
  }

  // ----- floating point bytes ---------------------------------------------------------------

  lemma PowersOfTwo()
    ensures Pow2(8) == 0x100 && Pow2(16) == 0x1_0000 && Pow2(23) == 0x80_0000
    ensures Pow2(52) == 0x10_0000_0000_0000
  {
    assert Pow2(4) == 16;
    PowAdd(4, 4);
    PowAdd(8, 8);
    PowAdd(16, 4);
    assert Pow2(3) == 8;
    PowAdd(20, 3);
    PowAdd(16, 16);
    PowAdd(32, 20);
  }

  lemma SignBits()
    ensures SINGLE.Sign() == TWO_31 && DOUBLE.Sign() == TWO_63
    ensures Roomy(SINGLE) && Roomy(DOUBLE)
  {
    PowersOfTwo();
  }

  /** writeFloatLE and writeDoubleLE of an integral number. */
  function FloatBytes(n: int): (r: seq<byte>)
    ensures |r| == 4
  {
    SignBits();
    PatternReadsBack(n, SINGLE);
    PutLE32(Pattern(n, SINGLE))
  }

  function DoubleBytes(n: int): (r: seq<byte>)
    ensures |r| == 8
  {
    SignBits();
    PatternReadsBack(n, DOUBLE);
    PutLE32(Pattern(n, DOUBLE) % TWO_32) + PutLE32(Pattern(n, DOUBLE) / TWO_32)
  }

  /** readFloatLE and readDoubleLE, as patterns. */
  function SinglePattern(b: seq<byte>): nat
    requires 4 <= |b|
  {
    LE32(b, 0)
  }

  function DoublePattern(b: seq<byte>): nat
    requires 8 <= |b|
  {
    LE32(b, 0) + LE32(b, 4) * TWO_32
  }

  lemma FloatBytesReadBack(n: int)
    ensures SinglePattern(FloatBytes(n)) == Pattern(n, SINGLE)
    ensures DoublePattern(DoubleBytes(n)) == Pattern(n, DOUBLE)
  {
    hide PutLE32, LE32, Pattern;
    SignBits();
    PatternReadsBack(n, SINGLE);
    PatternReadsBack(n, DOUBLE);
    var f, d := FloatBytes(n), DoubleBytes(n);
    assert f[0..4] == f;
    LE32Inverse(Pattern(n, SINGLE), f, 0);
    var p := Pattern(n, DOUBLE);
    assert d[0..4] == PutLE32(p % TWO_32) && d[4..8] == PutLE32(p / TWO_32);
    LE32Inverse(p % TWO_32, d, 0);
    LE32Inverse(p / TWO_32, d, 4);
  }

  // ----- one cell ---------------------------------------------------------------------------

  const TRUE_TEXT: Text := [116]
  const FALSE_TEXT: Text := [102]

  predicate IsTrueText(t: Text) { t == TRUE_TEXT || t == [84] || t == [49] }

  /** String(value), for a value that is no buffer. */
  function StringOf(v: Given): Text {
    match v
    case Bool(b) => if b then [116, 114, 117, 101] else [102, 97, 108, 115, 101]
    case Int(n) => DecimalText(n)
    case Big(n) => DecimalText(n)
    case Text(t) => t
    case Raw(bytes) => bytes
    case Null => [110, 117, 108, 108]
    case Opaque(_, _) => []
  }

  /** encodePgCellBytes for a value that is not null; None where it throws. */
  function EncodeCell(field: Field, v: Given): Option<seq<byte>> {
    if v.Raw? then Some(v.bytes)
    else if field.format == 1 then EncodeBinary(field.oid, v)
    else if v.Bool? then Some(if v.b then TRUE_TEXT else FALSE_TEXT)
    else if field.oid == OID_BOOL && v.Text? then Some(if IsTrueText(v.t) then TRUE_TEXT else FALSE_TEXT)
    else Some(StringOf(v))
  }

  function EncodeBinary(oid: nat, v: Given): Option<seq<byte>> {
    if v.Bool? || oid == OID_BOOL then
      Some([if v == Bool(true) || v == Int(1) || (v.Text? && IsTrueText(v.t)) then 1 else 0])
    else if oid == OID_INT2 && v.Int? then (if -0x8000 <= v.n < 0x8000 then Some(PutI16(v.n)) else None)
    else if oid == OID_INT4 && v.Int? then (if -TWO_31 <= v.n < TWO_31 then Some(PutI32(v.n)) else None)
    else if oid == OID_INT8 then
      var n := if v.Big? then Some(v.n) else BigIntOf(StringOf(v));
      if n.Some? && -TWO_63 <= n.value < TWO_63 then Some(PutI64(n.value)) else None
    else if oid == OID_FLOAT4 && v.Int? then Some(FloatBytes(v.n))
    else if oid == OID_FLOAT8 && v.Int? then Some(DoubleBytes(v.n))
    else Some(StringOf(v))
  }

  /** The bytes a fixed-width reader needs. */
  function WidthOf(oid: nat): nat {
    if oid == OID_INT2 then 2
    else if oid == OID_INT4 || oid == OID_FLOAT4 || oid == OID_DATE then 4
    else if oid == OID_INT8 || oid == OID_FLOAT8 || oid == OID_TIMESTAMP || oid == OID_TIMESTAMPTZ then 8
    else 0
  }

  predicate IsOpaque(oid: nat) {
    oid == OID_DATE || oid == OID_TIMESTAMP || oid == OID_TIMESTAMPTZ || oid == OID_UUID || oid == OID_NUMERIC
  }

  function NumberOr(n: Option<int>, other: Value): Value { if n.Some? then Int(n.value) else other }

  /** decodePgCell for bytes that are there; None where it throws. */
  function DecodeCell(field: Field, bytes: seq<byte>): Option<Value> {
    if field.format == 0 then Some(if field.oid == OID_BOOL then Bool(IsTrueText(bytes)) else Text(bytes))
    else if |bytes| < WidthOf(field.oid) then None
    else if field.oid == OID_BOOL then Some(Bool(bytes != [] && bytes[0] != 0))
    else if field.oid == OID_INT2 then Some(Int(I16(bytes, 0)))
    else if field.oid == OID_INT4 then Some(Int(I32(bytes, 0)))
    else if field.oid == OID_INT8 then Some(Text(DecimalText(I64(bytes))))
    else if field.oid == OID_BYTEA then Some(Raw(bytes))
    else if field.oid == OID_FLOAT4 then Some(NumberOr(Integer(SinglePattern(bytes), SINGLE), Opaque(field.oid, bytes)))
    else if field.oid == OID_FLOAT8 then Some(NumberOr(Integer(DoublePattern(bytes), DOUBLE), Opaque(field.oid, bytes)))
    else if IsOpaque(field.oid) then Some(Opaque(field.oid, bytes))
    else Some(Text(bytes))
  }

  /** The cell after encoding and decoding. */
  function Back(field: Field, v: Given): Option<Value> {
    if v.Null? then Some(Null)
    else
      var bytes := EncodeCell(field, v);
      if bytes.None? then None else DecodeCell(field, bytes.value)
  }

  ghost predicate CanonicalInt8(t: Text) {
    exists n: int :: -TWO_63 <= n < TWO_63 && t == DecimalText(n)
  }

  /** The binary form of the type holds the number. */
  predicate FitsNumber(oid: nat, n: int) {
    || (oid == OID_INT2 && -0x8000 <= n < 0x8000)
    || (oid == OID_INT4 && -TWO_31 <= n < TWO_31)
    || (oid == OID_FLOAT4 && Representable(n, SINGLE))
    || (oid == OID_FLOAT8 && Representable(n, DOUBLE))
  }

  /** The value is of the kind that the type and format of the column decode to. */
  ghost predicate Typed(field: Field, v: Given) {
    match v
    case Null => true
    case Bool(_) => field.oid == OID_BOOL
    case Int(n) => field.format == 1 && FitsNumber(field.oid, n)
    case Raw(_) => field.format == 1 && field.oid == OID_BYTEA
    case Text(t) =>
      && field.oid != OID_BOOL
      && (field.format == 1 ==>
            (field.oid == OID_INT8 && CanonicalInt8(t))
            || (WidthOf(field.oid) == 0 && field.oid != OID_BYTEA && !IsOpaque(field.oid)))
    case _ => false
  }

  lemma Int8Back(field: Field, v: Given)
    requires field.format == 1 && field.oid == OID_INT8 && !v.Null?
    ensures Back(field, v) == Some(v) <==> v.Text? && CanonicalInt8(v.t)
  {
    hide BigIntOf, DecimalText, PutI64, I64;
    if v.Text? && CanonicalInt8(v.t) {
      var n: int :| -TWO_63 <= n < TWO_63 && v.t == DecimalText(n);
      BigIntOfDecimal(n);
      I64Inverse(n);
    }
    if Back(field, v) == Some(v) {
      var bytes := EncodeCell(field, v).value;
      assert v == Text(DecimalText(I64(bytes)));
    }
  }

  /** A number in a floating point column comes back exactly when the column's format represents it. */
  lemma FloatBack(field: Field, v: Given)
    requires field.format == 1 && (field.oid == OID_FLOAT4 || field.oid == OID_FLOAT8) && !v.Null?
    ensures Back(field, v) == Some(v) <==>
      v.Int? && Representable(v.n, if field.oid == OID_FLOAT4 then SINGLE else DOUBLE)
  {
    hide BigIntOf, DecimalText, FloatBytes, DoubleBytes, SinglePattern, DoublePattern, Integer, Representable;
    if v.Int? {
      SignBits();
      FloatBytesReadBack(v.n);
      PatternReadsBack(v.n, if field.oid == OID_FLOAT4 then SINGLE else DOUBLE);
    }
  }

  /** A cell survives encoding and decoding exactly when it is typed. */
  lemma CellRoundTripExact(field: Field, v: Given)
    requires field.format <= 1
    ensures Back(field, v) == Some(v) <==> Typed(field, v)
  {
    hide BigIntOf, DecimalText, PutI64, I64, PutI32, I32, PutI16, I16, Integer, Representable, FloatBytes, DoubleBytes;
    if field.format == 1 && field.oid == OID_INT8 && !v.Null? {
      Int8Back(field, v);
    } else if field.format == 1 && (field.oid == OID_FLOAT4 || field.oid == OID_FLOAT8) && !v.Null? {
      FloatBack(field, v);
    } else if field.format == 1 && v.Int? && field.oid == OID_INT2 && -0x8000 <= v.n < 0x8000 {
      assert PutI16(v.n)[0..2] == PutI16(v.n);
      I16Inverse(v.n, PutI16(v.n), 0);
    } else if field.format == 1 && v.Int? && field.oid == OID_INT4 && -TWO_31 <= v.n < TWO_31 {
      assert PutI32(v.n)[0..4] == PutI32(v.n);
      I32Inverse(v.n, PutI32(v.n), 0);
    }
  }
}
