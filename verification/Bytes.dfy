/** Bytes and the fixed-width integers of Node's Buffer. */
module Bytes {
  type byte = b: int | 0 <= b < 256

  type int16 = v: int | -0x8000 <= v < 0x8000

  const TWO_16 := 0x1_0000
  const TWO_31 := 0x8000_0000
  const TWO_32 := 0x1_0000_0000

  function PutU32(v: nat): (r: seq<byte>)
    requires v < TWO_32
    ensures |r| == 4
  {
    [v / 0x100_0000, v / 0x1_0000 % 256, v / 0x100 % 256, v % 256]
  }

  function PutU16(v: nat): (r: seq<byte>)
    requires v < TWO_16
    ensures |r| == 2
  {
    [v / 0x100, v % 256]
  }

  /** Big endian, unsigned. */
  function U32(b: seq<byte>, at: nat): (v: nat)
    requires at + 4 <= |b|
    ensures v < TWO_32
  {
    b[at] as int * 0x100_0000 + b[at + 1] as int * 0x1_0000 + b[at + 2] as int * 0x100 + b[at + 3] as int
  }

  function U16(b: seq<byte>, at: nat): (v: nat)
    requires at + 2 <= |b|
    ensures v < TWO_16
  {
    b[at] as int * 0x100 + b[at + 1] as int
  }

  /** Two's complement of a width given by its number of values. */
  function Signed(v: nat, values: nat): int
    requires v < values
  {
    if 2 * v < values then v else v - values
  }

  function Unsigned(v: int, values: nat): nat
    requires -(values as int) <= 2 * v < values
  {
    if v < 0 then v + values else v
  }

  function I32(b: seq<byte>, at: nat): (v: int)
    requires at + 4 <= |b|
    ensures -TWO_31 <= v < TWO_31
  {
    Signed(U32(b, at), TWO_32)
  }

  function I16(b: seq<byte>, at: nat): int
    requires at + 2 <= |b|
  {
    Signed(U16(b, at), TWO_16)
  }

  function PutI32(v: int): (r: seq<byte>)
    requires -TWO_31 <= v < TWO_31
    ensures |r| == 4
  {
    PutU32(Unsigned(v, TWO_32))
  }

  function PutI16(v: int): (r: seq<byte>)
    requires -0x8000 <= v < 0x8000
    ensures |r| == 2
  {
    PutU16(Unsigned(v, TWO_16))
  }

  /** Little endian, as the batch header uses. */
  function PutLE32(v: nat): (r: seq<byte>)
    requires v < TWO_32
    ensures |r| == 4
  {
    [v % 256, v / 0x100 % 256, v / 0x1_0000 % 256, v / 0x100_0000]
  }

  function LE32(b: seq<byte>, at: nat): (v: nat)
    requires at + 4 <= |b|
    ensures v < TWO_32
  {
    b[at] as int + b[at + 1] as int * 0x100 + b[at + 2] as int * 0x1_0000 + b[at + 3] as int * 0x100_0000
  }

  lemma Digits(v: nat)
    requires v < TWO_32
    ensures v / 0x100_0000 * 0x100_0000 + v / 0x1_0000 % 256 * 0x1_0000 + v / 0x100 % 256 * 0x100 + v % 256 == v
  {
    assert v == v / 0x100 * 0x100 + v % 256;
    assert v / 0x100 == v / 0x1_0000 * 0x100 + v / 0x100 % 256;
    assert v / 0x1_0000 == v / 0x100_0000 * 0x100 + v / 0x1_0000 % 256;
  }

  lemma U32Inverse(v: nat, b: seq<byte>, at: nat)
    requires v < TWO_32 && at + 4 <= |b| && b[at..at + 4] == PutU32(v)
    ensures U32(b, at) == v
  {
    Digits(v);
    assert b[at] == b[at..at + 4][0] && b[at + 1] == b[at..at + 4][1] && b[at + 2] == b[at..at + 4][2]
      && b[at + 3] == b[at..at + 4][3];
  }

  lemma U16Inverse(v: nat, b: seq<byte>, at: nat)
    requires v < TWO_16 && at + 2 <= |b| && b[at..at + 2] == PutU16(v)
    ensures U16(b, at) == v
  {
    assert b[at] == b[at..at + 2][0] && b[at + 1] == b[at..at + 2][1];
  }

  lemma LE32Inverse(v: nat, b: seq<byte>, at: nat)
    requires v < TWO_32 && at + 4 <= |b| && b[at..at + 4] == PutLE32(v)
    ensures LE32(b, at) == v
  {
    Digits(v);
    assert b[at] == b[at..at + 4][0] && b[at + 1] == b[at..at + 4][1] && b[at + 2] == b[at..at + 4][2]
      && b[at + 3] == b[at..at + 4][3];
  }

  lemma I32Inverse(v: int, b: seq<byte>, at: nat)
    requires -TWO_31 <= v < TWO_31 && at + 4 <= |b| && b[at..at + 4] == PutI32(v)
    ensures I32(b, at) == v
  {
    U32Inverse(Unsigned(v, TWO_32), b, at);
  }

  lemma I16Inverse(v: int, b: seq<byte>, at: nat)
    requires -0x8000 <= v < 0x8000 && at + 2 <= |b| && b[at..at + 2] == PutI16(v)
    ensures I16(b, at) == v
  {
    U16Inverse(Unsigned(v, TWO_16), b, at);
  }

  function Max(a: int, b: int): int { if a < b then b else a }

  function Min(a: int, b: int): int { if a < b then a else b }

  /** Where a possibly negative index of `subarray` points to. */
  function Clamp(i: int, length: nat): (r: nat)
    ensures r <= length
  {
    if i < 0 then Max(length + i, 0) else Min(i, length)
  }

  function Subarray(b: seq<byte>, start: int, end: int): seq<byte> {
    var from, to := Clamp(start, |b|), Clamp(end, |b|);
    if from < to then b[from..to] else []
  }

  function SubarrayFrom(b: seq<byte>, start: int): seq<byte> { b[Clamp(start, |b|)..] }

  lemma PartOfPart(b: seq<byte>, at: nat, length: nat, from: nat, to: nat)
    requires from <= to <= length && at + length <= |b|
    ensures b[at..at + length][from..to] == b[at + from..at + to]
  {
    var part := b[at..at + length];
    forall k | 0 <= k < to - from ensures part[from..to][k] == b[at + from..at + to][k] {
      assert part[from + k] == b[at + from + k];
    }
  }

  /** Two parts behind each other. */
  lemma FrontAndRest(b: seq<byte>, at: nat, front: seq<byte>, rest: seq<byte>)
    requires at <= |b| && front + rest <= b[at..]
    ensures at + |front| <= |b| && b[at..at + |front|] == front
    ensures rest <= b[at + |front|..]
  {
    var tail := b[at..];
    assert forall k :: 0 <= k < |front + rest| ==> tail[k] == (front + rest)[k];
    assert forall k :: 0 <= k < |front| ==> b[at + k] == tail[k] == front[k];
    assert forall k :: 0 <= k < |rest| ==>
      b[at + |front|..][k] == tail[|front| + k] == (front + rest)[|front| + k] == rest[k];
  }
}
