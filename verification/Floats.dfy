/**
 IEEE 754 forms of integral numbers, as writeFloatLE and writeDoubleLE write them and readFloatLE and
 readDoubleLE read them.
 */
module Floats {
  import opened Wrappers
  import opened Bytes

  function Pow2(k: nat): (r: nat)
    ensures r > 0
  {
    if k == 0 then 1 else 2 * Pow2(k - 1)
  }

  function Log2(n: nat): nat { if n < 2 then 0 else 1 + Log2(n / 2) }

  /** A binary format: the fraction bits and the exponent bias. */
  datatype Format = Format(bits: nat, bias: nat) {
    /** One above the largest fraction. */
    function Base(): nat { Pow2(bits) }

    /** The number of biased exponents. */
    function Exponents(): nat { 2 * bias + 2 }

    /** The first pattern that is no finite number. */
    function Infinity(): nat { Base() * (2 * bias + 1) }

    /** The weight of the sign bit. */
    function Sign(): nat { Base() * Exponents() }
  }

  const SINGLE := Format(23, 127)
  const DOUBLE := Format(52, 1023)

  // ----- writing ----------------------------------------------------------------------------

  /** m scaled to one bit before the fraction, rounded half to even; rounding up may reach the next power. */
  function Significand(m: nat, bits: nat): nat {
    var e := Log2(m);
    if e <= bits then m * Pow2(bits - e)
    else
      var unit := Pow2(e - bits);
      var q, r := m / unit, m % unit;
      if 2 * r > unit || (2 * r == unit && q % 2 == 1) then q + 1 else q
  }

  /** The pattern of a positive number; a significand that was rounded up carries into the exponent. */
  function Magnitude(m: nat, f: Format): nat
    requires m > 0
  {
    var p := f.Base() * (Log2(m) + f.bias) + Significand(m, f.bits) - f.Base();
    if p < 0 || p >= f.Infinity() then f.Infinity() else p
  }

  function Pattern(n: int, f: Format): nat {
    if n == 0 then 0 else if n < 0 then f.Sign() + Magnitude(-n, f) else Magnitude(n, f)
  }

  // ----- reading ----------------------------------------------------------------------------

  /** The integer that a positive pattern stands for, if it stands for one. */
  function IntegerOf(p: nat, f: Format): Option<nat> {
    var exponent, fraction := p / f.Base(), p % f.Base();
    if p >= f.Infinity() || exponent == 0 then None
    else
      var s := f.Base() + fraction;
      var e := exponent - f.bias - f.bits;
      if e >= 0 then Some(s * Pow2(e))
      else if s % Pow2(-e) == 0 then Some(s / Pow2(-e))
      else None
  }

  /** None for fractions, infinities, NaN and negative zero. */
  function Integer(p: nat, f: Format): Option<int> {
    if p == 0 then Some(0)
    else if p < f.Sign() then
      var m := IntegerOf(p, f);
      if m.None? then None else Some(m.value)
    else
      var m := IntegerOf(p - f.Sign(), f);
      if m.None? || m.value == 0 then None else Some(-(m.value as int))
  }

  /** n fits the format without rounding. */
  predicate Representable(n: int, f: Format) {
    n == 0 || (
      var m := if n < 0 then -n else n;
      var e := Log2(m);
      e <= f.bias && (e <= f.bits || m % Pow2(e - f.bits) == 0))
  }

  // ----- powers -----------------------------------------------------------------------------

  lemma {:induction false} PowAdd(a: nat, b: nat)
    ensures Pow2(a + b) == Pow2(a) * Pow2(b)
  {
    if a > 0 {
      PowAdd(a - 1, b);
    }
  }

  lemma {:induction false} LogBounds(m: nat)
    requires m > 0
    ensures Pow2(Log2(m)) <= m < 2 * Pow2(Log2(m))
  {
    if m >= 2 {
      LogBounds(m / 2);
    }
  }

  lemma MulOrder(d: nat, a: nat, b: nat)
    requires a <= b
    ensures d * a <= d * b
  {
  }

  lemma Division(d: nat, x: nat)
    requires d > 0
    ensures x == d * (x / d) + x % d
  {
  }

  lemma QuotientIsUnique(d: nat, q: nat, r: nat, q': nat, r': nat)
    requires r < d && r' < d && d * q + r == d * q' + r'
    ensures q == q' && r == r'
  {
    assert d * (q + 1) == d * q + d && d * (q' + 1) == d * q' + d;
    if q < q' {
      MulOrder(d, q + 1, q');
    } else if q' < q {
      MulOrder(d, q' + 1, q);
    }
  }

  lemma DivMod(d: nat, q: nat, r: nat)
    requires r < d
    ensures (d * q + r) / d == q && (d * q + r) % d == r
  {
    var x := d * q + r;
    Division(d, x);
    QuotientIsUnique(d, x / d, x % d, q, r);
  }

  // ----- the significand --------------------------------------------------------------------

  /** A quotient is at least a if the number is at least a units, and below b if it is below b units. */
  lemma QuotientWithin(unit: nat, m: nat, a: nat, b: nat)
    requires unit > 0 && unit * a <= m < unit * b
    ensures a <= m / unit < b
  {
    var q := m / unit;
    Division(unit, m);
    assert unit * (q + 1) == unit * q + unit;
    if q < a {
      MulOrder(unit, q + 1, a);
    }
    if q >= b {
      MulOrder(unit, b, q);
    }
  }

  /** The quotient by the unit has exactly bits + 1 digits. */
  lemma QuotientBounds(m: nat, bits: nat)
    requires m > 0 && Log2(m) > bits
    ensures Pow2(bits) <= m / Pow2(Log2(m) - bits) < 2 * Pow2(bits)
  {
    hide Pow2, Log2;
    var base, unit := Pow2(bits), Pow2(Log2(m) - bits);
    LogBounds(m);
    PowAdd(bits, Log2(m) - bits);
    Swap(base, unit);
    QuotientWithin(unit, m, base, 2 * base);
  }

  lemma Swap(a: nat, b: nat)
    ensures a * b == b * a && b * (2 * a) == 2 * (a * b)
  {
  }

  lemma ScaledBounds(scale: nat, low: nat, m: nat)
    requires low <= m < 2 * low && scale > 0
    ensures scale * low <= scale * m < 2 * (scale * low)
  {
    MulOrder(scale, low, m);
    MulOrder(scale, m + 1, 2 * low);
    assert scale * (m + 1) == scale * m + scale;
    Swap(low, scale);
  }

  lemma SignificandBounds(m: nat, bits: nat)
    requires m > 0
    ensures Pow2(bits) <= Significand(m, bits) <= 2 * Pow2(bits)
    ensures Log2(m) <= bits ==> Significand(m, bits) < 2 * Pow2(bits)
  {
    hide Pow2, Log2;
    var e := Log2(m);
    if e <= bits {
      var scale := Pow2(bits - e);
      LogBounds(m);
      PowAdd(bits - e, e);
      ScaledBounds(scale, Pow2(e), m);
      Swap(m, scale);
    } else {
      QuotientBounds(m, bits);
    }
  }

  /** A format whose small integers need no negative exponents; both formats are such. */
  predicate Roomy(f: Format) { 1 <= f.bits <= f.bias }

  lemma BelowInfinity(exponent: nat, s: nat, f: Format)
    requires 1 <= exponent <= 2 * f.bias && f.Base() <= s < 2 * f.Base()
    ensures 0 <= f.Base() * exponent + s - f.Base() < f.Infinity()
  {
    hide Pow2;
    var base := f.Base();
    MulOrder(base, exponent, 2 * f.bias);
    assert base * (2 * f.bias + 1) == base * (2 * f.bias) + base;
  }

  /** What a finite pattern with this significand and exponent reads as. */
  lemma PatternReads(exponent: nat, s: nat, f: Format)
    requires f.Base() <= s < 2 * f.Base() && 1 <= exponent <= 2 * f.bias
    ensures var e := exponent - f.bias - f.bits;
      IntegerOf(f.Base() * exponent + s - f.Base(), f) ==
      if e >= 0 then Some(s * Pow2(e))
      else if s % Pow2(-e) == 0 then Some(s / Pow2(-e))
      else None
  {
    hide Pow2, Format.Infinity, Format.Exponents;
    BelowInfinity(exponent, s, f);
    DivMod(f.Base(), exponent, s - f.Base());
  }

  /** A small magnitude reads as itself. */
  lemma SmallReadsBack(m: nat, f: Format)
    requires m > 0 && Log2(m) <= f.bits && Roomy(f)
    ensures Magnitude(m, f) < f.Infinity() && IntegerOf(Magnitude(m, f), f) == Some(m)
  {
    hide Pow2, Log2, Format.Infinity, Format.Exponents;
    var e := Log2(m);
    var s := Significand(m, f.bits);
    SignificandBounds(m, f.bits);
    BelowInfinity(e + f.bias, s, f);
    PatternReads(e + f.bias, s, f);
    var scale := Pow2(f.bits - e);
    Swap(m, scale);
    if e == f.bits {
      PowZero();
    } else {
      DivMod(scale, m, 0);
    }
  }

  lemma PowZero()
    ensures Pow2(0) == 1
  {
  }

  /** Rounding by less than a unit gives the number itself only without a remainder. */
  lemma RoundedIsExact(m: nat, unit: nat, s: nat)
    requires unit > 0 && (s == m / unit || (s == m / unit + 1 && m % unit > 0))
    ensures s * unit == m <==> m % unit == 0
  {
    var q := m / unit;
    Division(unit, m);
    Swap(q, unit);
    assert (q + 1) * unit == q * unit + unit;
  }

  /** Rounding goes to the nearest multiple of the unit, and to an even one from the middle. */
  lemma RoundsToNearest(m: nat, bits: nat)
    requires m > 0 && Log2(m) > bits
    ensures var s, unit := Significand(m, bits), Pow2(Log2(m) - bits);
      -(unit as int) <= 2 * (s * unit - m) <= unit
      && (s * unit - m != 0 && (2 * (s * unit - m) == unit || 2 * (s * unit - m) == -(unit as int)) ==> s % 2 == 0)
  {
    hide Pow2, Log2;
    var unit := Pow2(Log2(m) - bits);
    var q := m / unit;
    Division(unit, m);
    Swap(q, unit);
    assert (q + 1) * unit == q * unit + unit;
  }

  /** A large magnitude that fits the exponents reads as itself exactly when nothing is rounded away. */
  lemma LargeReadsBack(m: nat, f: Format)
    requires m > 0 && f.bits < Log2(m) <= f.bias && Roomy(f)
    ensures var unit := Pow2(Log2(m) - f.bits);
      IntegerOf(Magnitude(m, f), f) == Some(m) <==> m % unit == 0
  {
    hide Pow2, Log2, Format.Infinity, Format.Exponents;
    var e := Log2(m);
    var unit := Pow2(e - f.bits);
    var s := Significand(m, f.bits);
    SignificandBounds(m, f.bits);
    RoundedIsExact(m, unit, s);
    hide Significand;
    if s < 2 * f.Base() {
      BelowInfinity(e + f.bias, s, f);
      PatternReads(e + f.bias, s, f);
    } else {
      CarryReads(m, f);
    }
  }

  /** A significand rounded up to the next power reads as something larger, or as no finite number. */
  lemma CarryReads(m: nat, f: Format)
    requires m > 0 && f.bits < Log2(m) <= f.bias && Roomy(f) && Significand(m, f.bits) == 2 * f.Base()
    ensures IntegerOf(Magnitude(m, f), f) != Some(m)
    ensures m % Pow2(Log2(m) - f.bits) != 0
  {
    hide Log2, Format.Infinity, Format.Exponents;
    var e := Log2(m);
    var base := f.Base();
    QuotientBounds(m, f.bits);
    if e < f.bias {
      LogBounds(m);
      assert base * (e + f.bias) + 2 * base - base == base * (e + f.bias + 1) + base - base;
      BelowInfinity(e + f.bias + 1, base, f);
      PatternReads(e + f.bias + 1, base, f);
      PowAdd(f.bits, e + 1 - f.bits);
      assert Pow2(e + 1) == 2 * Pow2(e);
    } else {
      CarryIsInfinite(f);
    }
  }

  lemma CarryIsInfinite(f: Format)
    ensures f.Base() * (f.bias + f.bias) + 2 * f.Base() - f.Base() == f.Infinity()
  {
    hide Pow2;
    assert f.Base() * (2 * f.bias + 1) == f.Base() * (2 * f.bias) + f.Base();
  }

  /** A magnitude beyond the exponents is written as infinity. */
  lemma HugeIsInfinite(m: nat, f: Format)
    requires m > 0 && Log2(m) > f.bias && Roomy(f)
    ensures Magnitude(m, f) == f.Infinity() && IntegerOf(f.Infinity(), f) == None
  {
    hide Pow2, Log2;
    var base, e := f.Base(), Log2(m);
    SignificandBounds(m, f.bits);
    MulOrder(base, 2 * f.bias + 1, e + f.bias);
  }

  /** A positive number reads back exactly when it is representable, and always reads as a finite number or none. */
  lemma MagnitudeReadsBack(m: nat, f: Format)
    requires m > 0 && Roomy(f)
    ensures 0 < Magnitude(m, f) <= f.Infinity() < f.Sign()
    ensures IntegerOf(Magnitude(m, f), f) == Some(m) <==> Representable(m, f)
  {
    hide Pow2, Log2, Significand, IntegerOf;
    MagnitudeBounds(m, f);
    if Log2(m) <= f.bits {
      SmallReadsBack(m, f);
    } else if Log2(m) <= f.bias {
      LargeReadsBack(m, f);
    } else {
      HugeIsInfinite(m, f);
    }
  }

  lemma MagnitudeBounds(m: nat, f: Format)
    requires m > 0 && Roomy(f)
    ensures 0 < Magnitude(m, f) <= f.Infinity() < f.Sign()
  {
    hide Pow2, Log2, Significand;
    var base := f.Base();
    SignificandBounds(m, f.bits);
    MulOrder(base, 1, Log2(m) + f.bias);
    assert base * (2 * f.bias + 2) == base * (2 * f.bias + 1) + base;
    MulOrder(base, 1, 2 * f.bias + 1);
  }

  /** An integral number survives the format exactly when it is representable in it. */
  lemma PatternReadsBack(n: int, f: Format)
    requires Roomy(f)
    ensures Pattern(n, f) < 2 * f.Sign()
    ensures Integer(Pattern(n, f), f) == Some(n) <==> Representable(n, f)
  {
    hide Pow2, Magnitude, IntegerOf, Representable, Format.Infinity, Format.Exponents;
    if n == 0 {
      RepresentableZero(f);
    } else {
      var m := if n < 0 then -n else n;
      MagnitudeReadsBack(m, f);
      RepresentableSigned(n, f);
    }
  }

  lemma RepresentableZero(f: Format)
    ensures Representable(0, f) && 0 < f.Sign()
  {
    hide Pow2;
    MulOrder(f.Base(), 1, 2 * f.bias + 2);
  }

  lemma RepresentableSigned(n: int, f: Format)
    requires n != 0
    ensures Representable(n, f) <==> Representable(if n < 0 then -n else n, f)
  {
    hide Pow2, Log2;
  }
}
