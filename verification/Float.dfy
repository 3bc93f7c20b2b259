/** IEEE 754 single precision: the values of finite patterns, and rounding to the nearest of them. */
module Floats {
  import opened Bytes

  // ----- scaling by powers of two -----

  /** x times two to the power n. */
  function Scaled(x: real, n: int): real
    decreases if n < 0 then -n else n
  {
    if n == 0 then x else if n > 0 then 2.0 * Scaled(x, n - 1) else Scaled(x, n + 1) / 2.0
  }

  function PowerOfTwo(n: int): real {
    Scaled(1.0, n)
  }

  lemma Doubled(x: real, n: int)
    ensures Scaled(x, n + 1) == 2.0 * Scaled(x, n)
  {
  }

  lemma {:induction false} ScaledTwice(x: real, a: int, b: int)
    ensures Scaled(Scaled(x, a), b) == Scaled(x, a + b)
    decreases if b < 0 then -b else b
  {
    if b > 0 {
      ScaledTwice(x, a, b - 1);
      Doubled(x, a + b - 1);
    } else if b < 0 {
      ScaledTwice(x, a, b + 1);
      Doubled(x, a + b);
    }
  }

  lemma {:induction false} ScaledOrder(x: real, y: real, n: int)
    requires x <= y
    ensures Scaled(x, n) <= Scaled(y, n)
    ensures x < y ==> Scaled(x, n) < Scaled(y, n)
    decreases if n < 0 then -n else n
  {
    if n > 0 {
      ScaledOrder(x, y, n - 1);
    } else if n < 0 {
      ScaledOrder(x, y, n + 1);
    }
  }

  lemma {:induction false} ScaledDifference(x: real, y: real, n: int)
    ensures Scaled(x - y, n) == Scaled(x, n) - Scaled(y, n)
    decreases if n < 0 then -n else n
  {
    if n > 0 {
      ScaledDifference(x, y, n - 1);
    } else if n < 0 {
      ScaledDifference(x, y, n + 1);
    }
  }

  lemma ScaledZero(x: real, n: int)
    requires x == 0.0
    ensures Scaled(x, n) == 0.0
  {
    ScaledDifference(x, x, n);
  }

  lemma ScaledPositive(x: real, n: int)
    requires x >= 0.0
    ensures Scaled(x, n) >= 0.0 && (x > 0.0 ==> Scaled(x, n) > 0.0)
  {
    ScaledZero(0.0, n);
    ScaledOrder(0.0, x, n);
  }

  lemma {:induction false} PowersOrdered(a: int, b: int)
    requires a <= b
    ensures 0.0 < PowerOfTwo(a) <= PowerOfTwo(b)
    decreases b - a
  {
    ScaledPositive(1.0, a);
    if a < b {
      PowersOrdered(a, b - 1);
      Doubled(1.0, b - 1);
    }
  }

  lemma FourTimes(x: real, n: int)
    ensures Scaled(x, n + 4) == 16.0 * Scaled(x, n)
  {
    Doubled(x, n);
    Doubled(x, n + 1);
    Doubled(x, n + 2);
    Doubled(x, n + 3);
  }

  lemma TwentyFourTimes(x: real, n: int)
    ensures Scaled(x, n + 24) == 16777216.0 * Scaled(x, n)
  {
    FourTimes(x, n);
    FourTimes(x, n + 4);
    FourTimes(x, n + 8);
    FourTimes(x, n + 12);
    FourTimes(x, n + 16);
    FourTimes(x, n + 20);
  }

  lemma KnownPowers()
    ensures PowerOfTwo(0) == 1.0 && PowerOfTwo(1) == 2.0
    ensures PowerOfTwo(23) == 8388608.0 && PowerOfTwo(24) == 16777216.0
    ensures PowerOfTwo(-24) == 1.0 / 16777216.0 && PowerOfTwo(-25) == 1.0 / 33554432.0
  {
    TwentyFourTimes(1.0, 0);
    TwentyFourTimes(1.0, -24);
    Doubled(1.0, 23);
    Doubled(1.0, -25);
  }

  // ----- the value of a pattern -----

  const SIGN: int := 0x8000_0000

  /** An exponent field of eight bits and a fraction of twenty-three. */
  function Magnitude(exponent: nat, fraction: nat): real {
    if exponent == 0 then Scaled(fraction as real, -149)
    else Scaled((fraction + 0x80_0000) as real, exponent - 150)
  }

  /** The value of a 32-bit pattern. */
  function FloatValue(word: uint32): real {
    var magnitude := Magnitude(word / 0x80_0000 % 0x100, word % 0x80_0000);
    if word >= SIGN then -magnitude else magnitude
  }

  function FloatValues(words: seq<uint32>): (vs: seq<real>)
    ensures |vs| == |words|
  {
    seq(|words|, i requires 0 <= i < |words| => FloatValue(words[i]))
  }

  function Negated(word: uint32): uint32 {
    if word >= SIGN then word - SIGN else word + SIGN
  }

  lemma NegatedValue(word: uint32)
    ensures FloatValue(Negated(word)) == -FloatValue(word)
  {
    SignAside(if word >= SIGN then word - SIGN else word);
  }

  lemma SignAside(word: uint32)
    requires word < SIGN
    ensures (word + SIGN) % 0x80_0000 == word % 0x80_0000
    ensures (word + SIGN) / 0x80_0000 % 0x100 == word / 0x80_0000 % 0x100
  {
    assert (word + SIGN) / 0x80_0000 == word / 0x80_0000 + 0x100;
  }

  /** The pattern with exponent e and a mantissa of up to twenty-four bits, which may carry into the exponent. */
  function Pattern(e: int, mantissa: nat): uint32
    requires -126 <= e <= 0 && mantissa <= 0x100_0000
  {
    (e + 126) * 0x80_0000 + mantissa
  }

  lemma PatternFields(e: int, mantissa: nat)
    requires -126 <= e <= 0 && mantissa <= 0x100_0000 && (e > -126 ==> mantissa >= 0x80_0000)
    ensures var word := Pattern(e, mantissa);
            word < SIGN &&
            (word / 0x80_0000 % 0x100, word % 0x80_0000) ==
            if mantissa == 0x100_0000 then (e + 128, 0)
            else if mantissa >= 0x80_0000 then (e + 127, mantissa - 0x80_0000)
            else (0, mantissa)
  {
    var word := Pattern(e, mantissa);
    if mantissa == 0x100_0000 {
      assert word == (e + 128) * 0x80_0000;
    } else if mantissa >= 0x80_0000 {
      assert word == (e + 127) * 0x80_0000 + (mantissa - 0x80_0000);
    } else {
      assert word == mantissa;
    }
  }

  lemma PatternValue(e: int, mantissa: nat)
    requires -126 <= e <= 0 && mantissa <= 0x100_0000 && (e > -126 ==> mantissa >= 0x80_0000)
    ensures FloatValue(Pattern(e, mantissa)) == Scaled(mantissa as real, e - 23)
  {
    PatternFields(e, mantissa);
    if mantissa == 0x100_0000 {
      ScaledTwice(8388608.0, 1, e - 23);
      assert Scaled(8388608.0, 1) == 16777216.0;
    }
  }

  /** Some patterns of the standard: a half, one and minus one. */
  lemma KnownPatterns()
    ensures FloatValue(0x3F00_0000) == 0.5 && FloatValue(0x3F80_0000) == 1.0 && FloatValue(0xBF80_0000) == -1.0
  {
    OnePattern(0, -1);
    NegatedValue(0x3F80_0000);
  }

  lemma OnePattern(e: int, d: int)
    requires e == 0 && d == -1
    ensures FloatValue(Pattern(e, 0x80_0000)) == 1.0 && FloatValue(Pattern(d, 0x80_0000)) == 0.5
  {
    KnownPowers();
    PatternValue(e, 0x80_0000);
    PatternValue(d, 0x80_0000);
    ScaledTwice(1.0, 23, e - 23);
    ScaledTwice(1.0, 23, d - 23);
    assert Scaled(1.0, d) == 0.5;
  }

  // ----- rounding to nearest, ties to even -----

  function Nearest(y: real): (n: int)
    ensures -0.5 <= n as real - y <= 0.5
    ensures n as real - y == 0.5 || n as real - y == -0.5 ==> n % 2 == 0
  {
    var n := y.Floor;
    var d := y - n as real;
    if d < 0.5 || (d == 0.5 && n % 2 == 0) then n else n + 1
  }

  lemma NearestBetween(y: real, low: int, high: int)
    requires low as real <= y <= high as real
    ensures low <= Nearest(y) <= high
  {
  }

  function ExponentFrom(x: real, e: int): int
    requires e >= -126
    decreases e + 126
  {
    if e == -126 || PowerOfTwo(e) <= x then e else ExponentFrom(x, e - 1)
  }

  lemma {:induction false} ExponentBounds(x: real, top: int)
    requires top >= -126 && x < PowerOfTwo(top + 1)
    ensures var e := ExponentFrom(x, top);
            -126 <= e <= top && x < PowerOfTwo(e + 1) && (e > -126 ==> PowerOfTwo(e) <= x)
    decreases top + 126
  {
    if top > -126 && x < PowerOfTwo(top) {
      ExponentBounds(x, top - 1);
    }
  }

  /** The exponent of a magnitude; the smallest magnitudes share the lowest. */
  function Exponent(x: real): (e: int)
    requires 0.0 <= x <= 1.0
    ensures -126 <= e <= 0 && x < PowerOfTwo(e + 1) && (e > -126 ==> PowerOfTwo(e) <= x)
  {
    KnownPowers();
    PowersOrdered(1, x.Floor + 1);
    ExponentBounds(x, x.Floor);
    ExponentFrom(x, x.Floor)
  }

  /** A magnitude in units of the last place of its exponent. */
  function Mantissa(x: real, e: int): int {
    Nearest(Scaled(x, 23 - e))
  }

  lemma MantissaBounds(x: real, e: int)
    requires 0.0 <= x < PowerOfTwo(e + 1) && (e > -126 ==> PowerOfTwo(e) <= x)
    ensures 0 <= Mantissa(x, e) <= 0x100_0000
    ensures e > -126 ==> Mantissa(x, e) >= 0x80_0000
  {
    var y := Scaled(x, 23 - e);
    KnownPowers();
    ScaledPositive(x, 23 - e);
    ScaledOrder(x, PowerOfTwo(e + 1), 23 - e);
    ScaledTwice(1.0, e + 1, 23 - e);
    NearestBetween(y, 0, 0x100_0000);
    if e > -126 {
      ScaledOrder(PowerOfTwo(e), x, 23 - e);
      ScaledTwice(1.0, e, 23 - e);
      NearestBetween(y, 0x80_0000, 0x100_0000);
    }
  }

  function RoundMagnitude(x: real): uint32
    requires 0.0 <= x <= 1.0
  {
    MantissaBounds(x, Exponent(x));
    Pattern(Exponent(x), Mantissa(x, Exponent(x)))
  }

  /** The pattern nearest to a value. */
  function Round(x: real): uint32
    requires -1.0 <= x <= 1.0
  {
    if x < 0.0 then Negated(RoundMagnitude(-x)) else RoundMagnitude(x)
  }

  lemma HalfUnits(t: real, n: int)
    requires -0.5 <= t <= 0.5
    ensures -PowerOfTwo(n - 1) <= Scaled(t, n) <= PowerOfTwo(n - 1)
  {
    ScaledOrder(-0.5, t, n);
    ScaledOrder(t, 0.5, n);
    ScaledDifference(0.0, 0.5, n);
    ScaledZero(0.0, n);
    ScaledTwice(1.0, -1, n);
  }

  lemma UpToFull(m: real, n: int)
    requires 0.0 <= m <= 16777216.0
    ensures 0.0 <= Scaled(m, n) <= PowerOfTwo(n + 24)
  {
    ScaledPositive(m, n);
    ScaledOrder(m, 16777216.0, n);
    KnownPowers();
    ScaledTwice(1.0, 24, n);
  }

  /** A rounded mantissa is off by at most half a unit of the last place. */
  lemma MantissaError(x: real, e: int)
    requires 0 <= Mantissa(x, e) <= 0x100_0000
    ensures var v := Scaled(Mantissa(x, e) as real, e - 23);
            -PowerOfTwo(e - 24) <= v - x <= PowerOfTwo(e - 24) && 0.0 <= v <= PowerOfTwo(e + 1)
  {
    var m, y, n := Mantissa(x, e) as real, Scaled(x, 23 - e), e - 23;
    ScaledDifference(m, y, n);
    ScaledTwice(x, 23 - e, n);
    HalfUnits(m - y, n);
    UpToFull(m, n);
  }

  lemma MagnitudeError(x: real)
    requires 0.0 <= x <= 1.0
    ensures var (e, v) := (Exponent(x), FloatValue(RoundMagnitude(x)));
            -PowerOfTwo(e - 24) <= v - x <= PowerOfTwo(e - 24) && 0.0 <= v <= PowerOfTwo(e + 1)
  {
    var e := Exponent(x);
    MantissaBounds(x, e);
    RoundedValue(x, e);
    MantissaError(x, e);
  }

  // ----- how near a rounded value is -----

  /** Two to the power -24, and half of it. */
  const PRECISION: real := 1.0 / 16777216.0
  const HALF_UNIT: real := 1.0 / 33554432.0

  /** Of the same sign, within the precision, and exact at the ends. */
  predicate Near(v: real, x: real) {
    && (v < 0.0 <==> x < 0.0) && (v > 0.0 <==> x > 0.0)
    && -PRECISION <= v - x <= PRECISION && -1.0 <= v <= 1.0
    && (x == 1.0 ==> v == 1.0) && (x == -1.0 ==> v == -1.0)
  }

  /** Values of full precision, and zero. */
  predicate Normal(x: real) {
    x == 0.0 || x >= PowerOfTwo(-126) || -x >= PowerOfTwo(-126)
  }

  lemma RoundedValue(x: real, e: int)
    requires 0.0 <= x <= 1.0 && e == Exponent(x)
    ensures FloatValue(RoundMagnitude(x)) == Scaled(Mantissa(x, e) as real, e - 23)
  {
    MantissaBounds(x, e);
    PatternValue(e, Mantissa(x, e));
  }

  lemma RoundsZero(x: real)
    requires x == 0.0
    ensures FloatValue(RoundMagnitude(x)) == 0.0
  {
    var e := Exponent(x);
    RoundedValue(x, e);
    ScaledZero(x, 23 - e);
    NearestBetween(Scaled(x, 23 - e), 0, 0);
    ScaledZero(Mantissa(x, e) as real, e - 23);
  }

  lemma RoundsOne(x: real)
    requires x == 1.0
    ensures FloatValue(RoundMagnitude(x)) == 1.0
  {
    var e := Exponent(x);
    ExponentOfOne(x);
    RoundedValue(x, e);
    KnownPowers();
    NearestBetween(Scaled(x, 23 - e), 0x80_0000, 0x80_0000);
    ScaledTwice(1.0, 23, e - 23);
  }

  lemma ExponentOfOne(x: real)
    requires x == 1.0
    ensures Exponent(x) == 0
  {
    KnownPowers();
    if Exponent(x) < 0 {
      PowersOrdered(Exponent(x) + 1, 0);
    }
  }

  /** Half a unit of the last place, against the ends and against the value itself. */
  lemma MagnitudeNear(x: real)
    requires 0.0 <= x <= 1.0 && Normal(x)
    ensures var v := FloatValue(RoundMagnitude(x));
            && -HALF_UNIT <= v - x <= HALF_UNIT && 0.0 <= v <= 1.0
            && -x * PRECISION <= v - x <= x * PRECISION
            && (x == 0.0 ==> v == 0.0) && (x == 1.0 ==> v == 1.0)
  {
    if x == 0.0 {
      RoundsZero(x);
    } else if x == 1.0 {
      RoundsOne(x);
    } else {
      var e := Exponent(x);
      KnownPowers();
      MagnitudeError(x);
      ExponentBelowOne(x);
      PowersOrdered(e - 24, -25);
      PowersOrdered(e + 1, 0);
      TwentyFourTimes(1.0, e - 24);
    }
  }

  lemma ExponentBelowOne(x: real)
    requires 0.0 < x < 1.0 && Normal(x)
    ensures Exponent(x) <= -1 && PowerOfTwo(Exponent(x)) <= x
  {
    KnownPowers();
  }

  /** Rounding a value of full precision is near, within half a unit. */
  lemma RoundNear(x: real)
    requires -1.0 <= x <= 1.0 && Normal(x)
    ensures Near(FloatValue(Round(x)), x)
    ensures -HALF_UNIT <= FloatValue(Round(x)) - x <= HALF_UNIT
  {
    if x < 0.0 {
      MagnitudeNear(-x);
      NegatedValue(RoundMagnitude(-x));
    } else {
      MagnitudeNear(x);
    }
  }

  lemma NegatedNear(word: uint32, x: real)
    requires Near(FloatValue(word), x)
    ensures Near(FloatValue(Negated(word)), -x)
  {
    NegatedValue(word);
  }

  /** A pattern near a value, whatever the value; a tiny one stands in for what might round to zero. */
  function NearWord(x: real): (word: uint32)
    requires -1.0 <= x <= 1.0
  {
    if Normal(x) then Round(x) else if x > 0.0 then Round(HALF_UNIT) else Round(-HALF_UNIT)
  }

  lemma NearWordIsNear(x: real)
    requires -1.0 <= x <= 1.0
    ensures Near(FloatValue(NearWord(x)), x)
  {
    KnownPowers();
    PowersOrdered(-126, -25);
    if Normal(x) {
      RoundNear(x);
    } else {
      RoundNear(HALF_UNIT);
      RoundNear(-HALF_UNIT);
    }
  }
}
