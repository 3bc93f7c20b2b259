/** Stick values as the drivers compute them, in single precision with every operation rounded. */
module AxisFloats {
  import opened Bytes
  import opened Floats
  import opened Calibrations

  const EXACT: int := 0x80_0000

  /** A range whose differences single precision holds exactly. */
  predicate Moderate(c: Calibration) {
    c.Ordered() && c.high - c.low <= EXACT
  }

  lemma NormalLarge(x: real)
    requires x == 0.0 || HALF_UNIT <= x || HALF_UNIT <= -x
    ensures Normal(x)
  {
    KnownPowers();
    PowersOrdered(-126, -25);
  }

  /** A quotient of two differences of such a range. */
  lemma RatioNormal(val: int, div: int)
    requires 0 <= val <= div <= EXACT && div > 0
    ensures var x := val as real / div as real;
            && 0.0 <= x <= 1.0 && Normal(x)
            && (x == 0.0 <==> val == 0) && (x == 1.0 <==> val == div)
            && (val < div ==> 1.0 - x >= 4.0 * HALF_UNIT)
  {
    var v, d := val as real, div as real;
    QuotientOfOne(v, d);
    LeastRatio(v, d);
    if val > 0 {
      QuotientOrder(1.0, 8388608.0, v, d);
    }
    NormalLarge(v / d);
    if val < div {
      QuotientOrder(1.0, 8388608.0, d - v, d);
    }
  }

  lemma LeastRatio(v: real, d: real)
    requires d > 0.0
    ensures (d - v) / d == 1.0 - v / d
    ensures v / d == 1.0 <==> v == d
  {
    assert d / d == 1.0 && (d - v) / d == d / d - v / d;
  }

  /** The rounded quotient. */
  function Ratio(val: int, div: int): (word: uint32)
    requires 0 <= val <= div <= EXACT && div > 0
    ensures Near(FloatValue(word), val as real / div as real)
    ensures -HALF_UNIT <= FloatValue(word) - val as real / div as real <= HALF_UNIT
    ensures 0.0 <= FloatValue(word) <= 1.0
  {
    RatioNormal(val, div);
    RoundNear(val as real / div as real);
    Round(val as real / div as real)
  }

  lemma SumOfHalves(x: real, f: real, g: real)
    requires 0.0 <= x && 1.0 - x >= 4.0 * HALF_UNIT && (x == 0.0 ==> f == 0.0)
    requires -HALF_UNIT <= f - x <= HALF_UNIT && -HALF_UNIT <= g - (1.0 - f) <= HALF_UNIT && Near(g, 1.0 - f)
    ensures Near(g, 1.0 - x)
  {
  }

  /** Two roundings: f is x rounded, and its difference to 1 is rounded again. */
  lemma DifferenceNear(x: real, f: real)
    requires 0.0 <= x && 1.0 - x >= 4.0 * HALF_UNIT && (x == 0.0 ==> f == 0.0)
    requires -HALF_UNIT <= f - x <= HALF_UNIT && 0.0 <= f <= 1.0
    ensures Near(FloatValue(Round(1.0 - f)), 1.0 - x)
  {
    RoundLarge(1.0 - f);
    SumOfHalves(x, f, FloatValue(Round(1.0 - f)));
  }

  lemma RoundLarge(y: real)
    requires y == 0.0 || HALF_UNIT <= y <= 1.0
    ensures Near(FloatValue(Round(y)), y) && -HALF_UNIT <= FloatValue(Round(y)) - y <= HALF_UNIT
  {
    NormalLarge(y);
    RoundNear(y);
  }

  /** A value below the dead zone, at a distance from the end of the range. */
  function LeftOfZone(val: int, div: int): (word: uint32)
    requires 0 <= val < div <= EXACT
    ensures Near(FloatValue(word), 0.0 - (1.0 - val as real / div as real))
  {
    RatioNormal(val, div);
    DifferenceNear(val as real / div as real, FloatValue(Ratio(val, div)));
    NegatedNear(Round(1.0 - FloatValue(Ratio(val, div))), 1.0 - val as real / div as real);
    Negated(Round(1.0 - FloatValue(Ratio(val, div))))
  }

  /** Interface::CalculateAxis in single precision. */
  function FloatAxis(v: int, c: Calibration): uint32
    requires Moderate(c)
  {
    if v < c.low then Negated(Round(1.0))
    else if v > c.high then Round(1.0)
    else if c.deadLow <= v <= c.deadHigh then Round(0.0)
    else if v < c.deadLow then LeftOfZone(v - c.low, c.deadLow - c.low)
    else Ratio(v - c.deadHigh, c.high - c.deadHigh)
  }

  /**
   * What the drivers send for a stick is within the precision of the axis function over the reals, on the same
   * side of zero, and exact at the limits and in the dead zone.
   */
  lemma FloatAxisNear(v: int, c: Calibration)
    requires Moderate(c)
    ensures Near(FloatValue(FloatAxis(v, c)), CalculateAxis(v, c))
  {
    DigitalNear();
    NegatedNear(Round(1.0), 1.0);
  }

  /** The digital values are exact. */
  lemma DigitalNear()
    ensures Near(FloatValue(Round(1.0)), 1.0) && Near(FloatValue(Round(0.0)), 0.0)
  {
    RoundLarge(1.0);
    RoundLarge(0.0);
  }

  /** The table of the DualShock 3 and 4. */
  lemma FixedNear(v: byte)
    ensures Near(FloatValue(FloatAxis(v, FIXED)), CalculateAxis(v, FIXED))
  {
    FloatAxisNear(v, FIXED);
  }

  /** The adaptive ranges: samples of up to sixteen bits, with margins of up to 0x100. */
  lemma AdaptedNear(v: int, samples: seq<int>, inner: nat, outer: nat)
    requires samples != [] && inner < outer <= 0x100
    requires forall i | 0 <= i < |samples| :: 0 <= samples[i] < 0x1_0000
    ensures var c := Adapted(samples, inner, outer);
            Moderate(c) && Near(FloatValue(FloatAxis(v, c)), CalculateAxis(v, c))
  {
    AdaptedClosedForm(samples, inner, outer);
    FloatAxisNear(v, Adapted(samples, inner, outer));
  }
}
