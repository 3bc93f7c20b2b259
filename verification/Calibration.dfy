/** Adaptive stick calibration: the axis function, and a range that widens with every sample. */
module Calibrations {
  import opened Bytes
  import opened StatePackets

  /** Total range low..high around the dead zone deadLow..deadHigh, all bounds inclusive. */
  datatype Calibration = Calibration(low: int, deadLow: int, deadHigh: int, high: int) {
    predicate Ordered() {
      low < deadLow <= deadHigh < high
    }

    function Widened(raw: int): Calibration {
      this.(low := if raw < low then raw else low, high := if raw > high then raw else high)
    }

    /** The same dead zone inside a range at least as wide. */
    predicate Inside(other: Calibration) {
      other.low <= low && other.deadLow == deadLow && other.deadHigh == deadHigh && high <= other.high
    }
  }

  function Around(raw: int, inner: nat, outer: nat): Calibration {
    Calibration(raw - outer, raw - inner, raw + inner, raw + outer)
  }

  /** Interface::CalculateAxis over the reals; its assertions are the precondition. */
  function CalculateAxis(v: int, c: Calibration): real
    requires c.Ordered()
  {
    if v < c.low then -1.0
    else if v > c.high then 1.0
    else if c.deadLow <= v <= c.deadHigh then 0.0
    else if v < c.deadLow then 0.0 - (1.0 - (v - c.low) as real / (c.deadLow - c.low) as real)
    else (v - c.deadHigh) as real / (c.high - c.deadHigh) as real
  }

  // ----- quotients -----

  lemma QuotientOrder(a: real, b: real, c: real, d: real)
    requires b > 0.0 && d > 0.0
    ensures a / b <= c / d <==> a * d <= c * b
    ensures a / b < c / d <==> a * d < c * b
  {
    var x, y := a / b, c / d;
    assert a == x * b && c == y * d;
    assert a * d == x * (b * d) && c * b == y * (b * d);
    ScaleOrder(x, y, b * d);
  }

  lemma ScaleOrder(x: real, y: real, k: real)
    requires k > 0.0
    ensures x <= y <==> x * k <= y * k
    ensures x < y <==> x * k < y * k
  {
    if x < y {
      assert (y - x) * k > 0.0;
    } else if y < x {
      assert (x - y) * k > 0.0;
    }
  }

  lemma QuotientOfOne(a: real, b: real)
    requires b > 0.0
    ensures 0.0 <= a / b <==> 0.0 <= a
    ensures 0.0 < a / b <==> 0.0 < a
    ensures a / b <= 1.0 <==> a <= b
    ensures a / b < 1.0 <==> a < b
  {
    QuotientOrder(0.0, 1.0, a, b);
    QuotientOrder(a, b, 1.0, 1.0);
  }

  /** How far below the dead zone a value lies, as a fraction of that side; negative values are to the left. */
  lemma LeftSide(v: int, c: Calibration)
    requires c.Ordered() && c.low <= v < c.deadLow
    ensures CalculateAxis(v, c) == -((c.deadLow - v) as real / (c.deadLow - c.low) as real)
  {
    var d := (c.deadLow - c.low) as real;
    assert 1.0 == d / d;
    assert (c.deadLow - v) as real == d - (v - c.low) as real;
    assert (d - (v - c.low) as real) / d == d / d - (v - c.low) as real / d;
  }

  // ----- the axis function -----

  /** Within [-1, 1]; zero exactly on the dead zone; at the limits exactly at and beyond the range. */
  lemma AxisShape(v: int, c: Calibration)
    requires c.Ordered()
    ensures -1.0 <= CalculateAxis(v, c) <= 1.0
    ensures CalculateAxis(v, c) == 0.0 <==> c.deadLow <= v <= c.deadHigh
    ensures CalculateAxis(v, c) < 0.0 <==> v < c.deadLow
    ensures CalculateAxis(v, c) == -1.0 <==> v <= c.low
    ensures CalculateAxis(v, c) == 1.0 <==> v >= c.high
  {
    if c.low <= v < c.deadLow {
      LeftSide(v, c);
      QuotientOfOne((c.deadLow - v) as real, (c.deadLow - c.low) as real);
    } else if c.deadHigh < v <= c.high {
      QuotientOfOne((v - c.deadHigh) as real, (c.high - c.deadHigh) as real);
    }
  }

  /** The output, where a stick value is wanted. */
  function AxisTilt(v: int, c: Calibration): Tilt
    requires c.Ordered()
  {
    AxisShape(v, c);
    CalculateAxis(v, c)
  }

  /** On either side of the dead zone the output is proportional to the distance from it. */
  lemma AxisProportional(v: int, c: Calibration)
    requires c.Ordered()
    ensures c.deadHigh < v <= c.high ==>
              CalculateAxis(v, c) * (c.high - c.deadHigh) as real == (v - c.deadHigh) as real
    ensures c.low <= v < c.deadLow ==>
              CalculateAxis(v, c) * (c.deadLow - c.low) as real == -((c.deadLow - v) as real)
  {
    if c.low <= v < c.deadLow {
      LeftSide(v, c);
    }
  }

  /** A larger raw value never gives a smaller output, whichever branches the two fall into. */
  lemma AxisMonotone(v: int, w: int, c: Calibration)
    requires c.Ordered() && v <= w
    ensures CalculateAxis(v, c) <= CalculateAxis(w, c)
    ensures v < w && c.low <= v && w <= c.high && !(c.deadLow <= v && w <= c.deadHigh) ==>
              CalculateAxis(v, c) < CalculateAxis(w, c)
  {
    AxisShape(v, c);
    AxisShape(w, c);
    if c.low <= v && w < c.deadLow {
      LeftSide(v, c);
      LeftSide(w, c);
      var d := (c.deadLow - c.low) as real;
      QuotientOrder((c.deadLow - w) as real, d, (c.deadLow - v) as real, d);
      ScaleOrder((c.deadLow - w) as real, (c.deadLow - v) as real, d);
    } else if c.deadHigh < v && w <= c.high {
      var d := (c.high - c.deadHigh) as real;
      QuotientOrder((v - c.deadHigh) as real, d, (w - c.deadHigh) as real, d);
      ScaleOrder((v - c.deadHigh) as real, (w - c.deadHigh) as real, d);
    }
  }

  /** A calibration symmetric about its middle is odd under reflection; so is the fixed table below. */
  lemma AxisOdd(v: int, c: Calibration)
    requires c.Ordered() && c.low + c.high == c.deadLow + c.deadHigh
    ensures CalculateAxis(c.low + c.high - v, c) == -CalculateAxis(v, c)
  {
    if c.low <= v < c.deadLow {
      LeftSide(v, c);
    } else if c.deadHigh < v <= c.high {
      LeftSide(c.low + c.high - v, c);
    }
  }

  /** The table of the DualShock 3 and 4. */
  const FIXED := Calibration(0, 100, 155, 255)

  lemma FixedTableOdd(v: byte)
    ensures CalculateAxis(255 - v, FIXED) == -CalculateAxis(v, FIXED)
    ensures CalculateAxis(v, FIXED) == 0.0 <==> 100 <= v <= 155
    ensures CalculateAxis(v, FIXED) == -1.0 <==> v == 0
    ensures CalculateAxis(v, FIXED) == 1.0 <==> v == 255
  {
    AxisOdd(v, FIXED);
    AxisShape(v, FIXED);
  }

  function Magnitude(r: real): real {
    if r < 0.0 then -r else r
  }

  /** Widening the range keeps the sign of every output and never increases its magnitude. */
  lemma WideningDampens(v: int, c: Calibration, d: Calibration)
    requires c.Ordered() && d.Ordered() && c.Inside(d)
    ensures CalculateAxis(v, c) < 0.0 <==> CalculateAxis(v, d) < 0.0
    ensures CalculateAxis(v, c) == 0.0 <==> CalculateAxis(v, d) == 0.0
    ensures Magnitude(CalculateAxis(v, d)) <= Magnitude(CalculateAxis(v, c))
  {
    AxisShape(v, c);
    AxisShape(v, d);
    if c.low <= v < c.deadLow {
      LeftSide(v, c);
      LeftSide(v, d);
      var x, near, far := (c.deadLow - v) as real, (c.deadLow - c.low) as real, (d.deadLow - d.low) as real;
      SmallerOverLarger(x, near, far);
    } else if c.deadHigh < v <= c.high {
      var x, near, far := (v - c.deadHigh) as real, (c.high - c.deadHigh) as real, (d.high - d.deadHigh) as real;
      SmallerOverLarger(x, near, far);
    }
  }

  lemma SmallerOverLarger(x: real, near: real, far: real)
    requires x >= 0.0 && 0.0 < near <= far
    ensures x / far <= x / near
  {
    QuotientOrder(x, far, x, near);
    assert x * (far - near) >= 0.0;
  }

  // ----- calibration over a run of samples -----

  /** The calibration after a nonempty run of samples, the first of which fixed the dead zone. */
  function Adapted(samples: seq<int>, inner: nat, outer: nat): (c: Calibration)
    requires samples != [] && inner < outer
    ensures c.Ordered()
  {
    if |samples| == 1 then Around(samples[0], inner, outer).Widened(samples[0])
    else Adapted(samples[..|samples| - 1], inner, outer).Widened(samples[|samples| - 1])
  }

  predicate IsMinimum(m: int, bound: int, samples: seq<int>) {
    m <= bound && (m == bound || m in samples) && forall i | 0 <= i < |samples| :: m <= samples[i]
  }

  predicate IsMaximum(m: int, bound: int, samples: seq<int>) {
    bound <= m && (m == bound || m in samples) && forall i | 0 <= i < |samples| :: samples[i] <= m
  }

  /**
   * Closed form: the range runs from the least to the greatest of all samples and the first one's margins, and
   * the dead zone stays where the first sample put it.
   */
  lemma {:induction false} AdaptedClosedForm(samples: seq<int>, inner: nat, outer: nat)
    requires samples != [] && inner < outer
    ensures var c := Adapted(samples, inner, outer);
            && IsMinimum(c.low, samples[0] - outer, samples)
            && IsMaximum(c.high, samples[0] + outer, samples)
            && c.deadLow == samples[0] - inner && c.deadHigh == samples[0] + inner
  {
    if |samples| > 1 {
      var before := samples[..|samples| - 1];
      AdaptedClosedForm(before, inner, outer);
      assert forall x :: x in samples <==> x in before || x == samples[|samples| - 1];
    }
  }

  /** No sample is ever outside the range in force, so the out-of-range branches are not taken. */
  lemma NeverOutOfRange(samples: seq<int>, inner: nat, outer: nat)
    requires samples != [] && inner < outer
    ensures var c := Adapted(samples, inner, outer);
            forall i | 0 <= i < |samples| :: c.low <= samples[i] <= c.high
  {
    AdaptedClosedForm(samples, inner, outer);
  }

  lemma {:induction false} AdaptedWidens(samples: seq<int>, more: seq<int>, inner: nat, outer: nat)
    requires samples != [] && inner < outer
    ensures Adapted(samples, inner, outer).Inside(Adapted(samples + more, inner, outer))
  {
    if more == [] {
      assert samples + more == samples;
    } else {
      var fewer := more[..|more| - 1];
      AdaptedWidens(samples, fewer, inner, outer);
      assert (samples + more)[..|samples + more| - 1] == samples + fewer;
    }
  }

  /**
   * One raw value presented at two points of a run: the later output has the same sign and no greater
   * magnitude, because the range in between has only widened.
   */
  lemma HistoryDampens(v: int, samples: seq<int>, more: seq<int>, inner: nat, outer: nat)
    requires samples != [] && inner < outer
    ensures var (early, late) := (CalculateAxis(v, Adapted(samples, inner, outer)),
                                CalculateAxis(v, Adapted(samples + more, inner, outer)));
            (early < 0.0 <==> late < 0.0) && (early == 0.0 <==> late == 0.0) && Magnitude(late) <= Magnitude(early)
  {
    AdaptedWidens(samples, more, inner, outer);
    WideningDampens(v, Adapted(samples, inner, outer), Adapted(samples + more, inner, outer));
  }
}
