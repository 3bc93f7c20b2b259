/** What the input reports of the plain gamepads mean, as their drivers read them. */
module GamepadReports {
  import opened Bytes
  import opened Calibrations
  import opened HidReports
  import opened StatePackets
  import opened Gamepads

  // ----- the DualShock 3 and 4 -----

  function FixedAxis(v: bv8): Tilt {
    AxisTilt(v as int, FIXED)
  }

  /** The direction a hat position stands for, clockwise from the top; positions from 8 on are the centre. */
  function HatDirection(n: bv8): (Tilt, Tilt) {
    if n == 0 then (0.0, -1.0) else if n == 1 then (1.0, -1.0) else if n == 2 then (1.0, 0.0)
    else if n == 3 then (1.0, 1.0) else if n == 4 then (0.0, 1.0) else if n == 5 then (-1.0, 1.0)
    else if n == 6 then (-1.0, 0.0) else if n == 7 then (-1.0, -1.0) else (0.0, 0.0)
  }

  /**
   * Position 0 is up and position 1 up and right; two positions on is a quarter turn clockwise, which gives the
   * others. All eight are different, and the fourth after each is its opposite.
   */
  lemma HatRing(n: bv8, m: bv8)
    requires n < 8 && m < 8
    ensures HatDirection(0) == (0.0, -1.0) && HatDirection(1) == (1.0, -1.0)
    ensures n < 6 ==> HatDirection(n + 2) == (-HatDirection(n).1, HatDirection(n).0)
    ensures HatDirection(n) == HatDirection(m) <==> n == m
    ensures HatDirection(if n < 4 then n + 4 else n - 4) == (-HatDirection(n).0, -HatDirection(n).1)
  {
  }

  /** The state in a full report of the DualShock 4; its vertical axes are turned over. */
  function Ps4State(data: Report): StatePacket {
    var face, rest, hat := data[8], data[9], HatDirection(data[8] & 0x0F);
    StatePacket(
      hat.0, hat.1,
      Bit(face & 0x20 != 0), Bit(face & 0x40 != 0), Bit(face & 0x10 != 0), Bit(face & 0x80 != 0),
      Bit(rest & 0x01 != 0), Bit(rest & 0x02 != 0),
      FixedAxis(data[4]), 0.0 - FixedAxis(data[5]), FixedAxis(data[6]), 0.0 - FixedAxis(data[7]),
      Bit(rest & 0x04 != 0), Bit(rest & 0x08 != 0), Bit(rest & 0x10 != 0), Bit(rest & 0x20 != 0),
      Bit(rest & 0x40 != 0), Bit(rest & 0x80 != 0))
  }

  /** Only full input reports are accepted. */
  function DecodePs4(data: Report, size: nat): Option<Decoded> {
    if size != 79 || data[2] != 0xC0 || data[3] != 0 then None
    else Some(Decoded(data[10] & 0x01 != 0, Ps4State(data)))
  }

  /** A pressure as a level: the whole of it is 255. */
  function Pressure(v: bv8): (r: Level)
    ensures r * 255.0 == v as int as real
    ensures r > 0.0 <==> v != 0
  {
    QuotientOfOne(v as int as real, 255.0);
    v as int as real / 255.0
  }

  /** Two pressures as one axis; the negative one has priority. */
  function Opposed(negative: bv8, positive: bv8): (r: Tilt)
    ensures r < 0.0 <==> negative != 0
    ensures r > 0.0 <==> negative == 0 && positive != 0
  {
    var p: real := Pressure(negative);
    if p > 0.0 then -p else Pressure(positive)
  }

  function Ps3State(data: Report): StatePacket {
    StatePacket(
      Opposed(data[18], data[16]), Opposed(data[15], data[17]),
      Pressure(data[25]), Pressure(data[24]), Pressure(data[26]), Pressure(data[23]),
      Pressure(data[21]), Pressure(data[22]),
      FixedAxis(data[7]), 0.0 - FixedAxis(data[8]), FixedAxis(data[9]), 0.0 - FixedAxis(data[10]),
      Pressure(data[19]), Pressure(data[20]),
      Bit(data[3] & 0x01 != 0), Bit(data[3] & 0x08 != 0), Bit(data[3] & 0x02 != 0), Bit(data[3] & 0x04 != 0))
  }

  /** Every report is accepted. */
  function DecodePs3(data: Report): Option<Decoded> {
    Some(Decoded(data[5] & 0x01 != 0, Ps3State(data)))
  }

  // ----- the Wii U Pro controller -----

  function Fetch16(data: HidBytes, x: nat): int
    requires x + 1 < |data|
  {
    data[x] as int + 0x100 * data[x + 1] as int
  }

  /** Left x, left y, right x, right y, where the report keeps them. */
  function ProValues(data: HidBytes): (vs: AxisValues)
    requires |data| >= 12
  {
    [Fetch16(data, 4), Fetch16(data, 8), Fetch16(data, 6), Fetch16(data, 10)]
  }

  predicate ProAccepts(data: HidBytes, size: nat)
    requires |data| == 2048
  {
    size == 23 && data[1] == 0x34
  }

  predicate AllOrdered(cs: seq<Calibration>) {
    forall k | 0 <= k < |cs| :: cs[k].Ordered()
  }

  /** Each stick value read through its own calibration. */
  function ProAxes(values: AxisValues, cs: seq<Calibration>): (axes: seq<Tilt>)
    requires |cs| == 4 && AllOrdered(cs)
    ensures |axes| == 4
  {
    seq(4, k requires 0 <= k < 4 => AxisTilt(values[k], cs[k]))
  }

  /** The state from the three button bytes, turned over, and the calibrated axes. */
  function ProState(shoulders: bv8, face: bv8, sticks: bv8, axes: seq<Tilt>): StatePacket
    requires |axes| == 4
  {
    StatePacket(
      if face & 0x02 != 0 then -1.0 else Bit(shoulders & 0x80 != 0),
      if face & 0x01 != 0 then -1.0 else Bit(shoulders & 0x40 != 0),
      Bit(face & 0x40 != 0), Bit(face & 0x10 != 0), Bit(face & 0x20 != 0), Bit(face & 0x08 != 0),
      Bit(shoulders & 0x20 != 0), Bit(shoulders & 0x02 != 0),
      axes[0], axes[1], axes[2], axes[3],
      Bit(face & 0x80 != 0), Bit(face & 0x04 != 0), Bit(shoulders & 0x10 != 0), Bit(shoulders & 0x04 != 0),
      Bit(sticks & 0x02 != 0), Bit(sticks & 0x01 != 0))
  }

  /** The decoded report: buttons are active low, and each stick value is read through its new calibration. */
  function DecodePro(data: HidBytes, size: nat, cs: seq<Calibration>): Option<Decoded>
    requires |data| == 2048 && |cs| == 4 && AllOrdered(cs)
  {
    if ProAccepts(data, size) then Some(ProDecoded(data, cs)) else None
  }

  function ProDecoded(data: HidBytes, cs: seq<Calibration>): Decoded
    requires |data| == 2048 && |cs| == 4 && AllOrdered(cs)
  {
    ProInput(data[12] ^ 0xFF, data[13] ^ 0xFF, data[14] ^ 0xFF, ProAxes(ProValues(data), cs))
  }

  function ProInput(shoulders: bv8, face: bv8, sticks: bv8, axes: seq<Tilt>): Decoded
    requires |axes| == 4
  {
    Decoded(shoulders & 0x08 != 0, ProState(shoulders, face, sticks, axes))
  }

  lemma AlwaysOrdered(samples: seq<AxisValues>, cs: seq<Calibration>)
    requires cs == if samples == [] then [FIXED, FIXED, FIXED, FIXED] else CalibrationsAfter(samples)
    ensures AllOrdered(cs)
  {
    if samples != [] {
      forall k | 0 <= k < 4 ensures cs[k].Ordered() {
        ProAxesAdapt(samples, k);
      }
    }
  }
}
