/** The plain gamepads by the names of their controls: what a report says, and runs of raw reports. */
module GamepadInputs {
  import opened Bytes
  import opened Calibrations
  import opened HidReports
  import opened StatePackets
  import opened Gamepads
  import opened GamepadReports

  function Flag(on: bool): Level {
    if on then 1.0 else 0.0
  }

  /** A stick of the DualShock 3 or 4 between 0 and 255, with its dead zone from 100 to 155. */
  function Stick(v: bv8): Tilt {
    AxisTilt(v as int, Calibration(0, 100, 155, 255))
  }

  // ----- DualShock 4 -----

  datatype Ps4Pad = Ps4Pad(
    square: bool, cross: bool, circle: bool, triangle: bool, l1: bool, r1: bool, l2: bool, r2: bool,
    share: bool, options: bool, l3: bool, r3: bool, ps: bool, hat: bv8,
    leftX: bv8, leftY: bv8, rightX: bv8, rightY: bv8)

  /** A full input report: 79 bytes of which the third is 0xC0 and the fourth 0. */
  predicate Ps4Full(data: Report, size: nat) {
    size == 79 && data[2] == 0xC0 && data[3] == 0x00
  }

  function Ps4Of(face: bv8, rest: bv8, last: bv8, leftX: bv8, leftY: bv8, rightX: bv8, rightY: bv8): Ps4Pad {
    Ps4Pad(
      square := face & 0x10 != 0, cross := face & 0x20 != 0, circle := face & 0x40 != 0, triangle := face & 0x80 != 0,
      l1 := rest & 0x01 != 0, r1 := rest & 0x02 != 0, l2 := rest & 0x04 != 0, r2 := rest & 0x08 != 0,
      share := rest & 0x10 != 0, options := rest & 0x20 != 0, l3 := rest & 0x40 != 0, r3 := rest & 0x80 != 0,
      ps := last & 0x01 != 0, hat := face & 0x0F,
      leftX := leftX, leftY := leftY, rightX := rightX, rightY := rightY)
  }

  function Ps4Read(data: Report): Ps4Pad {
    Ps4Of(data[8], data[9], data[10], data[4], data[5], data[6], data[7])
  }

  /** The horizontal and vertical parts of a hat position, clockwise from the top in eighths of a turn. */
  function HatX(hat: bv8): Tilt {
    if 1 <= hat <= 3 then 1.0 else if 5 <= hat <= 7 then -1.0 else 0.0
  }

  function HatY(hat: bv8): Tilt {
    if hat == 7 || hat <= 1 then -1.0 else if 3 <= hat <= 5 then 1.0 else 0.0
  }

  /** Upwards is negative on the pad and positive on the sticks. */
  function Ps4Shown(p: Ps4Pad): StatePacket {
    StatePacket(
      dpadX := HatX(p.hat), dpadY := HatY(p.hat),
      a := Flag(p.cross), b := Flag(p.circle), x := Flag(p.square), y := Flag(p.triangle),
      leftShoulder := Flag(p.l1), rightShoulder := Flag(p.r1),
      leftStickX := Stick(p.leftX), leftStickY := -Stick(p.leftY),
      rightStickX := Stick(p.rightX), rightStickY := -Stick(p.rightY),
      leftTrigger := Flag(p.l2), rightTrigger := Flag(p.r2),
      select := Flag(p.share), start := Flag(p.options),
      leftStickButton := Flag(p.l3), rightStickButton := Flag(p.r3))
  }

  /** Full reports say what the pad does, and all others nothing. */
  function Ps4Means(data: Report, size: nat): Option<Decoded> {
    if Ps4Full(data, size) then Some(Decoded(Ps4Read(data).ps, Ps4Shown(Ps4Read(data)))) else None
  }

  lemma HatParts(hat: bv8)
    ensures HatDirection(hat) == (HatX(hat), HatY(hat))
  {
  }

  lemma Ps4Decodes(data: Report, size: nat)
    ensures DecodePs4(data, size) == Ps4Means(data, size)
  {
    HatParts(data[8] & 0x0F);
  }

  function Set(on: bool, mask: bv8): bv8 {
    if on then mask else 0
  }

  function FaceByte(hat: bv8, square: bool, cross: bool, circle: bool, triangle: bool): bv8 {
    hat | Set(square, 0x10) | Set(cross, 0x20) | Set(circle, 0x40) | Set(triangle, 0x80)
  }

  function ButtonByte(a: bool, b: bool, c: bool, d: bool, e: bool, f: bool, g: bool, h: bool): bv8 {
    Set(a, 0x01) | Set(b, 0x02) | Set(c, 0x04) | Set(d, 0x08) |
    Set(e, 0x10) | Set(f, 0x20) | Set(g, 0x40) | Set(h, 0x80)
  }

  /** A report that the DualShock 4 sends for a pad. */
  function Ps4Report(p: Ps4Pad): Report {
    seq(2048, i requires 0 <= i < 2048 =>
      if i == 2 then 0xC0 else if i == 4 then p.leftX else if i == 5 then p.leftY else if i == 6 then p.rightX
      else if i == 7 then p.rightY else if i == 8 then FaceByte(p.hat, p.square, p.cross, p.circle, p.triangle)
      else if i == 9 then ButtonByte(p.l1, p.r1, p.l2, p.r2, p.share, p.options, p.l3, p.r3)
      else if i == 10 then Set(p.ps, 0x01) else 0)
  }

  lemma FaceBits(hat: bv8, square: bool, cross: bool, circle: bool, triangle: bool)
    requires hat < 16
    ensures var face := FaceByte(hat, square, cross, circle, triangle);
            && face & 0x0F == hat && (face & 0x10 != 0 <==> square) && (face & 0x20 != 0 <==> cross)
            && (face & 0x40 != 0 <==> circle) && (face & 0x80 != 0 <==> triangle)
  {
  }

  predicate Bits(w: bv8, a: bool, b: bool, c: bool, d: bool, e: bool, f: bool, g: bool, h: bool) {
    && (w & 0x01 != 0 <==> a) && (w & 0x02 != 0 <==> b) && (w & 0x04 != 0 <==> c) && (w & 0x08 != 0 <==> d)
    && (w & 0x10 != 0 <==> e) && (w & 0x20 != 0 <==> f) && (w & 0x40 != 0 <==> g) && (w & 0x80 != 0 <==> h)
  }

  lemma EightBits(a: bool, b: bool, c: bool, d: bool, e: bool, f: bool, g: bool, h: bool)
    ensures Bits(ButtonByte(a, b, c, d, e, f, g, h), a, b, c, d, e, f, g, h)
  {
  }

  lemma OneBit(on: bool)
    ensures Set(on, 0x01) & 0x01 != 0 <==> on
  {
  }

  lemma Ps4BytesRead(p: Ps4Pad, buttons: bv8)
    requires p.hat < 16 && Bits(buttons, p.l1, p.r1, p.l2, p.r2, p.share, p.options, p.l3, p.r3)
    ensures Ps4Of(FaceByte(p.hat, p.square, p.cross, p.circle, p.triangle), buttons,
                  Set(p.ps, 0x01), p.leftX, p.leftY, p.rightX, p.rightY) == p
  {
    FaceBits(p.hat, p.square, p.cross, p.circle, p.triangle);
    OneBit(p.ps);
  }

  lemma Ps4ReportBytes(p: Ps4Pad)
    ensures var data := Ps4Report(p);
            && Ps4Full(data, 79) && data[8] == FaceByte(p.hat, p.square, p.cross, p.circle, p.triangle)
            && data[9] == ButtonByte(p.l1, p.r1, p.l2, p.r2, p.share, p.options, p.l3, p.r3)
            && data[10] == Set(p.ps, 0x01)
            && data[4] == p.leftX && data[5] == p.leftY && data[6] == p.rightX && data[7] == p.rightY
  {
  }

  lemma Ps4ReportRead(p: Ps4Pad)
    requires p.hat < 16
    ensures Ps4Full(Ps4Report(p), 79) && Ps4Read(Ps4Report(p)) == p
  {
    Ps4ReportBytes(p);
    EightBits(p.l1, p.r1, p.l2, p.r2, p.share, p.options, p.l3, p.r3);
    Ps4BytesRead(p, Ps4Report(p)[9]);
  }

  /** Every pad has a report that is accepted and read back as it was. */
  lemma Ps4RoundTrip(p: Ps4Pad)
    requires p.hat < 16
    ensures Ps4Full(Ps4Report(p), 79) && Ps4Read(Ps4Report(p)) == p
    ensures DecodePs4(Ps4Report(p), 79) == Some(Decoded(p.ps, Ps4Shown(p)))
  {
    Ps4ReportRead(p);
    Ps4Decodes(Ps4Report(p), 79);
  }

  // ----- DualShock 3 -----

  /** Directions, shoulders and face buttons report how hard they are pressed. */
  datatype Ps3Pad = Ps3Pad(
    selectDown: bool, l3: bool, r3: bool, startDown: bool, ps: bool,
    up: bv8, right: bv8, down: bv8, left: bv8, l2: bv8, r2: bv8, l1: bv8, r1: bv8,
    triangle: bv8, circle: bv8, cross: bv8, square: bv8,
    leftX: bv8, leftY: bv8, rightX: bv8, rightY: bv8)

  function Ps3Of(buttons: bv8, last: bv8, sticks: HidBytes, levels: HidBytes): Ps3Pad
    requires |sticks| == 4 && |levels| == 12
  {
    Ps3Pad(
      selectDown := buttons & 0x01 != 0, l3 := buttons & 0x02 != 0, r3 := buttons & 0x04 != 0,
      startDown := buttons & 0x08 != 0, ps := last & 0x01 != 0,
      leftX := sticks[0], leftY := sticks[1], rightX := sticks[2], rightY := sticks[3],
      up := levels[0], right := levels[1], down := levels[2], left := levels[3],
      l2 := levels[4], r2 := levels[5], l1 := levels[6], r1 := levels[7],
      triangle := levels[8], circle := levels[9], cross := levels[10], square := levels[11])
  }

  function Ps3Read(data: Report): Ps3Pad {
    Ps3Of(data[3], data[5], data[7..11], data[15..27])
  }

  /** A pressure out of 255. */
  function Pressed(v: bv8): Level {
    QuotientOfOne(v as int as real, 255.0);
    v as int as real / 255.0
  }

  function Pushed(negative: bv8, positive: bv8): Tilt {
    var n: real := Pressed(negative);
    if negative != 0 then -n else Pressed(positive)
  }

  function Ps3Shown(p: Ps3Pad): StatePacket {
    StatePacket(
      dpadX := Pushed(p.left, p.right), dpadY := Pushed(p.up, p.down),
      a := Pressed(p.cross), b := Pressed(p.circle), x := Pressed(p.square), y := Pressed(p.triangle),
      leftShoulder := Pressed(p.l1), rightShoulder := Pressed(p.r1),
      leftStickX := Stick(p.leftX), leftStickY := -Stick(p.leftY),
      rightStickX := Stick(p.rightX), rightStickY := -Stick(p.rightY),
      leftTrigger := Pressed(p.l2), rightTrigger := Pressed(p.r2),
      select := Flag(p.selectDown), start := Flag(p.startDown),
      leftStickButton := Flag(p.l3), rightStickButton := Flag(p.r3))
  }

  function Ps3Means(data: Report): Option<Decoded> {
    Some(Decoded(Ps3Read(data).ps, Ps3Shown(Ps3Read(data))))
  }

  lemma OpposedPushes(negative: bv8, positive: bv8)
    ensures Opposed(negative, positive) == Pushed(negative, positive)
  {
  }

  lemma Ps3Decodes(data: Report)
    ensures DecodePs3(data) == Ps3Means(data)
  {
    OpposedPushes(data[18], data[16]);
    OpposedPushes(data[15], data[17]);
  }

  function LevelBytes(p: Ps3Pad): (levels: HidBytes)
    ensures |levels| == 12
  {
    [p.up, p.right, p.down, p.left, p.l2, p.r2, p.l1, p.r1, p.triangle, p.circle, p.cross, p.square]
  }

  function Ps3Report(p: Ps3Pad): Report {
    var buttons := ButtonByte(p.selectDown, p.l3, p.r3, p.startDown, false, false, false, false);
    var sticks := [p.leftX, p.leftY, p.rightX, p.rightY];
    seq(2048, i requires 0 <= i < 2048 =>
      if i == 3 then buttons else if i == 5 then Set(p.ps, 0x01) else if 7 <= i < 11 then sticks[i - 7]
      else if 15 <= i < 27 then LevelBytes(p)[i - 15] else 0)
  }

  lemma Ps3BytesRead(p: Ps3Pad)
    ensures Ps3Of(ButtonByte(p.selectDown, p.l3, p.r3, p.startDown, false, false, false, false), Set(p.ps, 0x01),
                  [p.leftX, p.leftY, p.rightX, p.rightY], LevelBytes(p)) == p
  {
    EightBits(p.selectDown, p.l3, p.r3, p.startDown, false, false, false, false);
    OneBit(p.ps);
  }

  lemma Ps3ReportBytes(p: Ps3Pad)
    ensures Ps3Report(p)[7..11] == [p.leftX, p.leftY, p.rightX, p.rightY]
    ensures Ps3Report(p)[15..27] == LevelBytes(p)
  {
    var data := Ps3Report(p);
    assert forall i | 0 <= i < 4 :: data[7..11][i] == data[7 + i] == [p.leftX, p.leftY, p.rightX, p.rightY][i];
    assert forall i | 0 <= i < 12 :: data[15..27][i] == data[15 + i] == LevelBytes(p)[i];
  }

  lemma Ps3RoundTrip(p: Ps3Pad)
    ensures Ps3Read(Ps3Report(p)) == p && DecodePs3(Ps3Report(p)) == Some(Decoded(p.ps, Ps3Shown(p)))
  {
    Ps3BytesRead(p);
    Ps3ReportBytes(p);
    Ps3Decodes(Ps3Report(p));
  }

  // ----- Wii U Pro -----

  /** Raw stick values are words of sixteen bits. */
  datatype ProPad = ProPad(
    a: bool, b: bool, x: bool, y: bool, l: bool, r: bool, zl: bool, zr: bool, minus: bool, plus: bool, home: bool,
    leftStick: bool, rightStick: bool, up: bool, down: bool, left: bool, right: bool,
    leftX: int, leftY: int, rightX: int, rightY: int)

  /** A report with all buttons and sticks: 23 bytes with the ID 0x34. */
  predicate ProFull(data: Report, size: nat) {
    size == 23 && data[1] == 0x34
  }

  function LittleEndian(low: bv8, high: bv8): int {
    low as int + 256 * high as int
  }

  /** Pressed buttons are zero bits. */
  function ProOf(first: bv8, second: bv8, third: bv8, leftX: int, leftY: int, rightX: int, rightY: int): ProPad {
    ProPad(
      right := first & 0x80 == 0, down := first & 0x40 == 0, l := first & 0x20 == 0, minus := first & 0x10 == 0,
      home := first & 0x08 == 0, plus := first & 0x04 == 0, r := first & 0x02 == 0,
      zl := second & 0x80 == 0, b := second & 0x40 == 0, y := second & 0x20 == 0, a := second & 0x10 == 0,
      x := second & 0x08 == 0, zr := second & 0x04 == 0, left := second & 0x02 == 0, up := second & 0x01 == 0,
      leftStick := third & 0x02 == 0, rightStick := third & 0x01 == 0,
      leftX := leftX, leftY := leftY, rightX := rightX, rightY := rightY)
  }

  function ProRead(data: Report): ProPad {
    ProOf(data[12], data[13], data[14], LittleEndian(data[4], data[5]), LittleEndian(data[8], data[9]),
          LittleEndian(data[6], data[7]), LittleEndian(data[10], data[11]))
  }

  function Sticks(p: ProPad): AxisValues {
    [p.leftX, p.leftY, p.rightX, p.rightY]
  }

  /** A raw value through the calibration of all the values of its axis so far. */
  function Calibrated(samples: seq<AxisValues>, k: nat): Tilt
    requires samples != [] && k < 4
  {
    AxisTilt(samples[|samples| - 1][k], Adapted(AxisSamples(samples, k), 0x80, 0x100))
  }

  function OneOf(negative: bool, positive: bool): Tilt {
    if negative then -1.0 else if positive then 1.0 else 0.0
  }

  /** samples is the raw values of all the reports accepted so far, the one of p last. */
  function ProShown(p: ProPad, samples: seq<AxisValues>): StatePacket
    requires samples != []
  {
    StatePacket(
      dpadX := OneOf(p.left, p.right), dpadY := OneOf(p.up, p.down),
      a := Flag(p.b), b := Flag(p.a), x := Flag(p.y), y := Flag(p.x),
      leftShoulder := Flag(p.l), rightShoulder := Flag(p.r),
      leftStickX := Calibrated(samples, 0), leftStickY := Calibrated(samples, 1),
      rightStickX := Calibrated(samples, 2), rightStickY := Calibrated(samples, 3),
      leftTrigger := Flag(p.zl), rightTrigger := Flag(p.zr), select := Flag(p.minus), start := Flag(p.plus),
      leftStickButton := Flag(p.leftStick), rightStickButton := Flag(p.rightStick))
  }

  /** before is the raw values of the reports accepted before. */
  function ProMeans(data: Report, size: nat, before: seq<AxisValues>): Option<Decoded> {
    if ProFull(data, size)
    then Some(Decoded(ProRead(data).home, ProShown(ProRead(data), before + [Sticks(ProRead(data))]))) else None
  }

  /** The driver turns the button bytes over, and then looks for ones. */
  lemma Inverted(b: bv8)
    ensures (b ^ 0xFF) & 0x01 != 0 <==> b & 0x01 == 0
    ensures (b ^ 0xFF) & 0x02 != 0 <==> b & 0x02 == 0
    ensures (b ^ 0xFF) & 0x04 != 0 <==> b & 0x04 == 0
    ensures (b ^ 0xFF) & 0x08 != 0 <==> b & 0x08 == 0
    ensures (b ^ 0xFF) & 0x10 != 0 <==> b & 0x10 == 0
    ensures (b ^ 0xFF) & 0x20 != 0 <==> b & 0x20 == 0
    ensures (b ^ 0xFF) & 0x40 != 0 <==> b & 0x40 == 0
    ensures (b ^ 0xFF) & 0x80 != 0 <==> b & 0x80 == 0
  {
  }

  /** The buttons of an inverted report, and the axes as calibrated. */
  lemma ProStateRead(data: Report, samples: seq<AxisValues>, axes: seq<Tilt>)
    requires samples != [] && |axes| == 4 && forall k | 0 <= k < 4 :: axes[k] == Calibrated(samples, k)
    ensures ProInput(data[12] ^ 0xFF, data[13] ^ 0xFF, data[14] ^ 0xFF, axes) ==
            Decoded(ProRead(data).home, ProShown(ProRead(data), samples))
  {
    Inverted(data[12]);
    Inverted(data[13]);
    Inverted(data[14]);
  }

  /** The driver, with the calibrations of all its accepted reports, reads what the report says. */
  lemma ProDecodes(data: Report, size: nat, before: seq<AxisValues>, cs: seq<Calibration>)
    requires |cs| == 4 && AllOrdered(cs)
    requires ProFull(data, size) ==> cs == CalibrationsAfter(before + [Sticks(ProRead(data))])
    ensures DecodePro(data, size, cs) == ProMeans(data, size, before)
  {
    if ProFull(data, size) {
      var values, samples := ProValues(data), before + [Sticks(ProRead(data))];
      assert values == Sticks(ProRead(data));
      var axes := ProAxes(values, cs);
      forall k | 0 <= k < 4 ensures axes[k] == Calibrated(samples, k) {
        ProAxesAdapt(samples, k);
      }
      ProStateRead(data, samples, axes);
    }
  }

  /** The stick values of a pad in bytes. */
  predicate StickBytes(p: ProPad, sticks: HidBytes) {
    && |sticks| == 8 && p.leftX == LittleEndian(sticks[0], sticks[1]) && p.rightX == LittleEndian(sticks[2], sticks[3])
    && p.leftY == LittleEndian(sticks[4], sticks[5]) && p.rightY == LittleEndian(sticks[6], sticks[7])
  }

  /** A report that the Wii U Pro controller sends for a pad. */
  function ProReport(p: ProPad, sticks: HidBytes): Report
    requires StickBytes(p, sticks)
  {
    var first := ButtonByte(true, !p.r, !p.plus, !p.home, !p.minus, !p.l, !p.down, !p.right);
    var second := ButtonByte(!p.up, !p.left, !p.zr, !p.x, !p.a, !p.y, !p.b, !p.zl);
    var third := ButtonByte(!p.rightStick, !p.leftStick, true, true, true, true, true, true);
    seq(2048, i requires 0 <= i < 2048 =>
      if i == 1 then 0x34 else if 4 <= i < 12 then sticks[i - 4] else if i == 12 then first else if i == 13 then second
      else if i == 14 then third else 0)
  }

  lemma ProBytesRead(p: ProPad, first: bv8, second: bv8, third: bv8)
    requires Bits(first, true, !p.r, !p.plus, !p.home, !p.minus, !p.l, !p.down, !p.right)
    requires Bits(second, !p.up, !p.left, !p.zr, !p.x, !p.a, !p.y, !p.b, !p.zl)
    requires Bits(third, !p.rightStick, !p.leftStick, true, true, true, true, true, true)
    ensures ProOf(first, second, third, p.leftX, p.leftY, p.rightX, p.rightY) == p
  {
  }

  lemma ProRoundTrip(p: ProPad, sticks: HidBytes)
    requires StickBytes(p, sticks)
    ensures ProFull(ProReport(p, sticks), 23) && ProRead(ProReport(p, sticks)) == p
  {
    EightBits(true, !p.r, !p.plus, !p.home, !p.minus, !p.l, !p.down, !p.right);
    EightBits(!p.up, !p.left, !p.zr, !p.x, !p.a, !p.y, !p.b, !p.zl);
    EightBits(!p.rightStick, !p.leftStick, true, true, true, true, true, true);
    var data := ProReport(p, sticks);
    ProBytesRead(p, data[12], data[13], data[14]);
  }

  /** A report of another form has no effect but the report that was due. */
  lemma MalformedIgnored(p: Gamepad, data: Report, size: nat, cs: seq<Calibration>)
    requires |cs| == 4 && AllOrdered(cs)
    ensures !Ps4Full(data, size) ==> p.Serve(PS4, DecodePs4(data, size)) == p.Reported(PS4)
    ensures !ProFull(data, size) ==> p.Serve(PRO, DecodePro(data, size, cs)) == p.Reported(PRO)
  {
    Ps4Decodes(data, size);
  }

  // ----- runs of raw reports -----

  /** A report as it arrives, a player index, or the colour that another DualShock 4 leaves. */
  datatype RawEvent = Arrived(data: Report, size: nat) | Indexed(index: int32) | Recoloured(colour: Colour)

  /** The raw stick values of the Wii U Pro's accepted reports. */
  function ProSamples(raws: seq<RawEvent>): seq<AxisValues> {
    if raws == [] then []
    else
      var last := raws[|raws| - 1];
      ProSamples(raws[..|raws| - 1]) +
      if last.Arrived? && ProAccepts(last.data, last.size) then [ProValues(last.data)] else []
  }

  /** What a driver makes of a report after some others. */
  function DriverDecodes(driver: Driver, before: seq<RawEvent>, data: Report, size: nat): Option<Decoded> {
    match driver
    case PS3 => DecodePs3(data)
    case PS4 => DecodePs4(data, size)
    case PRO =>
      if !ProAccepts(data, size) then None
      else
        var samples := ProSamples(before) + [ProValues(data)];
        AlwaysOrdered(samples, CalibrationsAfter(samples));
        DecodePro(data, size, CalibrationsAfter(samples))
  }

  /** A run as its driver sees it. */
  function Heard(driver: Driver, raws: seq<RawEvent>): seq<Event> {
    if raws == [] then []
    else
      var before := raws[..|raws| - 1];
      Heard(driver, before) +
      match raws[|raws| - 1] {
        case Arrived(data, size) => [Packet(DriverDecodes(driver, before, data, size))]
        case Indexed(index) => [IndexSet(index)]
        case Recoloured(colour) => [Repainted(colour)]
      }
  }

  // ----- reference: the same by the names of the controls -----

  function StickHistory(raws: seq<RawEvent>): seq<AxisValues> {
    if raws == [] then []
    else
      var last := raws[|raws| - 1];
      StickHistory(raws[..|raws| - 1]) +
      if last.Arrived? && ProFull(last.data, last.size) then [Sticks(ProRead(last.data))] else []
  }

  function Means(driver: Driver, before: seq<RawEvent>, data: Report, size: nat): Option<Decoded> {
    match driver
    case PS3 => Ps3Means(data)
    case PS4 => Ps4Means(data, size)
    case PRO => ProMeans(data, size, StickHistory(before))
  }

  /** A run as its reports say. */
  function Said(driver: Driver, raws: seq<RawEvent>): seq<Event> {
    if raws == [] then []
    else
      var before := raws[..|raws| - 1];
      Said(driver, before) +
      match raws[|raws| - 1] {
        case Arrived(data, size) => [Packet(Means(driver, before, data, size))]
        case Indexed(index) => [IndexSet(index)]
        case Recoloured(colour) => [Repainted(colour)]
      }
  }

  lemma {:induction false} SamplesAlike(raws: seq<RawEvent>)
    ensures ProSamples(raws) == StickHistory(raws)
  {
    if raws != [] {
      SamplesAlike(raws[..|raws| - 1]);
    }
  }

  lemma DriverReads(driver: Driver, before: seq<RawEvent>, data: Report, size: nat)
    ensures DriverDecodes(driver, before, data, size) == Means(driver, before, data, size)
  {
    match driver
    case PS3 => Ps3Decodes(data);
    case PS4 => Ps4Decodes(data, size);
    case PRO =>
      if ProAccepts(data, size) {
        SamplesAlike(before);
        var samples := ProSamples(before) + [ProValues(data)];
        assert ProValues(data) == Sticks(ProRead(data));
        AlwaysOrdered(samples, CalibrationsAfter(samples));
        ProDecodes(data, size, ProSamples(before), CalibrationsAfter(samples));
      }
  }

  /** Every driver hears what its reports say, over any run of raw reports, malformed ones included. */
  lemma {:induction false} HeardAsSaid(driver: Driver, raws: seq<RawEvent>)
    ensures Heard(driver, raws) == Said(driver, raws)
  {
    if raws != [] {
      var before, last := raws[..|raws| - 1], raws[|raws| - 1];
      HeardAsSaid(driver, before);
      if last.Arrived? {
        DriverReads(driver, before, last.data, last.size);
      }
    }
  }

  /** From raw reports: the pauses sent are the presses that the reports say, and the states sent those they show. */
  lemma RawReportsForwarded(driver: Driver, opening: seq<Output>, raws: seq<RawEvent>)
    requires OnlyReports(opening)
    ensures var log := GamepadAfter(driver, opening, Heard(driver, raws)).log;
            && CountPauses(log) == |Presses(PauseBits(Said(driver, raws)))|
            && StatesSent(log) == AcceptedStates(Said(driver, raws))
  {
    HeardAsSaid(driver, raws);
    PauseEdges(driver, opening, Said(driver, raws));
    SentAreAccepted(driver, opening, Said(driver, raws));
  }
}
