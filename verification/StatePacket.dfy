/** The input state of a controller: eighteen floats, as a structure, as a walk over them, and as words. */
module StatePackets {
  import opened Floats
  import opened Protocol

  /** The fields in the order of the structure, as the frontend walks over them. */
  type Packet = p: seq<real> | |p| == 18 witness seq(18, _ => 0.0)

  /** How far a stick or a pad is pushed, and how far a button is pressed. */
  type Tilt = v: real | -1.0 <= v <= 1.0
  type Level = v: real | 0.0 <= v <= 1.0

  /** MFiWInputStatePacket. */
  datatype StatePacket = StatePacket(
    dpadX: Tilt, dpadY: Tilt, a: Level, b: Level, x: Level, y: Level, leftShoulder: Level, rightShoulder: Level,
    leftStickX: Tilt, leftStickY: Tilt, rightStickX: Tilt, rightStickY: Tilt, leftTrigger: Level, rightTrigger: Level,
    select: Level, start: Level, leftStickButton: Level, rightStickButton: Level)

  const ZERO_STATE := StatePacket(
    0.0, 0.0, 0.0, 0.0, 0.0, 0.0, 0.0, 0.0, 0.0, 0.0, 0.0, 0.0, 0.0, 0.0, 0.0, 0.0, 0.0, 0.0)

  /** A digital button or flag as a level. */
  function Bit(on: bool): Level {
    if on then 1.0 else 0.0
  }

  /** The floats of the structure, by their place. */
  function FieldAt(s: StatePacket, f: nat): (v: real)
    requires f < 18
    ensures -1.0 <= v <= 1.0
  {
    if f == 0 then s.dpadX else if f == 1 then s.dpadY
    else if f == 2 then s.a else if f == 3 then s.b else if f == 4 then s.x else if f == 5 then s.y
    else if f == 6 then s.leftShoulder else if f == 7 then s.rightShoulder
    else if f == 8 then s.leftStickX else if f == 9 then s.leftStickY
    else if f == 10 then s.rightStickX else if f == 11 then s.rightStickY
    else if f == 12 then s.leftTrigger else if f == 13 then s.rightTrigger
    else if f == 14 then s.select else if f == 15 then s.start
    else if f == 16 then s.leftStickButton else s.rightStickButton
  }

  /** Words that carry a state: each is near its field. */
  predicate CarriesState(words: StateWords, s: StatePacket) {
    forall f | 0 <= f < 18 :: Near(FloatValue(words[f]), FieldAt(s, f))
  }

  function RoundedState(s: StatePacket): StateWords {
    seq(18, f requires 0 <= f < 18 => NearWord(FieldAt(s, f)))
  }

  /** Every state can be carried, whatever the fractions of its fields. */
  lemma RoundedCarries(s: StatePacket)
    ensures CarriesState(RoundedState(s), s)
  {
    forall f | 0 <= f < 18 ensures Near(FloatValue(RoundedState(s)[f]), FieldAt(s, f)) {
      NearWordIsNear(FieldAt(s, f));
    }
  }
}
