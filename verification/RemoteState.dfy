/** The states of the Wii Remote and the Classic Controller, from button words and from the buttons by name. */
module RemoteStates {
  import opened HidReports
  import opened StatePackets
  import opened ClassicReports

  // ----- as ProcessButtons fills them -----

  function PressedButtons(msg: HidBytes): bv16
    requires |msg| >= 2
  {
    Named(BigEndianShort(msg[0], msg[1]))
  }

  /** The bits that stand for buttons. */
  function Named(w: bv16): bv16 {
    w & 0x1F9F
  }

  predicate Held(btns: bv16, mask: bv16) {
    btns & mask != 0
  }

  /** The remote is held sideways: its up is to the left. */
  function RemoteState(btns: bv16): StatePacket {
    ZERO_STATE.(
      a := Bit(Held(btns, 0x0002)), b := Bit(Held(btns, 0x0001)), x := Bit(Held(btns, 0x0008)),
      y := Bit(Held(btns, 0x0004)), leftShoulder := Bit(Held(btns, 0x0010)), rightShoulder := Bit(Held(btns, 0x1000)),
      dpadX := if Held(btns, 0x0800) then -1.0 else Bit(Held(btns, 0x0400)),
      dpadY := if Held(btns, 0x0200) then -1.0 else Bit(Held(btns, 0x0100)))
  }

  function ClassicState(btns: bv16, leftX: Tilt, leftY: Tilt, rightX: Tilt, rightY: Tilt): StatePacket {
    ZERO_STATE.(
      a := Bit(Held(btns, 0x0040)), b := Bit(Held(btns, 0x0010)), x := Bit(Held(btns, 0x0020)),
      y := Bit(Held(btns, 0x0008)), leftShoulder := Bit(Held(btns, 0x2000)), rightShoulder := Bit(Held(btns, 0x0200)),
      leftTrigger := Bit(Held(btns, 0x0080)), rightTrigger := Bit(Held(btns, 0x0004)),
      select := Bit(Held(btns, 0x1000)), start := Bit(Held(btns, 0x0400)),
      dpadX := if Held(btns, 0x0002) then -1.0 else Bit(Held(btns, 0x8000)),
      dpadY := if Held(btns, 0x0001) then -1.0 else Bit(Held(btns, 0x4000)),
      leftStickX := leftX, leftStickY := leftY, rightStickX := rightX, rightStickY := rightY)
  }

  // ----- reference: the buttons by name -----

  datatype RemoteButton = TWO | ONE | B | A | MINUS | HOME | LEFT | RIGHT | DOWN | UP | PLUS

  function RemoteMask(b: RemoteButton): bv16 {
    match b
    case TWO => 0x0001
    case ONE => 0x0002
    case B => 0x0004
    case A => 0x0008
    case MINUS => 0x0010
    case HOME => 0x0080
    case LEFT => 0x0100
    case RIGHT => 0x0200
    case DOWN => 0x0400
    case UP => 0x0800
    case PLUS => 0x1000
  }

  datatype ClassicButton =
    | UP | LEFT | ZR | X | A | Y | B | ZL | FULL_R | PLUS | HOME | MINUS | FULL_L | DOWN | RIGHT

  function ClassicMask(b: ClassicButton): bv16 {
    match b
    case UP => 0x0001
    case LEFT => 0x0002
    case ZR => 0x0004
    case X => 0x0008
    case A => 0x0010
    case Y => 0x0020
    case B => 0x0040
    case ZL => 0x0080
    case FULL_R => 0x0200
    case PLUS => 0x0400
    case HOME => 0x0800
    case MINUS => 0x1000
    case FULL_L => 0x2000
    case DOWN => 0x4000
    case RIGHT => 0x8000
  }

  /** The buttons whose bits are set in a word, as the remote reports them. */
  function RemoteDown(w: bv16): set<RemoteButton> {
    set b: RemoteButton | w & RemoteMask(b) != 0
  }

  /** The buttons whose bits are clear, as the Classic Controller reports them. */
  function ClassicDown(w: bv16): set<ClassicButton> {
    set b: ClassicButton | w & ClassicMask(b) == 0
  }

  /** -1 if the first of two directions is held, 1 if only the second is. */
  function Direction(first: bool, second: bool): Tilt {
    if first then -1.0 else if second then 1.0 else 0.0
  }

  /** What the remote on its own shows, held sideways: up is to the left, right is up. */
  function RemoteShown(down: set<RemoteButton>): StatePacket {
    StatePacket(
      dpadX := Direction(RemoteButton.UP in down, RemoteButton.DOWN in down),
      dpadY := Direction(RemoteButton.RIGHT in down, RemoteButton.LEFT in down),
      a := Bit(RemoteButton.ONE in down), b := Bit(RemoteButton.TWO in down),
      x := Bit(RemoteButton.A in down), y := Bit(RemoteButton.B in down),
      leftShoulder := Bit(RemoteButton.MINUS in down), rightShoulder := Bit(RemoteButton.PLUS in down),
      leftStickX := 0.0, leftStickY := 0.0, rightStickX := 0.0, rightStickY := 0.0,
      leftTrigger := 0.0, rightTrigger := 0.0, select := 0.0, start := 0.0,
      leftStickButton := 0.0, rightStickButton := 0.0)
  }

  /** What the Classic Controller shows; its face buttons are named by place, so that its B is the field A. */
  function ClassicShown(down: set<ClassicButton>, lx: Tilt, ly: Tilt, rx: Tilt, ry: Tilt): StatePacket {
    StatePacket(
      dpadX := Direction(ClassicButton.LEFT in down, ClassicButton.RIGHT in down),
      dpadY := Direction(ClassicButton.UP in down, ClassicButton.DOWN in down),
      a := Bit(ClassicButton.B in down), b := Bit(ClassicButton.A in down),
      x := Bit(ClassicButton.Y in down), y := Bit(ClassicButton.X in down),
      leftShoulder := Bit(ClassicButton.FULL_L in down), rightShoulder := Bit(ClassicButton.FULL_R in down),
      leftStickX := lx, leftStickY := ly, rightStickX := rx, rightStickY := ry,
      leftTrigger := Bit(ClassicButton.ZL in down), rightTrigger := Bit(ClassicButton.ZR in down),
      select := Bit(ClassicButton.MINUS in down), start := Bit(ClassicButton.PLUS in down),
      leftStickButton := 0.0, rightStickButton := 0.0)
  }

  /** Masking and complementing do not disturb the bits that have a name. */
  lemma RemoteHeld(w: bv16, b: RemoteButton)
    ensures Held(Named(w), RemoteMask(b)) <==> b in RemoteDown(w)
  {
  }

  lemma ClassicHeld(w: bv16, b: ClassicButton)
    ensures Held(Complemented(w), ClassicMask(b)) <==> b in ClassicDown(w)
  {
  }

  /** The state sent for the remote, field by field, from the word in its report. */
  lemma RemoteStateByName(w: bv16)
    ensures RemoteState(Named(w)) == RemoteShown(RemoteDown(w))
  {
    forall b: RemoteButton ensures Held(Named(w), RemoteMask(b)) <==> b in RemoteDown(w) {
      RemoteHeld(w, b);
    }
  }

  /** The state sent for the Classic Controller, field by field, from the word in its report. */
  lemma ClassicStateByName(w: bv16, lx: Tilt, ly: Tilt, rx: Tilt, ry: Tilt)
    ensures ClassicState(Complemented(w), lx, ly, rx, ry) == ClassicShown(ClassicDown(w), lx, ly, rx, ry)
  {
    forall b: ClassicButton ensures Held(Complemented(w), ClassicMask(b)) <==> b in ClassicDown(w) {
      ClassicHeld(w, b);
    }
  }

  // ----- the buttons are independent of each other -----

  lemma RemoteMasksDiffer(b: RemoteButton, c: RemoteButton)
    ensures RemoteMask(b) != 0 && RemoteMask(c) != 0 && (b != c ==> RemoteMask(b) & RemoteMask(c) == 0)
  {
  }

  lemma ClassicMasksDiffer(b: ClassicButton, c: ClassicButton)
    ensures ClassicMask(b) != 0 && ClassicMask(c) != 0 && (b != c ==> ClassicMask(b) & ClassicMask(c) == 0)
  {
  }

  lemma SettingBits(w: bv16, m: bv16, n: bv16)
    requires m != 0 && (m == n || m & n == 0)
    ensures (w | m) & n != 0 <==> w & n != 0 || m == n
  {
  }

  lemma ClearingBits(w: bv16, m: bv16, n: bv16)
    requires m != 0 && (m == n || m & n == 0)
    ensures (w & !m) & n == 0 <==> w & n == 0 || m == n
  {
  }

  /** Setting the bit of a button adds it, and it alone, to what is down. */
  lemma RemotePress(w: bv16, b: RemoteButton, c: RemoteButton)
    ensures (w | RemoteMask(b)) & RemoteMask(c) != 0 <==> w & RemoteMask(c) != 0 || c == b
  {
    RemoteMasksDiffer(b, c);
    SettingBits(w, RemoteMask(b), RemoteMask(c));
  }

  /** On the Classic Controller clearing it does. */
  lemma ClassicPress(w: bv16, b: ClassicButton, c: ClassicButton)
    ensures (w & !ClassicMask(b)) & ClassicMask(c) == 0 <==> w & ClassicMask(c) == 0 || c == b
  {
    ClassicMasksDiffer(b, c);
    ClearingBits(w, ClassicMask(b), ClassicMask(c));
  }

  lemma NothingDown(b: RemoteButton, c: ClassicButton)
    ensures b !in RemoteDown(0) && c !in ClassicDown(0xFFFF)
  {
  }
}
