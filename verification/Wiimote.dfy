/** The Wii Remote: the handshake machine, the Classic Controller expansion and the driver around them. */
module Wiimotes {
  import opened Bytes
  import opened HidReports

  // ----- reports and commands -----

  const SET_REPORT: bv8 := 0x52

  const CMD_LED: bv8 := 0x11
  const CMD_REPORT_TYPE: bv8 := 0x12
  const CMD_CTRL_STATUS: bv8 := 0x15
  const CMD_WRITE_DATA: bv8 := 0x16
  const CMD_READ_DATA: bv8 := 0x17

  const RPT_CTRL_STATUS: bv8 := 0x20
  const RPT_READ: bv8 := 0x21
  const RPT_BTN: bv8 := 0x30
  const RPT_BTN_EXP: bv8 := 0x34

  /** An output report: its ID, and the buffer that wiimote_send builds. */
  datatype Command = Command(id: bv8, buffer: HidBytes)

  function Sending(id: bv8, msg: HidBytes): Command {
    Command(id, [SET_REPORT, id] + msg)
  }

  function LedCommand(leds: bv8): Command {
    Sending(CMD_LED, [leds])
  }

  function ReportTypeCommand(kind: bv8): Command {
    Sending(CMD_REPORT_TYPE, [0, kind])
  }

  const STATUS_REQUEST := Sending(CMD_CTRL_STATUS, [0])

  /** Big-endian address, length, and one data byte in a payload of 21 bytes. */
  function WriteByteCommand(address: HidBytes, value: bv8): Command
    requires |address| == 4
  {
    Sending(CMD_WRITE_DATA, address + [1, value] + seq(15, _ => 0))
  }

  function ReadCommand(address: HidBytes, length: bv8): Command
    requires |address| == 4
  {
    Sending(CMD_READ_DATA, address + [0, length])
  }

  /** The two writes that switch the expansion on unencrypted, and the read of its identifier. */
  const IDENTIFY := [
    WriteByteCommand([0x04, 0xA4, 0x00, 0xF0], 0x55), WriteByteCommand([0x04, 0xA4, 0x00, 0xFB], 0x00),
    ReadCommand([0x04, 0xA4, 0x00, 0xFC], 4)]

  const READ_CALIBRATION := [ReadCommand([0x04, 0xA4, 0x00, 0x20], 16)]

  function LedCommands(unid: int32): seq<Command> {
    if 0 <= unid < 4 then [LedCommand(LedBit(unid))] else []
  }

  /** Every command byte by byte, as it goes out. */
  lemma CommandBytes(leds: bv8)
    ensures LedCommand(leds) == Command(0x11, [0x52, 0x11, leds])
    ensures ReportTypeCommand(RPT_BTN) == Command(0x12, [0x52, 0x12, 0x00, 0x30])
    ensures ReportTypeCommand(RPT_BTN_EXP) == Command(0x12, [0x52, 0x12, 0x00, 0x34])
    ensures STATUS_REQUEST == Command(0x15, [0x52, 0x15, 0x00])
  {
  }

  /** Address, length and value of each exchange with the expansion. */
  lemma ExpansionCommandBytes()
    ensures |READ_CALIBRATION| == 1 && |IDENTIFY| == 3
    ensures READ_CALIBRATION[0] == Command(0x17, [0x52, 0x17, 0x04, 0xA4, 0x00, 0x20, 0x00, 0x10])
    ensures IDENTIFY[0].id == 0x16 && IDENTIFY[0].buffer[..8] == [0x52, 0x16, 0x04, 0xA4, 0x00, 0xF0, 0x01, 0x55]
    ensures IDENTIFY[1].id == 0x16 && IDENTIFY[1].buffer[..8] == [0x52, 0x16, 0x04, 0xA4, 0x00, 0xFB, 0x01, 0x00]
    ensures forall k, i | 0 <= k < 2 && 8 <= i < 23 :: |IDENTIFY[k].buffer| == 23 && IDENTIFY[k].buffer[i] == 0
    ensures IDENTIFY[2] == Command(0x17, [0x52, 0x17, 0x04, 0xA4, 0x00, 0xFC, 0x00, 0x04])
  {
  }

  // ----- the device structure -----

  datatype Flag = HANDSHAKE | HANDSHAKE_COMPLETE | CONNECTED | EXP

  datatype Expansion = EXP_NONE | EXP_CLASSIC

  /** wiimote_t without the expansion data; sent is everything handed to the HID manager so far. */
  datatype Device = Device(
    unid: int32, state: set<Flag>, leds: bv8, handshakeState: nat, expansion: Expansion, sent: seq<Command>)

  /** What one call of wiimote_handshake is given: the report type and the bytes its data pointer leads to. */
  datatype Event = Event(kind: bv8, data: HidBytes) {
    predicate Attached()
      requires |data| >= 4
    {
      data[2] & 0x02 == 0x02
    }

    predicate ClassicId()
      requires |data| >= 4
    {
      data[..4] == [0xA4, 0x20, 0x01, 0x01]
    }
  }

  type HandshakeEvent = e: Event | |e.data| >= 4 witness Event(0, [0, 0, 0, 0])

  // ----- reference: the handshake as a table of phases -----

  datatype Phase = Fresh | Plain | Identifying | Calibrating | ClassicReady | Unsupported

  /** The events that matter to the handshake. */
  datatype Signal = Status(attached: bool) | Memory(classic: bool) | Other

  function SignalOf(e: HandshakeEvent): Signal {
    if e.kind == RPT_CTRL_STATUS then Status(e.Attached())
    else if e.kind == RPT_READ then Memory(e.ClassicId())
    else Other
  }

  function NextPhase(p: Phase, s: Signal): Phase {
    match (p, s)
    case (Fresh, Status(attached)) => if attached then Identifying else Plain
    case (Plain, Status(attached)) => if attached then Identifying else Plain
    case (Identifying, Memory(classic)) => if classic then Calibrating else Unsupported
    case (Calibrating, Memory(_)) => ClassicReady
    case (ClassicReady, Status(attached)) => if attached then ClassicReady else Plain
    case (Unsupported, Status(attached)) => if attached then Unsupported else Plain
    case _ => p
  }

  predicate Complete(p: Phase) {
    p.Plain? || p.ClassicReady? || p.Unsupported?
  }

  /** A handshake ends when a complete phase is entered; coming back from an expansion counts as ending one. */
  predicate Ends(p: Phase, s: Signal) {
    Complete(NextPhase(p, s)) && NextPhase(p, s) != p
  }

  /** What the remote is asked to report in a complete phase. */
  function ReportKind(p: Phase): bv8 {
    if p.ClassicReady? then RPT_BTN_EXP else RPT_BTN
  }

  function Emitted(p: Phase, s: Signal, unid: int32): seq<Command> {
    var next := NextPhase(p, s);
    if next == p then []
    else if next.Identifying? then IDENTIFY
    else if next.Calibrating? then READ_CALIBRATION
    else [ReportTypeCommand(ReportKind(next))] + LedCommands(unid)
  }

  /** The fields of the device in each phase; between calls the state is 1, 4 or 5. */
  predicate InPhase(d: Device, p: Phase) {
    match p
    case Fresh => d.state == {CONNECTED, HANDSHAKE} && d.handshakeState == 1 && d.expansion == EXP_NONE
    case Plain => d.state == {CONNECTED, HANDSHAKE_COMPLETE} && d.handshakeState == 1 && d.expansion == EXP_NONE
    case Identifying => d.state == {CONNECTED, HANDSHAKE, EXP} && d.handshakeState == 4 && d.expansion == EXP_NONE
    case Calibrating => d.state == {CONNECTED, HANDSHAKE, EXP} && d.handshakeState == 5 && d.expansion == EXP_NONE
    case ClassicReady =>
      d.state == {CONNECTED, HANDSHAKE_COMPLETE, EXP} && d.handshakeState == 1 && d.expansion == EXP_CLASSIC
    case Unsupported =>
      d.state == {CONNECTED, HANDSHAKE_COMPLETE, EXP} && d.handshakeState == 1 && d.expansion == EXP_NONE
  }

  // ----- the handshake loop -----

  /** States 1, 4 and 5 may be followed by 2 or 3, and these by 6; 0 and 6 return. */
  function Rank(handshakeState: nat): nat {
    if handshakeState == 1 || handshakeState == 4 || handshakeState == 5 then 2
    else if handshakeState == 2 || handshakeState == 3 then 1
    else 0
  }

  function Send(d: Device, cs: seq<Command>): Device {
    if CONNECTED in d.state then d.(sent := d.sent + cs) else d
  }

  function WithLeds(d: Device, leds: bv8): Device {
    if CONNECTED in d.state then Send(d.(leds := leds & 0xF0), [LedCommand(leds & 0xF0)]) else d
  }

  /** Leaving a completed handshake to start another. */
  function Rehandshake(d: Device): Device {
    if HANDSHAKE_COMPLETE in d.state then d.(state := d.state - {HANDSHAKE_COMPLETE} + {HANDSHAKE}) else d
  }

  /** One turn of the loop either returns from the function or goes round again. */
  datatype Turn = Returns(device: Device, result: int) | Continues(device: Device)

  /** A status report: identify an expansion that is new, let go of one that is gone. */
  function StatusTurn(d: Device, attached: bool): (t: Turn)
    ensures t.device.unid == d.unid && (CONNECTED in t.device.state <==> CONNECTED in d.state)
    ensures if t.Continues? then t.device.handshakeState == 2
            else t.result == 0 && t.device.handshakeState in {d.handshakeState, 4}
  {
    if attached && EXP !in d.state then
      Returns(Send(Rehandshake(d.(state := d.state + {EXP})), IDENTIFY).(handshakeState := 4), 0)
    else
      var r := if !attached && EXP in d.state
               then Rehandshake(d.(state := d.state - {EXP}, expansion := EXP_NONE)) else d;
      if !attached && HANDSHAKE in r.state then Continues(r.(handshakeState := 2)) else Returns(r, 0)
  }

  /** State 6: the flags of a complete handshake, and the player's LED. */
  function Finished(d: Device): (f: Device)
    ensures f.unid == d.unid && (CONNECTED in f.state <==> CONNECTED in d.state)
    ensures Completed(d, f)
  {
    var done := d.(state := d.state - {HANDSHAKE} + {HANDSHAKE_COMPLETE}, handshakeState := 1);
    if 0 <= d.unid < 4 then WithLeds(done, LedBit(d.unid)) else done
  }

  /** A complete handshake that d has come to, with the player's LED lit if it has one. */
  predicate Completed(d: Device, after: Device) {
    && HANDSHAKE_COMPLETE in after.state && HANDSHAKE !in after.state && after.handshakeState == 1
    && (CONNECTED in d.state && 0 <= d.unid < 4 ==> after.leds == LedBit(d.unid))
  }

  function Turned(d: Device, e: HandshakeEvent): (t: Turn)
    ensures t.Continues? && d.handshakeState <= 6 ==>
              t.device.handshakeState <= 6 && Rank(t.device.handshakeState) < Rank(d.handshakeState)
    ensures t.Returns? ==> d.handshakeState <= 6 && t.device.handshakeState in {1, 4, 5}
  {
    match d.handshakeState
    case 0 =>
      var asked := Send(WithLeds(d.(state := d.state + {HANDSHAKE}), 0), [STATUS_REQUEST]);
      Returns(asked.(handshakeState := 1), 0)
    case 1 => if e.kind != RPT_CTRL_STATUS then Returns(d, 0) else StatusTurn(d, e.Attached())
    case 2 => Continues(Send(d, [ReportTypeCommand(RPT_BTN)]).(handshakeState := 6))
    case 3 => Continues(Send(d, [ReportTypeCommand(RPT_BTN_EXP)]).(handshakeState := 6))
    case 4 =>
      if e.kind != RPT_READ then Returns(d, 0)
      else if !e.ClassicId() then Continues(d.(handshakeState := 2))
      else Returns(Send(d, READ_CALIBRATION).(handshakeState := 5), 0)
    case 5 =>
      if e.kind != RPT_READ then Returns(d, 0) else Continues(d.(expansion := EXP_CLASSIC, handshakeState := 3))
    case 6 => Returns(Finished(d), 1)
    case _ => Continues(d)
  }

  /** What a call leaves: the device, its result, and the iterations it took. */
  datatype Finish = Finish(device: Device, result: int, iterations: nat)

  function Handshake(d: Device, e: HandshakeEvent): (f: Finish)
    requires d.handshakeState <= 6
    ensures 1 <= f.iterations <= Rank(d.handshakeState) + 1
    ensures f.device.handshakeState in {1, 4, 5}
    decreases Rank(d.handshakeState)
  {
    match Turned(d, e)
    case Returns(device, result) => Finish(device, result, 1)
    case Continues(device) =>
      var f := Handshake(device, e);
      f.(iterations := f.iterations + 1)
  }

  /** The loop after n turns, whatever state it starts in. */
  function AfterTurns(d: Device, e: HandshakeEvent, n: nat): Turn {
    if n == 0 then Continues(d)
    else
      match AfterTurns(d, e, n - 1)
      case Continues(device) => Turned(device, e)
      case Returns(device, result) => Returns(device, result)
  }

  lemma {:induction false} TurnsReach(d: Device, e: HandshakeEvent, n: nat)
    ensures AfterTurns(d, e, n + 1) ==
            match Turned(d, e) { case Continues(next) => AfterTurns(next, e, n) case r => r }
  {
    if n > 0 {
      TurnsReach(d, e, n - 1);
    }
  }

  lemma {:induction false} HandshakeReturns(d: Device, e: HandshakeEvent)
    requires d.handshakeState <= 6
    ensures var f := Handshake(d, e); AfterTurns(d, e, f.iterations) == Returns(f.device, f.result)
    decreases Rank(d.handshakeState)
  {
    var t := Turned(d, e);
    if t.Continues? {
      HandshakeReturns(t.device, e);
      TurnsReach(d, e, Handshake(t.device, e).iterations);
    } else {
      TurnsReach(d, e, 0);
    }
  }

  lemma {:induction false} Spins(d: Device, e: HandshakeEvent, n: nat)
    requires d.handshakeState > 6
    ensures AfterTurns(d, e, n) == Continues(d)
  {
    if n > 0 {
      Spins(d, e, n - 1);
    }
  }

  /** The call returns exactly from states 0 to 6, in at most three turns; from any other it spins for ever. */
  lemma HandshakeTerminates(d: Device, e: HandshakeEvent)
    ensures (exists n: nat :: AfterTurns(d, e, n).Returns?) <==> d.handshakeState <= 6
    ensures d.handshakeState <= 6 ==> exists n: nat :: n <= 3 && AfterTurns(d, e, n).Returns?
  {
    if d.handshakeState <= 6 {
      HandshakeReturns(d, e);
    } else {
      forall n: nat ensures AfterTurns(d, e, n).Continues? {
        Spins(d, e, n);
      }
    }
  }

  /** After n turns the loop goes round with state 6, which sets the flags and returns. */
  predicate AtSix(d: Device, e: HandshakeEvent, n: nat) {
    var t := AfterTurns(d, e, n);
    t.Continues? && t.device.handshakeState == 6
  }

  lemma SixLater(d: Device, e: HandshakeEvent, next: Device, n: nat)
    requires Turned(d, e) == Continues(next)
    ensures AtSix(d, e, n + 1) <==> AtSix(next, e, n)
  {
    TurnsReach(d, e, n);
  }

  lemma SixAhead(d: Device, e: HandshakeEvent, next: Device)
    requires Turned(d, e) == Continues(next) && d.handshakeState != 6
    ensures (exists n: nat :: AtSix(d, e, n)) <==> (exists n: nat :: AtSix(next, e, n))
  {
    if n: nat :| AtSix(d, e, n) {
      assert n != 0;
      SixLater(d, e, next, n - 1);
    }
    if n: nat :| AtSix(next, e, n) {
      SixLater(d, e, next, n);
    }
  }

  lemma SixOrReturned(d: Device, e: HandshakeEvent)
    requires Turned(d, e).Returns?
    ensures (exists n: nat :: AtSix(d, e, n)) <==> d.handshakeState == 6
  {
    if n: nat :| AtSix(d, e, n) && n != 0 {
      TurnsReach(d, e, n - 1);
      assert false;
    }
    if d.handshakeState == 6 {
      assert AtSix(d, e, 0);
    }
  }

  lemma TurnEnds(d: Device, e: HandshakeEvent)
    requires d.handshakeState <= 6
    ensures var t := Turned(d, e);
            && t.device.unid == d.unid && (CONNECTED in t.device.state <==> CONNECTED in d.state)
            && (t.Returns? ==> t.result == (if d.handshakeState == 6 then 1 else 0))
            && (t.Returns? && d.handshakeState == 6 ==> Completed(d, t.device))
            && (t.Continues? ==> d.handshakeState != 6)
  {
  }

  /**
   * From every device in states 0 to 6, whatever its flags: a call returns 1 exactly when its loop comes to state
   * 6, and 0 otherwise; a call that returns 1 leaves the handshake complete, with the player's LED if it has one.
   */
  lemma {:induction false} ReturnsOneThroughSix(d: Device, e: HandshakeEvent)
    requires d.handshakeState <= 6
    ensures Handshake(d, e).result == if exists n: nat :: AtSix(d, e, n) then 1 else 0
    ensures Handshake(d, e).result == 1 ==> Completed(d, Handshake(d, e).device)
    decreases Rank(d.handshakeState)
  {
    TurnEnds(d, e);
    match Turned(d, e)
    case Continues(next) =>
      SixAhead(d, e, next);
      ReturnsOneThroughSix(next, e);
    case Returns(_, _) =>
      SixOrReturned(d, e);
  }

  /** The tail of every completed handshake: states 2 or 3, then 6. */
  lemma Completion(d: Device, e: HandshakeEvent)
    requires (d.handshakeState == 2 || d.handshakeState == 3) && CONNECTED in d.state
    ensures var f := Handshake(d, e);
            && f.result == 1 && f.iterations == 2
            && f.device == d.(
                 state := d.state - {HANDSHAKE} + {HANDSHAKE_COMPLETE}, handshakeState := 1,
                 leds := if 0 <= d.unid < 4 then LedBit(d.unid) else d.leds,
                 sent := d.sent + [ReportTypeCommand(if d.handshakeState == 2 then RPT_BTN else RPT_BTN_EXP)]
                         + LedCommands(d.unid))
  {
  }

  /**
   * One call does what the table says: it ends in the next phase, sends exactly the commands of the transition,
   * stores the LEDs it sent, returns 1 exactly when a handshake ends, and needs at most three iterations.
   */
  predicate FollowsTable(d: Device, p: Phase, e: HandshakeEvent)
    requires d.handshakeState <= 6
  {
    var f, s := Handshake(d, e), SignalOf(e);
    && InPhase(f.device, NextPhase(p, s))
    && f.device.sent == d.sent + Emitted(p, s, d.unid)
    && f.device.unid == d.unid
    && f.device.leds == (if Ends(p, s) && 0 <= d.unid < 4 then LedBit(d.unid) else d.leds)
    && f.result == (if Ends(p, s) then 1 else 0)
    && f.iterations <= 3
  }

  lemma SendsNothing(d: Device)
    ensures d.sent + [] == d.sent
  {
  }

  lemma FreshTurn(d: Device, e: HandshakeEvent)
    requires InPhase(d, Fresh)
    ensures Turned(d, e) ==
            match SignalOf(e) {
              case Status(attached) =>
                if attached
                then Returns(d.(state := d.state + {EXP}, sent := d.sent + IDENTIFY, handshakeState := 4), 0)
                else Continues(d.(handshakeState := 2))
              case _ => Returns(d, 0)
            }
  {
  }

  lemma FromFresh(d: Device, e: HandshakeEvent)
    requires InPhase(d, Fresh)
    ensures FollowsTable(d, Fresh, e)
  {
    SendsNothing(d);
    FreshTurn(d, e);
    if SignalOf(e) == Status(false) {
      Completion(Turned(d, e).device, e);
    }
  }

  lemma FromPlain(d: Device, e: HandshakeEvent)
    requires InPhase(d, Plain)
    ensures FollowsTable(d, Plain, e)
  {
    SendsNothing(d);
  }

  lemma FromIdentifying(d: Device, e: HandshakeEvent)
    requires InPhase(d, Identifying)
    ensures FollowsTable(d, Identifying, e)
  {
    SendsNothing(d);
    if SignalOf(e) == Memory(false) {
      Completion(Turned(d, e).device, e);
    }
  }

  lemma FromCalibrating(d: Device, e: HandshakeEvent)
    requires InPhase(d, Calibrating)
    ensures FollowsTable(d, Calibrating, e)
  {
    SendsNothing(d);
    if SignalOf(e).Memory? {
      Completion(Turned(d, e).device, e);
    }
  }

  lemma FromExpansion(d: Device, p: Phase, e: HandshakeEvent)
    requires InPhase(d, p) && (p == ClassicReady || p == Unsupported)
    ensures FollowsTable(d, p, e)
  {
    SendsNothing(d);
    if SignalOf(e) == Status(false) {
      var unplugged := Turned(d, e).device;
      assert unplugged == d.(state := {CONNECTED, HANDSHAKE}, expansion := EXP_NONE, handshakeState := 2);
      Completion(unplugged, e);
    }
  }

  lemma HandshakeFollowsTable(d: Device, p: Phase, e: HandshakeEvent)
    requires InPhase(d, p)
    ensures FollowsTable(d, p, e)
  {
    match p
    case Fresh => FromFresh(d, e);
    case Plain => FromPlain(d, e);
    case Identifying => FromIdentifying(d, e);
    case Calibrating => FromCalibrating(d, e);
    case _ => FromExpansion(d, p, e);
  }
}
