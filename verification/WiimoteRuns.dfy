/** The Wii Remote driver over whole runs of input reports and player-index requests. */
module WiimoteRuns {
  import opened Bytes
  import opened Calibrations
  import opened HidReports
  import opened StatePackets
  import opened ClassicReports
  import opened RemoteStates
  import opened Wiimotes

  // ----- the Classic Controller -----

  datatype Axis = Axis(initialized: bool, calibration: Calibration, value: Tilt) {
    predicate Valid() {
      initialized ==> calibration.Ordered()
    }

    /** process_axis: the first sample places the calibration, every sample widens it. */
    function Process(raw: int): (a: Axis)
      requires Valid()
      ensures a.Valid()
    {
      var c := (if initialized then calibration else Around(raw, 2, 3)).Widened(raw);
      Axis(true, c, AxisTilt(raw, c))
    }
  }

  /** classic_ctrl_t; the axes are left x, left y, right x, right y. */
  datatype ClassicPad = ClassicPad(btns: bv16, axes: seq<Axis>) {
    predicate Valid() {
      |axes| == 4 && forall k | 0 <= k < 4 :: axes[k].Valid()
    }
  }

  const ZERO_AXIS := Axis(false, Calibration(0, 0, 0, 0), 0.0)
  const ZERO_PAD := ClassicPad(0, [ZERO_AXIS, ZERO_AXIS, ZERO_AXIS, ZERO_AXIS])

  function ClassicEvent(p: ClassicPad, msg: HidBytes): (q: ClassicPad)
    requires p.Valid() && |msg| >= 6
    ensures q.Valid()
  {
    var raws := ClassicAxes(msg);
    ClassicPad(ClassicButtons(msg), seq(4, k requires 0 <= k < 4 => p.axes[k].Process(raws[k] as int)))
  }

  /** An axis after a run of samples, starting from zeroed memory. */
  function AxisAfter(samples: seq<int>): (a: Axis)
    ensures a.Valid()
  {
    if samples == [] then ZERO_AXIS else AxisAfter(samples[..|samples| - 1]).Process(samples[|samples| - 1])
  }

  /** The in-place axis state is the adaptive calibration of all its samples, applied to the last one. */
  lemma {:induction false} AxisIsAdapted(samples: seq<int>)
    requires samples != []
    ensures var c := Adapted(samples, 2, 3);
            AxisAfter(samples) == Axis(true, c, AxisTilt(samples[|samples| - 1], c))
  {
    var before := samples[..|samples| - 1];
    if before != [] {
      AxisIsAdapted(before);
    }
  }

  // ----- the driver -----

  /** states is the state packets sent to the frontend so far. */
  datatype Remote = Remote(device: Device, btns: bv16, pad: ClassicPad, states: seq<StatePacket>)

  datatype Input = Received(report: Report) | IndexSet(index: int32)

  /** The call of wiimote_handshake that a report leads to, if any. */
  function HandshakeCall(report: Report): Option<HandshakeEvent> {
    if report[1] == RPT_READ then Some(Event(RPT_READ, report[7..]))
    else if report[1] == RPT_CTRL_STATUS then Some(Event(RPT_CTRL_STATUS, report[2..]))
    else None
  }

  /** Entering the Classic handshake clears the expansion's memory. */
  predicate ClearsPad(d: Device, e: HandshakeEvent) {
    d.handshakeState == 5 && e.kind == RPT_READ
  }

  /** What a report does before its state packet is sent. */
  function Updated(r: Remote, report: Report): (s: Remote)
    requires r.device.handshakeState <= 6 && r.pad.Valid()
    ensures s.pad.Valid() && s.states == r.states
  {
    var btns := PressedButtons(report[2..]);
    match HandshakeCall(report)
    case Some(e) =>
      Remote(Handshake(r.device, e).device, btns, if ClearsPad(r.device, e) then ZERO_PAD else r.pad, r.states)
    case None =>
      if report[1] == RPT_BTN then r.(btns := btns)
      else if report[1] == RPT_BTN_EXP then
        r.(btns := btns, pad := if r.device.expansion == EXP_CLASSIC then ClassicEvent(r.pad, report[4..]) else r.pad)
      else r
  }

  /** ProcessButtons: the expansion decides where the state is read from. */
  function Processed(r: Remote): StatePacket
    requires r.pad.Valid()
  {
    if r.device.expansion == EXP_NONE then RemoteState(r.btns)
    else
      var axes := r.pad.axes;
      ClassicState(r.pad.btns, axes[0].value, axes[1].value, axes[2].value, axes[3].value)
  }

  function Reported(r: Remote, report: Report): Remote
    requires r.device.handshakeState <= 6 && r.pad.Valid()
  {
    var s := Updated(r, report);
    s.(states := s.states + [Processed(s)])
  }

  function Indexed(d: Device, index: int32): Device {
    if 0 <= index < 4 then WithLeds(d.(unid := index), LedBit(index)) else d.(unid := index)
  }

  function Handled(r: Remote, i: Input): Remote
    requires r.device.handshakeState <= 6 && r.pad.Valid()
  {
    match i
    case Received(report) => Reported(r, report)
    case IndexSet(index) => r.(device := Indexed(r.device, index))
  }

  /** The constructor: zeroed memory, then the first call of the handshake. */
  function Constructed(): Remote {
    var zeroed := Device(-1, {CONNECTED}, 0, 0, EXP_NONE, []);
    Remote(Handshake(zeroed, Event(0xFF, [0, 0, 0, 0])).device, 0, ZERO_PAD, [])
  }

  // ----- what a run determines, read off its history alone -----

  /** What an input tells the handshake: bit 1 of a status report, the first bytes of a memory report. */
  function SignalFrom(i: Input): Signal {
    if i.IndexSet? then Other
    else if i.report[1] == 0x20 then Status(i.report[4] & 0x02 != 0)
    else if i.report[1] == 0x21 then Memory(i.report[7..11] == [0xA4, 0x20, 0x01, 0x01])
    else Other
  }

  lemma SignalOfCall(report: Report)
    ensures SignalFrom(Received(report)) ==
            match HandshakeCall(report) { case Some(e) => SignalOf(e) case None => Other }
  {
    AttachmentBit(report[4]);
    assert report[2..][2] == report[4] && report[7..][..4] == report[7..11];
  }

  lemma AttachmentBit(b: bv8)
    ensures b & 0x02 == 0x02 <==> b & 0x02 != 0
  {
  }

  function PhaseAfter(inputs: seq<Input>): Phase {
    if inputs == [] then Fresh
    else NextPhase(PhaseAfter(inputs[..|inputs| - 1]), SignalFrom(inputs[|inputs| - 1]))
  }

  function IndexAfter(inputs: seq<Input>): int32 {
    if inputs == [] then -1
    else if inputs[|inputs| - 1].IndexSet? then inputs[|inputs| - 1].index
    else IndexAfter(inputs[..|inputs| - 1])
  }

  predicate Clears(p: Phase, i: Input) {
    p == Calibrating && SignalFrom(i).Memory?
  }

  predicate SamplesAxes(p: Phase, i: Input) {
    p == ClassicReady && i.Received? && i.report[1] == 0x34
  }

  /** The samples of one axis since the Classic Controller was last initialised. */
  function SamplesAfter(inputs: seq<Input>, k: nat): seq<int>
    requires k < 4
  {
    if inputs == [] then []
    else
      var before, last := inputs[..|inputs| - 1], inputs[|inputs| - 1];
      if Clears(PhaseAfter(before), last) then []
      else if SamplesAxes(PhaseAfter(before), last) then
        SamplesAfter(before, k) + [ClassicAxes(last.report[4..])[k] as int]
      else SamplesAfter(before, k)
  }

  /** The button word of the Classic Controller since it was last initialised. */
  function WordAfter(inputs: seq<Input>): bv16 {
    if inputs == [] then 0
    else
      var before, last := inputs[..|inputs| - 1], inputs[|inputs| - 1];
      if Clears(PhaseAfter(before), last) then 0
      else if SamplesAxes(PhaseAfter(before), last) then ClassicButtons(last.report[4..])
      else WordAfter(before)
  }

  /** Reports that begin with the remote's own buttons. */
  predicate CarriesButtons(i: Input) {
    i.Received? && (i.report[1] == 0x20 || i.report[1] == 0x21 || i.report[1] == 0x30 || i.report[1] == 0x34)
  }

  function ButtonsAfter(inputs: seq<Input>): bv16 {
    if inputs == [] then 0
    else if CarriesButtons(inputs[|inputs| - 1]) then PressedButtons(inputs[|inputs| - 1].report[2..])
    else ButtonsAfter(inputs[..|inputs| - 1])
  }

  /** What one stick axis shows after its samples. */
  function StickAfter(inputs: seq<Input>, k: nat): Tilt
    requires k < 4
  {
    AxisAfter(SamplesAfter(inputs, k)).value
  }

  /** The Classic Controller's buttons that are down since it was last initialised. */
  function HeldAfter(inputs: seq<Input>): set<ClassicButton> {
    if inputs == [] then {}
    else
      var before, last := inputs[..|inputs| - 1], inputs[|inputs| - 1];
      if Clears(PhaseAfter(before), last) then {}
      else if SamplesAxes(PhaseAfter(before), last) then ClassicDown(BigEndianShort(last.report[8], last.report[9]))
      else HeldAfter(before)
  }

  /** The remote's own buttons that are down. */
  function DownAfter(inputs: seq<Input>): set<RemoteButton> {
    if inputs == [] then {}
    else
      var last := inputs[|inputs| - 1];
      if CarriesButtons(last) then RemoteDown(BigEndianShort(last.report[2], last.report[3]))
      else DownAfter(inputs[..|inputs| - 1])
  }

  /** The state that the history of a run calls for, by the names of the buttons. */
  function StateShown(inputs: seq<Input>): StatePacket {
    if PhaseAfter(inputs) == ClassicReady then
      ClassicShown(HeldAfter(inputs), StickAfter(inputs, 0), StickAfter(inputs, 1), StickAfter(inputs, 2),
                   StickAfter(inputs, 3))
    else RemoteShown(DownAfter(inputs))
  }

  lemma NothingHeld(lx: Tilt, ly: Tilt, rx: Tilt, ry: Tilt)
    ensures RemoteState(0) == RemoteShown({}) && ClassicState(0, lx, ly, rx, ry) == ClassicShown({}, lx, ly, rx, ry)
  {
  }

  /** The word kept and the buttons by name make the same state. */
  lemma {:induction false} WordNames(inputs: seq<Input>, lx: Tilt, ly: Tilt, rx: Tilt, ry: Tilt)
    ensures ClassicState(WordAfter(inputs), lx, ly, rx, ry) == ClassicShown(HeldAfter(inputs), lx, ly, rx, ry)
  {
    NothingHeld(lx, ly, rx, ry);
    if inputs != [] {
      var before, last := inputs[..|inputs| - 1], inputs[|inputs| - 1];
      if SamplesAxes(PhaseAfter(before), last) {
        ClassicStateByName(BigEndianShort(last.report[8], last.report[9]), lx, ly, rx, ry);
      }
      WordNames(before, lx, ly, rx, ry);
    }
  }

  lemma {:induction false} ButtonsNames(inputs: seq<Input>)
    ensures RemoteState(ButtonsAfter(inputs)) == RemoteShown(DownAfter(inputs))
  {
    NothingHeld(0.0, 0.0, 0.0, 0.0);
    if inputs != [] {
      var last := inputs[|inputs| - 1];
      if CarriesButtons(last) {
        RemoteStateByName(BigEndianShort(last.report[2], last.report[3]));
      }
      ButtonsNames(inputs[..|inputs| - 1]);
    }
  }

  /** One state packet for each report, each from the history up to it. */
  function StatesAfter(inputs: seq<Input>): seq<StatePacket> {
    if inputs == [] then []
    else StatesAfter(inputs[..|inputs| - 1]) + if inputs[|inputs| - 1].Received? then [StateShown(inputs)] else []
  }

  function LastOf(cs: seq<Command>, id: bv8): Option<Command> {
    if cs == [] then None
    else if cs[|cs| - 1].id == id then Some(cs[|cs| - 1])
    else LastOf(cs[..|cs| - 1], id)
  }

  lemma {:induction false} LastOfAppend(a: seq<Command>, b: seq<Command>, id: bv8)
    ensures LastOf(a + b, id) == if LastOf(b, id).Some? then LastOf(b, id) else LastOf(a, id)
  {
    if b == [] {
      assert a + b == a;
    } else {
      assert (a + b)[..|a + b| - 1] == a + b[..|b| - 1];
      LastOfAppend(a, b[..|b| - 1], id);
    }
  }

  /** The device after a run with this phase and player index: what was last sent is what is in force. */
  predicate DeviceConsistent(d: Device, p: Phase, index: int32) {
    && InPhase(d, p) && d.unid == index
    && (Complete(p) ==> LastOf(d.sent, CMD_REPORT_TYPE) == Some(ReportTypeCommand(ReportKind(p))))
    && LastOf(d.sent, CMD_LED) == Some(LedCommand(d.leds))
    && (0 <= d.unid < 4 ==> d.leds == LedBit(d.unid))
  }

  predicate PadConsistent(pad: ClassicPad, inputs: seq<Input>) {
    && pad.Valid() && pad.btns == WordAfter(inputs)
    && forall k | 0 <= k < 4 :: pad.axes[k] == AxisAfter(SamplesAfter(inputs, k))
  }

  /** The driver after a run. */
  function RemoteAfter(inputs: seq<Input>): (r: Remote)
    ensures r.device.handshakeState in {1, 4, 5} && r.pad.Valid()
  {
    if inputs == [] then Constructed()
    else Handled(RemoteAfter(inputs[..|inputs| - 1]), inputs[|inputs| - 1])
  }

  lemma {:induction false} LastOfNone(cs: seq<Command>, id: bv8)
    requires forall i | 0 <= i < |cs| :: cs[i].id != id
    ensures LastOf(cs, id) == None
  {
    if cs != [] {
      LastOfNone(cs[..|cs| - 1], id);
    }
  }

  lemma CompletionLast(report: Command, unid: int32)
    requires report.id == CMD_REPORT_TYPE
    ensures LastOf([report] + LedCommands(unid), CMD_REPORT_TYPE) == Some(report)
    ensures LastOf([report] + LedCommands(unid), CMD_LED) ==
            if 0 <= unid < 4 then Some(LedCommand(LedBit(unid))) else None
  {
  }

  lemma EmittedLast(p: Phase, s: Signal, unid: int32)
    ensures LastOf(Emitted(p, s, unid), CMD_REPORT_TYPE) ==
            if Ends(p, s) then Some(ReportTypeCommand(ReportKind(NextPhase(p, s)))) else None
    ensures LastOf(Emitted(p, s, unid), CMD_LED) ==
            if Ends(p, s) && 0 <= unid < 4 then Some(LedCommand(LedBit(unid))) else None
  {
    if Ends(p, s) {
      CompletionLast(ReportTypeCommand(ReportKind(NextPhase(p, s))), unid);
    } else {
      LastOfNone(Emitted(p, s, unid), CMD_REPORT_TYPE);
      LastOfNone(Emitted(p, s, unid), CMD_LED);
    }
  }

  lemma HandshakeKeeps(d: Device, p: Phase, e: HandshakeEvent)
    requires DeviceConsistent(d, p, d.unid)
    ensures DeviceConsistent(Handshake(d, e).device, NextPhase(p, SignalOf(e)), d.unid)
  {
    var s := SignalOf(e);
    HandshakeFollowsTable(d, p, e);
    EmittedLast(p, s, d.unid);
    LastOfAppend(d.sent, Emitted(p, s, d.unid), CMD_REPORT_TYPE);
    LastOfAppend(d.sent, Emitted(p, s, d.unid), CMD_LED);
  }

  lemma LedSent(sent: seq<Command>, leds: bv8)
    ensures LastOf(sent + [LedCommand(leds)], CMD_LED) == Some(LedCommand(leds))
    ensures LastOf(sent + [LedCommand(leds)], CMD_REPORT_TYPE) == LastOf(sent, CMD_REPORT_TYPE)
  {
    assert (sent + [LedCommand(leds)])[..|sent|] == sent;
  }

  lemma LightSet(d: Device, index: int)
    requires 0 <= index < 4 && CONNECTED in d.state
    ensures WithLeds(d, LedBit(index)) == d.(leds := LedBit(index), sent := d.sent + [LedCommand(LedBit(index))])
  {
    LedBitUpper(index);
  }

  lemma IndexKeeps(d: Device, p: Phase, index: int32)
    requires DeviceConsistent(d, p, d.unid)
    ensures DeviceConsistent(Indexed(d, index), p, index)
  {
    if 0 <= index < 4 {
      LightSet(d.(unid := index), index);
      LedSent(d.sent, LedBit(index));
    }
  }

  lemma ConstructedConsistent()
    ensures var r := Constructed();
            DeviceConsistent(r.device, Fresh, -1) && r.btns == 0 && PadConsistent(r.pad, []) && r.states == []
  {
  }

  lemma PadAfter(r: Remote, p: Phase, i: Input)
    requires InPhase(r.device, p) && r.pad.Valid()
    ensures Handled(r, i).pad ==
            if Clears(p, i) then ZERO_PAD
            else if SamplesAxes(p, i) then ClassicEvent(r.pad, i.report[4..])
            else r.pad
  {
  }

  lemma PadSampled(pad: ClassicPad, before: seq<Input>, last: Input)
    requires PadConsistent(pad, before) && SamplesAxes(PhaseAfter(before), last)
    ensures PadConsistent(ClassicEvent(pad, last.report[4..]), before + [last])
  {
  }

  /** The decoder's samples since it was last cleared are the reports received in the Classic phase. */
  lemma PadKeeps(r: Remote, before: seq<Input>, last: Input)
    requires InPhase(r.device, PhaseAfter(before)) && PadConsistent(r.pad, before)
    ensures PadConsistent(Handled(r, last).pad, before + [last])
  {
    assert (before + [last])[..|before|] == before;
    PadAfter(r, PhaseAfter(before), last);
    if SamplesAxes(PhaseAfter(before), last) {
      PadSampled(r.pad, before, last);
    }
  }

  lemma ButtonsKeep(r: Remote, before: seq<Input>, last: Input)
    requires r.device.handshakeState <= 6 && r.pad.Valid() && r.btns == ButtonsAfter(before)
    ensures Handled(r, last).btns == ButtonsAfter(before + [last])
  {
  }

  /** What a state packet shows is what the history calls for. */
  lemma ShownAsCalledFor(r: Remote, inputs: seq<Input>)
    requires InPhase(r.device, PhaseAfter(inputs)) && PadConsistent(r.pad, inputs) && r.btns == ButtonsAfter(inputs)
    ensures Processed(r) == StateShown(inputs)
  {
    ButtonsNames(inputs);
    WordNames(inputs, StickAfter(inputs, 0), StickAfter(inputs, 1), StickAfter(inputs, 2), StickAfter(inputs, 3));
  }

  lemma StatesKeep(r: Remote, before: seq<Input>, last: Input)
    requires r.device.handshakeState <= 6 && r.pad.Valid() && r.states == StatesAfter(before)
    requires RemoteConsistent(Handled(r, last), before + [last])
    ensures Handled(r, last).states == StatesAfter(before + [last])
  {
    var inputs := before + [last];
    assert inputs[..|before|] == before;
    if last.Received? {
      ShownAsCalledFor(Updated(r, last.report), inputs);
    }
  }

  lemma DeviceKeeps(r: Remote, before: seq<Input>, last: Input)
    requires DeviceConsistent(r.device, PhaseAfter(before), IndexAfter(before)) && r.pad.Valid()
    ensures DeviceConsistent(Handled(r, last).device, PhaseAfter(before + [last]), IndexAfter(before + [last]))
  {
    assert (before + [last])[..|before|] == before;
    match last
    case IndexSet(index) => IndexKeeps(r.device, PhaseAfter(before), index);
    case Received(report) =>
      SignalOfCall(report);
      match HandshakeCall(report)
      case Some(e) => HandshakeKeeps(r.device, PhaseAfter(before), e);
      case None =>
  }

  predicate RemoteConsistent(r: Remote, inputs: seq<Input>) {
    && DeviceConsistent(r.device, PhaseAfter(inputs), IndexAfter(inputs))
    && PadConsistent(r.pad, inputs) && r.btns == ButtonsAfter(inputs)
  }

  /**
   * Over every run of reports and player-index requests, with any number of plug, unplug and unknown-expansion
   * cycles: the device is in the phase its history determines; a complete handshake has last asked for the
   * report type the decoder expects; the LEDs stored, last sent and requested agree; every stick axis holds the
   * calibration of its samples; and each report was answered with the state that the history up to it calls for,
   * the Classic Controller's while that is identified and the remote's own otherwise.
   */
  lemma {:induction false} DriverConsistent(inputs: seq<Input>)
    ensures DeviceConsistent(RemoteAfter(inputs).device, PhaseAfter(inputs), IndexAfter(inputs))
    ensures PadConsistent(RemoteAfter(inputs).pad, inputs) && RemoteAfter(inputs).btns == ButtonsAfter(inputs)
    ensures RemoteAfter(inputs).states == StatesAfter(inputs)
  {
    if inputs == [] {
      ConstructedConsistent();
    } else {
      var before, last := inputs[..|inputs| - 1], inputs[|inputs| - 1];
      DriverConsistent(before);
      DriverStep(RemoteAfter(before), before, last);
      assert inputs == before + [last];
    }
  }

  lemma DriverStep(r: Remote, before: seq<Input>, last: Input)
    requires RemoteConsistent(r, before) && r.states == StatesAfter(before)
    ensures RemoteConsistent(Handled(r, last), before + [last])
    ensures Handled(r, last).states == StatesAfter(before + [last])
  {
    DeviceKeeps(r, before, last);
    PadKeeps(r, before, last);
    ButtonsKeep(r, before, last);
    StatesKeep(r, before, last);
  }

  /** Whenever the Classic axes have been sampled their outputs are the adaptive calibration of those samples. */
  lemma ClassicAxisOutput(inputs: seq<Input>, k: nat)
    requires k < 4 && SamplesAfter(inputs, k) != []
    ensures var samples := SamplesAfter(inputs, k);
            var c := Adapted(samples, 2, 3);
            RemoteAfter(inputs).pad.axes[k] == Axis(true, c, AxisTilt(samples[|samples| - 1], c))
  {
    DriverConsistent(inputs);
    var samples := SamplesAfter(inputs, k);
    AxisIsAdapted(samples);
  }
}
