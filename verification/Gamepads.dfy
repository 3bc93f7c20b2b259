/** What the plain gamepad drivers have in common: pause edges, deferred light reports and stick calibration. */
module Gamepads {
  import opened Bytes
  import opened Calibrations
  import opened HidReports
  import opened StatePackets

  /** What a driver sends: output reports to its device, pause and state packets to the frontend. */
  datatype Output = SetReport(id: bv8, buffer: HidBytes) | PausePressed | InputState(state: StatePacket)

  /** A decoded input report that passed the driver's gate. */
  datatype Decoded = Decoded(pause: bool, state: StatePacket)

  /** The drivers of the DualShock 3, the DualShock 4 and the Wii U Pro controller. */
  datatype Driver = PS3 | PS4 | PRO

  type Colour = c: HidBytes | |c| == 3 witness seq(3, _ => 0)

  const BLACK: Colour := [0, 0, 0]

  // ----- the output reports -----

  /** One light: how long it is lit, its period in two bytes, and its duty cycle. */
  const LIGHT: HidBytes := [0xFF, 0x27, 0x10, 0x00, 0x32]

  const PS3_REPORT: HidBytes :=
    [0x52, 0x01, 0x00, 0xFF, 0x00, 0xFF, 0x00, 0x00, 0x00, 0x00, 0x00, 0x00] + (LIGHT + LIGHT + (LIGHT + LIGHT))
    + [0, 0, 0, 0, 0, 0, 0, 0, 0, 0, 0, 0, 0, 0, 0, 0, 0, 0]

  /** The LED of a player on the DualShock 3; none for other indices. */
  function Ps3Led(index: int32): bv8 {
    if index == 0 then 2 else if index == 1 then 4 else if index == 2 then 8 else if index == 3 then 16 else 0
  }

  function Ps3Report(led: bv8): Output {
    SetReport(0x01, PS3_REPORT[11 := led])
  }

  /** The colour of a player on the DualShock 4. */
  function PlayerColour(index: int): Colour
    requires 0 <= index < 4
  {
    if index == 0 then [0xFF, 0, 0] else if index == 1 then [0, 0xFF, 0] else if index == 2 then [0, 0, 0xFF]
    else [0xFF, 0xFF, 0xFF]
  }

  function Ps4Buffer(colour: Colour): (b: HidBytes)
    ensures |b| == 79 && b[9..12] == colour
  {
    [0x52, 0x11, 0xB0, 0x00, 0x0F, 0, 0, 0, 0] + colour + seq(67, _ => 0)
  }

  const PRO_MODE := SetReport(0x12, [0xA2, 0x12, 0x00, 0x34])

  function ProLedReport(index: int): Output
    requires 0 <= index < 4
  {
    SetReport(0x11, [0xA2, 0x11, LedBit(index)])
  }

  /** The two newer drivers keep the player index in eight bits. */
  function Stored(index: int32): byte {
    index % 0x100
  }

  /** The report buffer of the DualShock 4 is shared by all its objects; colour is what it holds at the time. */
  function NextColour(driver: Driver, index: int32, colour: Colour): Colour {
    if driver == PS4 && Stored(index) < 4 then PlayerColour(Stored(index)) else colour
  }

  /** What SetReport sends. */
  function DueReports(driver: Driver, index: int32, colour: Colour): seq<Output> {
    match driver
    case PS3 => [Ps3Report(Ps3Led(index))]
    case PS4 => [SetReport(0x11, Ps4Buffer(NextColour(driver, index, colour)))]
    case PRO => [PRO_MODE] + if Stored(index) < 4 then [ProLedReport(Stored(index))] else []
  }

  // ----- a driver over a run -----

  datatype Gamepad = Gamepad(pauseHeld: bool, needSetReport: bool, index: int32, colour: Colour, log: seq<Output>) {
    function Indexed(i: int32): Gamepad {
      this.(index := i, needSetReport := true)
    }

    /** The reports that are due, if one was requested. */
    function Reported(driver: Driver): Gamepad {
      if needSetReport then
        this.(needSetReport := false, colour := NextColour(driver, index, colour),
              log := log + DueReports(driver, index, colour))
      else this
    }

    /** What an accepted report makes the driver send to the frontend. */
    function Forwarded(d: Decoded): Gamepad {
      this.(pauseHeld := d.pause,
            log := log + (if !pauseHeld && d.pause then [PausePressed] else []) + [InputState(d.state)])
    }

    /** HandlePacket, given what the report decodes to. */
    function Serve(driver: Driver, input: Option<Decoded>): Gamepad {
      if input.Some? then Reported(driver).Forwarded(input.value) else Reported(driver)
    }
  }

  /** needSetReport is raised by the constructor and by SetPlayerIndex; the button counts as held at first. */
  const NEW_GAMEPAD := Gamepad(true, true, -1, BLACK, [])

  /** Repainted is another DualShock 4 leaving its colour in the shared buffer. */
  datatype Event = Packet(input: Option<Decoded>) | IndexSet(index: int32) | Repainted(colour: Colour)

  predicate OnlyReports(os: seq<Output>) {
    forall i | 0 <= i < |os| :: os[i].SetReport?
  }

  function Happened(p: Gamepad, driver: Driver, e: Event): Gamepad {
    match e
    case Packet(input) => p.Serve(driver, input)
    case IndexSet(index) => p.Indexed(index)
    case Repainted(colour) => p.(colour := colour)
  }

  /** A driver whose constructor has sent the reports opening, after some events. */
  function GamepadAfter(driver: Driver, opening: seq<Output>, events: seq<Event>): Gamepad {
    if events == [] then NEW_GAMEPAD.(log := opening)
    else Happened(GamepadAfter(driver, opening, events[..|events| - 1]), driver, events[|events| - 1])
  }

  // ----- reference: the pause button over the accepted reports -----

  /** The pause bits of the reports that were not rejected. */
  function PauseBits(events: seq<Event>): seq<bool> {
    if events == [] then []
    else
      var last := events[|events| - 1];
      PauseBits(events[..|events| - 1]) + if last.Packet? && last.input.Some? then [last.input.value.pause] else []
  }

  /** The accepted reports at which the button goes from released to pressed; the first can never be one. */
  function Presses(bits: seq<bool>): set<int> {
    set i | 0 <= i < |bits| && IsPress(bits, i)
  }

  predicate IsPress(bits: seq<bool>, i: int)
    requires 0 <= i < |bits|
  {
    i > 0 && bits[i] && !bits[i - 1]
  }

  function CountPauses(log: seq<Output>): nat {
    if log == [] then 0
    else CountPauses(log[..|log| - 1]) + if log[|log| - 1].PausePressed? then 1 else 0
  }

  function CountStates(log: seq<Output>): nat {
    if log == [] then 0
    else CountStates(log[..|log| - 1]) + if log[|log| - 1].InputState? then 1 else 0
  }

  lemma {:induction false} CountsAdd(a: seq<Output>, b: seq<Output>)
    ensures CountPauses(a + b) == CountPauses(a) + CountPauses(b)
    ensures CountStates(a + b) == CountStates(a) + CountStates(b)
  {
    if b == [] {
      assert a + b == a;
    } else {
      assert (a + b)[..|a + b| - 1] == a + b[..|b| - 1];
      CountsAdd(a, b[..|b| - 1]);
    }
  }

  lemma {:induction false} ReportsCountNothing(os: seq<Output>)
    requires OnlyReports(os)
    ensures CountPauses(os) == 0 && CountStates(os) == 0
  {
    if os != [] {
      ReportsCountNothing(os[..|os| - 1]);
    }
  }

  lemma OneMoreBit(bits: seq<bool>, bit: bool)
    ensures |Presses(bits + [bit])| == |Presses(bits)| + if bits != [] && bit && !bits[|bits| - 1] then 1 else 0
  {
    var added: set<int> := if bits != [] && bit && !bits[|bits| - 1] then {|bits|} else {};
    PressesGrow(bits, bit, added);
    assert |bits| !in Presses(bits);
  }

  lemma PressesGrow(bits: seq<bool>, bit: bool, added: set<int>)
    requires added == if bits != [] && bit && !bits[|bits| - 1] then {|bits|} else {}
    ensures Presses(bits + [bit]) == Presses(bits) + added
  {
  }

  lemma ReportedCounts(p: Gamepad, driver: Driver)
    ensures CountPauses(p.Reported(driver).log) == CountPauses(p.log)
    ensures CountStates(p.Reported(driver).log) == CountStates(p.log)
  {
    var due := DueReports(driver, p.index, p.colour);
    ReportsCountNothing(due);
    CountsAdd(p.log, due);
  }

  lemma CountOne(o: Output)
    ensures CountPauses([o]) == (if o.PausePressed? then 1 else 0)
    ensures CountStates([o]) == (if o.InputState? then 1 else 0)
  {
  }

  lemma ForwardedCounts(p: Gamepad, d: Decoded)
    ensures CountPauses(p.Forwarded(d).log) == CountPauses(p.log) + if d.pause && !p.pauseHeld then 1 else 0
    ensures CountStates(p.Forwarded(d).log) == CountStates(p.log) + 1
  {
    var pause := if !p.pauseHeld && d.pause then [PausePressed] else [];
    CountsAdd(p.log, pause);
    CountsAdd(p.log + pause, [InputState(d.state)]);
    CountOne(InputState(d.state));
    if pause != [] {
      CountOne(PausePressed);
    }
  }

  /** As many pause packets as presses, as many state packets as accepted reports, and the last bit. */
  predicate PausesAgree(p: Gamepad, bits: seq<bool>) {
    && CountPauses(p.log) == |Presses(bits)| && CountStates(p.log) == |bits|
    && (p.pauseHeld <==> bits == [] || bits[|bits| - 1])
  }

  lemma ReportedPauses(p: Gamepad, driver: Driver, bits: seq<bool>)
    requires PausesAgree(p, bits)
    ensures PausesAgree(p.Reported(driver), bits)
  {
    ReportedCounts(p, driver);
  }

  lemma ForwardedPauses(p: Gamepad, d: Decoded, bits: seq<bool>)
    requires PausesAgree(p, bits)
    ensures PausesAgree(p.Forwarded(d), bits + [d.pause])
  {
    ForwardedCounts(p, d);
    OneMoreBit(bits, d.pause);
  }

  /**
   * Pause edges: over any run the PausePressed packets are as many as the released-to-pressed transitions among
   * the accepted reports, with the button taken as held before the first; every accepted report sends one state
   * packet, and rejected reports and index requests change neither.
   */
  lemma {:induction false} PauseEdges(driver: Driver, opening: seq<Output>, events: seq<Event>)
    requires OnlyReports(opening)
    ensures PausesAgree(GamepadAfter(driver, opening, events), PauseBits(events))
  {
    if events == [] {
      ReportsCountNothing(opening);
    } else {
      var before, last := events[..|events| - 1], events[|events| - 1];
      PauseEdges(driver, opening, before);
      PauseStep(GamepadAfter(driver, opening, before), driver, before, last);
      assert events == before + [last];
    }
  }

  lemma PauseStep(p: Gamepad, driver: Driver, before: seq<Event>, e: Event)
    requires PausesAgree(p, PauseBits(before))
    ensures PausesAgree(Happened(p, driver, e), PauseBits(before + [e]))
  {
    assert (before + [e])[..|before|] == before;
    if e.Packet? {
      ReportedPauses(p, driver, PauseBits(before));
      if e.input.Some? {
        ForwardedPauses(p.Reported(driver), e.input.value, PauseBits(before));
      }
    }
    assert PauseBits(before) + [] == PauseBits(before);
  }

  // ----- reference: the states of the accepted reports -----

  function StatesSent(log: seq<Output>): seq<StatePacket> {
    if log == [] then []
    else
      var last := log[|log| - 1];
      StatesSent(log[..|log| - 1]) + if last.InputState? then [last.state] else []
  }

  function AcceptedStates(events: seq<Event>): seq<StatePacket> {
    if events == [] then []
    else
      var last := events[|events| - 1];
      AcceptedStates(events[..|events| - 1]) + if last.Packet? && last.input.Some? then [last.input.value.state] else []
  }

  lemma {:induction false} StatesAppend(a: seq<Output>, b: seq<Output>)
    ensures StatesSent(a + b) == StatesSent(a) + StatesSent(b)
  {
    if b == [] {
      assert a + b == a;
    } else {
      assert (a + b)[..|a + b| - 1] == a + b[..|b| - 1];
      StatesAppend(a, b[..|b| - 1]);
    }
  }

  lemma {:induction false} ReportsSendNothing(os: seq<Output>)
    requires OnlyReports(os)
    ensures StatesSent(os) == []
  {
    if os != [] {
      ReportsSendNothing(os[..|os| - 1]);
    }
  }

  lemma ReportedStates(p: Gamepad, driver: Driver)
    ensures StatesSent(p.Reported(driver).log) == StatesSent(p.log)
  {
    var due := DueReports(driver, p.index, p.colour);
    ReportsSendNothing(due);
    StatesAppend(p.log, due);
  }

  lemma ForwardedStates(p: Gamepad, d: Decoded)
    ensures StatesSent(p.Forwarded(d).log) == StatesSent(p.log) + [d.state]
  {
    var pause := if !p.pauseHeld && d.pause then [PausePressed] else [];
    StatesAppend(p.log, pause);
    StatesAppend(p.log + pause, [InputState(d.state)]);
    assert [InputState(d.state)][..0] == [] && [PausePressed][..0] == [];
  }

  lemma StatesStep(p: Gamepad, driver: Driver, before: seq<Event>, e: Event)
    requires StatesSent(p.log) == AcceptedStates(before)
    ensures StatesSent(Happened(p, driver, e).log) == AcceptedStates(before + [e])
  {
    assert (before + [e])[..|before|] == before;
    if e.Packet? {
      ReportedStates(p, driver);
      if e.input.Some? {
        ForwardedStates(p.Reported(driver), e.input.value);
      }
    }
  }

  /** The state packets sent are the decoded states of the accepted reports, in order. */
  lemma {:induction false} SentAreAccepted(driver: Driver, opening: seq<Output>, events: seq<Event>)
    requires OnlyReports(opening)
    ensures StatesSent(GamepadAfter(driver, opening, events).log) == AcceptedStates(events)
  {
    if events == [] {
      ReportsSendNothing(opening);
    } else {
      var before, last := events[..|events| - 1], events[|events| - 1];
      SentAreAccepted(driver, opening, before);
      StatesStep(GamepadAfter(driver, opening, before), driver, before, last);
      SplitLast(events);
    }
  }

  // ----- reference: the light a controller has been told to show -----

  /** The light that an output report carries, where the device of a driver looks for it. */
  function LightOf(driver: Driver, o: Output): Option<HidBytes> {
    if !o.SetReport? then None
    else
      match driver
      case PS3 => if o.id == 0x01 && |o.buffer| == 50 then Some([o.buffer[11]]) else None
      case PS4 => if o.id == 0x11 && |o.buffer| == 79 then Some(o.buffer[9..12]) else None
      case PRO => if o.id == 0x11 && |o.buffer| == 3 then Some([o.buffer[2]]) else None
  }

  function LastLight(driver: Driver, log: seq<Output>): Option<HidBytes> {
    if log == [] then None
    else if LightOf(driver, log[|log| - 1]).Some? then LightOf(driver, log[|log| - 1])
    else LastLight(driver, log[..|log| - 1])
  }

  /** The light a player index stands for; None when SetReport leaves the light as it is. */
  function LightFor(driver: Driver, index: int32): Option<HidBytes> {
    match driver
    case PS3 => if 0 <= index < 4 then Some([[0x02, 0x04, 0x08, 0x10][index]]) else Some([0x00])
    case PS4 =>
      if index % 256 < 4 then
        Some([[0xFF, 0x00, 0x00], [0x00, 0xFF, 0x00], [0x00, 0x00, 0xFF], [0xFF, 0xFF, 0xFF]][index % 256])
      else None
    case PRO => if index % 256 < 4 then Some([[0x10, 0x20, 0x40, 0x80][index % 256]]) else None
  }

  /** The reports byte by byte, around the lights. */
  lemma Ps3Bytes(led: bv8)
    ensures var out := Ps3Report(led);
            && out.id == 0x01 && |out.buffer| == 50
            && out.buffer[..12] == [0x52, 0x01, 0x00, 0xFF, 0x00, 0xFF, 0x00, 0x00, 0x00, 0x00, 0x00, led]
            && out.buffer[12..17] == out.buffer[17..22] == out.buffer[22..27] == out.buffer[27..32]
            && out.buffer[12..17] == [0xFF, 0x27, 0x10, 0x00, 0x32]
            && (forall i | 32 <= i < 50 :: out.buffer[i] == 0)
  {
  }

  lemma OtherReportBytes(index: int32, colour: Colour)
    ensures var due := DueReports(PS4, index, colour);
            |due| == 1 && due[0].id == 0x11 && |due[0].buffer| == 79 &&
            forall i | 0 <= i < 79 && !(9 <= i < 12) ::
              due[0].buffer[i] ==
              if i == 0 then 0x52 else if i == 1 then 0x11 else if i == 2 then 0xB0 else if i == 4 then 0x0F else 0
    ensures var due := DueReports(PRO, index, colour);
            && |due| >= 1 && due[0] == SetReport(0x12, [0xA2, 0x12, 0x00, 0x34])
            && (index % 256 < 4 ==> |due| == 2 && due[1].id == 0x11 && due[1].buffer[..2] == [0xA2, 0x11])
  {
  }

  function IndexAfter(events: seq<Event>): int32 {
    if events == [] then -1
    else if events[|events| - 1].IndexSet? then events[|events| - 1].index
    else IndexAfter(events[..|events| - 1])
  }

  /** No report has arrived since the constructor or the last SetPlayerIndex. */
  predicate Due(events: seq<Event>) {
    events == [] ||
    var last := events[|events| - 1];
    last.IndexSet? || (last.Repainted? && Due(events[..|events| - 1]))
  }

  /** The colour in the buffer that the DualShock 4 objects share. */
  function SharedColour(driver: Driver, events: seq<Event>): Colour {
    if events == [] then BLACK
    else
      var before, last := events[..|events| - 1], events[|events| - 1];
      match last
      case Repainted(colour) => colour
      case IndexSet(_) => SharedColour(driver, before)
      case Packet(_) =>
        if Due(before) then NextColour(driver, IndexAfter(before), SharedColour(driver, before))
        else SharedColour(driver, before)
  }

  /**
   * The light after a run: every packet makes the light that of the player index, whether or not a report is
   * due; only an index without a light depends on it, as the DualShock 4 then shows the shared colour.
   */
  function ShownAfter(driver: Driver, events: seq<Event>): Option<HidBytes> {
    if events == [] then None
    else
      var before, last := events[..|events| - 1], events[|events| - 1];
      if !last.Packet? then ShownAfter(driver, before)
      else if LightFor(driver, IndexAfter(before)).Some? then LightFor(driver, IndexAfter(before))
      else if driver == PS4 && Due(before) then Some(SharedColour(driver, before))
      else ShownAfter(driver, before)
  }

  lemma {:induction false} LastLightAppend(driver: Driver, a: seq<Output>, b: seq<Output>)
    ensures LastLight(driver, a + b) ==
            if LastLight(driver, b).Some? then LastLight(driver, b) else LastLight(driver, a)
  {
    if b == [] {
      assert a + b == a;
    } else {
      assert (a + b)[..|a + b| - 1] == a + b[..|b| - 1];
      LastLightAppend(driver, a, b[..|b| - 1]);
    }
  }

  lemma LastLightOne(driver: Driver, o: Output)
    ensures LastLight(driver, [o]) == LightOf(driver, o)
  {
  }

  lemma DueLight(driver: Driver, index: int32, colour: Colour)
    ensures LastLight(driver, DueReports(driver, index, colour)) ==
            if LightFor(driver, index).Some? then LightFor(driver, index)
            else if driver == PS4 then Some(colour) else None
  {
  }

  lemma ForwardedLight(p: Gamepad, driver: Driver, d: Decoded)
    ensures LastLight(driver, p.Forwarded(d).log) == LastLight(driver, p.log)
  {
    var pause := if !p.pauseHeld && d.pause then [PausePressed] else [];
    LastLightAppend(driver, p.log, pause);
    LastLightAppend(driver, p.log + pause, [InputState(d.state)]);
    LastLightOne(driver, InputState(d.state));
    if pause != [] {
      LastLightOne(driver, PausePressed);
    }
  }

  predicate LightAgrees(p: Gamepad, driver: Driver, events: seq<Event>) {
    && p.index == IndexAfter(events) && (p.needSetReport <==> Due(events))
    && p.colour == SharedColour(driver, events) && LastLight(driver, p.log) == ShownAfter(driver, events)
    && (!p.needSetReport && LightFor(driver, p.index).Some? ==> LastLight(driver, p.log) == LightFor(driver, p.index))
  }

  lemma LightStep(p: Gamepad, driver: Driver, before: seq<Event>, e: Event)
    requires LightAgrees(p, driver, before)
    ensures LightAgrees(Happened(p, driver, e), driver, before + [e])
  {
    assert (before + [e])[..|before|] == before;
    if e.Packet? {
      DueLight(driver, p.index, p.colour);
      LastLightAppend(driver, p.log, DueReports(driver, p.index, p.colour));
      if e.input.Some? {
        ForwardedLight(p.Reported(driver), driver, e.input.value);
      }
    }
  }

  /**
   * Lights follow the index: over any run the last light sent to the device is the one the reference says, and
   * once a report has arrived it is the light of the index last set, if that has one.
   */
  lemma {:induction false} LightFollowsIndex(driver: Driver, opening: seq<Output>, events: seq<Event>)
    requires LastLight(driver, opening) == None
    ensures var p := GamepadAfter(driver, opening, events);
            && LastLight(driver, p.log) == ShownAfter(driver, events)
            && (!Due(events) && LightFor(driver, IndexAfter(events)).Some? ==>
                  LastLight(driver, p.log) == LightFor(driver, IndexAfter(events)))
    ensures LightAgrees(GamepadAfter(driver, opening, events), driver, events)
  {
    if events != [] {
      var before, last := events[..|events| - 1], events[|events| - 1];
      LightFollowsIndex(driver, opening, before);
      LightStep(GamepadAfter(driver, opening, before), driver, before, last);
      assert events == before + [last];
    }
  }

  /** A player index, and a report after it. */
  lemma IndexThenPacket(driver: Driver, events: seq<Event>, index: int32) returns (more: seq<Event>)
    ensures !Due(more) && IndexAfter(more) == index
    ensures SharedColour(driver, more) == NextColour(driver, index, SharedColour(driver, events))
    ensures ShownAfter(driver, more) ==
            if LightFor(driver, index).Some? then LightFor(driver, index)
            else if driver == PS4 then Some(SharedColour(driver, events)) else ShownAfter(driver, events)
  {
    var indexed := events + [IndexSet(index)];
    more := indexed + [Packet(None)];
    assert indexed[..|events|] == events && more[..|indexed|] == indexed;
  }

  /** Setting an index without a light at once, and after player 0. */
  lemma StaleLight(driver: Driver, index: int32) returns (a: seq<Event>, b: seq<Event>)
    requires LightFor(driver, index) == None
    ensures !Due(a) && !Due(b) && IndexAfter(a) == IndexAfter(b) == index
    ensures ShownAfter(driver, a) != ShownAfter(driver, b)
  {
    var first := IndexThenPacket(driver, [], 0);
    a := IndexThenPacket(driver, [], index);
    b := IndexThenPacket(driver, first, index);
  }

  /** Whatever went before, the last light is the same once a report has arrived under this index. */
  ghost predicate IndexDecidesLight(driver: Driver, opening: seq<Output>, index: int32) {
    forall a, b | !Due(a) && !Due(b) && IndexAfter(a) == IndexAfter(b) == index ::
      LastLight(driver, GamepadAfter(driver, opening, a).log) == LastLight(driver, GamepadAfter(driver, opening, b).log)
  }

  /**
   * Exactly which indices decide the light: those that stand for one. Any other leaves the Wii U Pro showing the
   * player before, and the DualShock 4 the colour in the shared buffer.
   */
  lemma ExactLightDomain(driver: Driver, opening: seq<Output>, index: int32)
    requires LastLight(driver, opening) == None
    ensures IndexDecidesLight(driver, opening, index) <==> LightFor(driver, index).Some?
  {
    if LightFor(driver, index).Some? {
      forall a, b | !Due(a) && !Due(b) && IndexAfter(a) == IndexAfter(b) == index
        ensures LastLight(driver, GamepadAfter(driver, opening, a).log) ==
                LastLight(driver, GamepadAfter(driver, opening, b).log)
      {
        LightFollowsIndex(driver, opening, a);
        LightFollowsIndex(driver, opening, b);
      }
    } else {
      var a, b := StaleLight(driver, index);
      LightFollowsIndex(driver, opening, a);
      LightFollowsIndex(driver, opening, b);
    }
  }

  // ----- the Wii U Pro's four axes, calibrated together -----

  /** The calibrations after one more report; the first report places them. */
  function Recalibrated(cs: seq<Calibration>, initialized: bool, values: seq<int>): (ds: seq<Calibration>)
    requires |cs| == 4 && |values| == 4
    ensures |ds| == 4
  {
    seq(4, k requires 0 <= k < 4 =>
      (if initialized then cs[k] else Around(values[k], 0x80, 0x100)).Widened(values[k]))
  }

  type AxisValues = s: seq<int> | |s| == 4 witness [0, 0, 0, 0]

  function CalibrationsAfter(samples: seq<AxisValues>): (cs: seq<Calibration>)
    requires samples != []
    ensures |cs| == 4
  {
    var last := samples[|samples| - 1];
    if |samples| == 1 then Recalibrated([FIXED, FIXED, FIXED, FIXED], false, last)
    else Recalibrated(CalibrationsAfter(samples[..|samples| - 1]), true, last)
  }

  function AxisSamples(samples: seq<AxisValues>, k: nat): (vs: seq<int>)
    requires k < 4
    ensures |vs| == |samples|
  {
    seq(|samples|, i requires 0 <= i < |samples| => samples[i][k])
  }

  /** Each axis follows the adaptive calibration of its own samples, so its assertions always hold. */
  lemma {:induction false} ProAxesAdapt(samples: seq<AxisValues>, k: nat)
    requires samples != [] && k < 4
    ensures CalibrationsAfter(samples)[k] == Adapted(AxisSamples(samples, k), 0x80, 0x100)
    ensures CalibrationsAfter(samples)[k].Ordered()
  {
    if |samples| > 1 {
      var before := samples[..|samples| - 1];
      ProAxesAdapt(before, k);
      assert AxisSamples(samples, k)[..|samples| - 1] == AxisSamples(before, k);
    }
  }
}
