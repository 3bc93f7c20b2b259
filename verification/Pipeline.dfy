/** From a device to the application and back: the drivers joined to the agents and the byte streams. */
module Pipeline {
  import opened Bytes
  import opened Protocol
  import opened Floats
  import opened HidReports
  import opened StatePackets
  import opened Calibrations
  import opened AxisFloats
  import opened Registry
  import opened RegistrySystem
  import opened Tracking
  import opened Wire
  import Elements
  import Gamepads
  import GI = GamepadInputs
  import W = Wiimotes
  import WR = WiimoteRuns

  // ----- player indices, from the application to the device -----

  /** The arguments of the SetPlayerIndex calls that reached the device attached under a handle, in order. */
  function IndicesTold(calls: seq<Call>, h: uint32): seq<int32> {
    if calls == [] then []
    else
      var last := calls[|calls| - 1];
      IndicesTold(calls[..|calls| - 1], h) + if last.handle == h then [last.index] else []
  }

  function LastIndex(indices: seq<int32>): int32 {
    if indices == [] then -1 else indices[|indices| - 1]
  }

  lemma {:induction false} ToldIsLast(calls: seq<Call>, h: uint32)
    ensures LastTold(calls, h) == LastIndex(IndicesTold(calls, h))
  {
    if calls != [] {
      ToldIsLast(calls[..|calls| - 1], h);
    }
  }

  function RemoteIndices(inputs: seq<WR.Input>): seq<int32> {
    if inputs == [] then []
    else
      var last := inputs[|inputs| - 1];
      RemoteIndices(inputs[..|inputs| - 1]) + if last.IndexSet? then [last.index] else []
  }

  lemma {:induction false} RemoteIndexIsLast(inputs: seq<WR.Input>)
    ensures WR.IndexAfter(inputs) == LastIndex(RemoteIndices(inputs))
  {
    if inputs != [] {
      RemoteIndexIsLast(inputs[..|inputs| - 1]);
    }
  }

  function GamepadIndices(events: seq<Gamepads.Event>): seq<int32> {
    if events == [] then []
    else
      var last := events[|events| - 1];
      GamepadIndices(events[..|events| - 1]) + if last.IndexSet? then [last.index] else []
  }

  lemma {:induction false} GamepadIndexIsLast(events: seq<Gamepads.Event>)
    ensures Gamepads.IndexAfter(events) == LastIndex(GamepadIndices(events))
  {
    if events != [] {
      GamepadIndexIsLast(events[..|events| - 1]);
    }
  }

  /** A byte-level run in which the backend has read everything, and a device that is still attached at its end. */
  ghost predicate Heard(steps: seq<WireStep>, h: uint32) {
    && WirePossible(steps) && WireAttaches(steps) < HANDLES - 1 && WireExecute(steps).Some?
    && WireExecute(steps).value.toBackend.unread == [] && WireExecute(steps).value.agents.backend.Live(h)
  }

  lemma LastIndexIsWanted(steps: seq<WireStep>, h: uint32)
    requires Heard(steps, h)
    ensures LastIndex(IndicesTold(WireExecute(steps).value.agents.calls, h)) == WireIndex(steps, h)
  {
    WireIndices(steps, h);
    ToldIsLast(WireExecute(steps).value.agents.calls, h);
  }

  /**
   * A Wii Remote whose driver has been given the indices its handle was told, among any reports: once all bytes
   * have been read it holds the index last set by the application, and the last LEDs sent to it are that player's.
   */
  lemma RemoteShowsIndex(steps: seq<WireStep>, h: uint32, inputs: seq<WR.Input>)
    requires Heard(steps, h)
    requires RemoteIndices(inputs) == IndicesTold(WireExecute(steps).value.agents.calls, h)
    ensures var wanted, d := WireIndex(steps, h), WR.RemoteAfter(inputs).device;
            && d.unid == wanted
            && (0 <= wanted < 4 ==> WR.LastOf(d.sent, W.CMD_LED) == Some(W.LedCommand(LedBit(wanted))))
  {
    LastIndexIsWanted(steps, h);
    RemoteIndexIsLast(inputs);
    WR.DriverConsistent(inputs);
  }

  /** The same for the other drivers: once a report has arrived, the last light sent is the one of that index. */
  lemma GamepadShowsIndex(steps: seq<WireStep>, h: uint32, driver: Gamepads.Driver,
                          opening: seq<Gamepads.Output>, events: seq<Gamepads.Event>)
    requires Heard(steps, h) && Gamepads.LastLight(driver, opening) == None && !Gamepads.Due(events)
    requires GamepadIndices(events) == IndicesTold(WireExecute(steps).value.agents.calls, h)
    ensures var light := Gamepads.LightFor(driver, WireIndex(steps, h));
            light.Some? ==>
              Gamepads.LastLight(driver, Gamepads.GamepadAfter(driver, opening, events).log) == light
  {
    LastIndexIsWanted(steps, h);
    GamepadIndexIsLast(events);
    Gamepads.LightFollowsIndex(driver, opening, events);
  }

  // ----- input states, from the device to the elements -----

  /** The words that a device sends carry its states, each float rounded. */
  predicate Carried(words: seq<StateWords>, states: seq<StatePacket>) {
    |words| == |states| && forall i | 0 <= i < |words| :: CarriesState(words[i], states[i])
  }

  function RoundedStates(states: seq<StatePacket>): seq<StateWords> {
    seq(|states|, i requires 0 <= i < |states| => RoundedState(states[i]))
  }

  /** Any states can be carried. */
  lemma AlwaysCarried(states: seq<StatePacket>)
    ensures Carried(RoundedStates(states), states)
  {
    forall i | 0 <= i < |states| ensures CarriesState(RoundedStates(states)[i], states[i]) {
      RoundedCarries(states[i]);
    }
  }

  /** A button shows a value near x, and is pressed if x is clearly above the threshold and not if below. */
  predicate NearButton(e: Elements.Element, x: real) {
    && e.ButtonElement? && Near(e.button.value, x)
    && (x > 0.0001 + PRECISION ==> e.button.pressed) && (x <= 0.0001 - PRECISION ==> !e.button.pressed)
  }

  /** A pad shows values near x and y; left and right share the one, up and down the other, each by its sign. */
  predicate NearPad(e: Elements.Element, x: real, y: real) {
    && e.PadElement? && Near(e.pad.x.value, x) && Near(e.pad.y.value, y)
    && Elements.ShowsSides(e.pad.left, e.pad.right, e.pad.x.value)
    && Elements.ShowsSides(e.pad.up, e.pad.down, e.pad.y.value)
  }

  /** The elements of a controller in the order of controllerForHandle, each near the field of its name. */
  predicate ShowsState(es: Elements.Panel, s: StatePacket) {
    && NearPad(es[0], s.dpadX, s.dpadY)
    && NearButton(es[1], s.a) && NearButton(es[2], s.b) && NearButton(es[3], s.x) && NearButton(es[4], s.y)
    && NearButton(es[5], s.leftShoulder) && NearButton(es[6], s.rightShoulder)
    && NearPad(es[7], s.leftStickX, s.leftStickY) && NearPad(es[8], s.rightStickX, s.rightStickY)
    && NearButton(es[9], s.leftTrigger) && NearButton(es[10], s.rightTrigger)
    && NearButton(es[11], s.select) && NearButton(es[12], s.start)
    && NearButton(es[13], s.leftStickButton) && NearButton(es[14], s.rightStickButton)
  }

  lemma ButtonIsNear(es: Elements.Panel, ps: seq<Packet>, word: StateWords, s: StatePacket, i: nat)
    requires Elements.ControllerTracks(es, ps) && ps != [] && ps[|ps| - 1] == FloatValues(word)
    requires CarriesState(word, s) && i < 15 && !Elements.IsPad(i)
    ensures NearButton(es[i], FieldAt(s, Elements.Field(i)))
  {
    Elements.TracksShows(es, ps, i);
    var f := Elements.Field(i);
    assert Near(FloatValue(word[f]), FieldAt(s, f));
    assert FloatValues(word)[f] == FloatValue(word[f]);
  }

  lemma PadIsNear(es: Elements.Panel, ps: seq<Packet>, word: StateWords, s: StatePacket, i: nat)
    requires Elements.ControllerTracks(es, ps) && ps != [] && ps[|ps| - 1] == FloatValues(word)
    requires CarriesState(word, s) && i < 15 && Elements.IsPad(i)
    ensures NearPad(es[i], FieldAt(s, Elements.Field(i)), FieldAt(s, Elements.Field(i) + 1))
  {
    Elements.TracksShows(es, ps, i);
    var f := Elements.Field(i);
    assert Near(FloatValue(word[f]), FieldAt(s, f)) && Near(FloatValue(word[f + 1]), FieldAt(s, f + 1));
    assert FloatValues(word)[f] == FloatValue(word[f]) && FloatValues(word)[f + 1] == FloatValue(word[f + 1]);
  }

  lemma PanelIsNear(es: Elements.Panel, ps: seq<Packet>, word: StateWords, s: StatePacket)
    requires Elements.ControllerTracks(es, ps) && ps != [] && ps[|ps| - 1] == FloatValues(word)
    requires CarriesState(word, s)
    ensures ShowsState(es, s)
  {
    PadIsNear(es, ps, word, s, 0);
    ButtonIsNear(es, ps, word, s, 1);
    ButtonIsNear(es, ps, word, s, 2);
    ButtonIsNear(es, ps, word, s, 3);
    ButtonIsNear(es, ps, word, s, 4);
    ButtonIsNear(es, ps, word, s, 5);
    ButtonIsNear(es, ps, word, s, 6);
    PadIsNear(es, ps, word, s, 7);
    PadIsNear(es, ps, word, s, 8);
    ButtonIsNear(es, ps, word, s, 9);
    ButtonIsNear(es, ps, word, s, 10);
    ButtonIsNear(es, ps, word, s, 11);
    ButtonIsNear(es, ps, word, s, 12);
    ButtonIsNear(es, ps, word, s, 13);
    ButtonIsNear(es, ps, word, s, 14);
  }

  /** The controller with this handle shows a state, field by field. */
  ghost predicate OnScreen(cs: seq<Controller>, h: uint32, s: StatePacket) {
    && Holds(cs, h)
    && forall i | 0 <= i < |cs| && cs[i].handle == h :: ShowsState(cs[i].panel, s)
  }

  /** A byte-level run in which the frontend has read everything, and a device that is still attached at its end. */
  ghost predicate Delivered(steps: seq<WireStep>, h: uint32) {
    && WirePossible(steps) && WireAttaches(steps) < HANDLES && WireExecute(steps).Some?
    && WireExecute(steps).value.toFrontend.unread == [] && WireExecute(steps).value.agents.backend.Live(h)
  }

  lemma TrackedIsShown(cs: seq<Controller>, h: uint32, said: Option<Announcement>, words: seq<StateWords>,
                       s: StatePacket)
    requires ShowsReports(cs, h, said, words) && words != [] && CarriesState(words[|words| - 1], s)
    ensures OnScreen(cs, h, s)
  {
    var ps, word := PacketsOf(words), words[|words| - 1];
    assert ps[|ps| - 1] == FloatValues(word);
    forall i | 0 <= i < |cs| && cs[i].handle == h ensures ShowsState(cs[i].panel, s) {
      PanelIsNear(cs[i].panel, ps, word, s);
    }
  }

  lemma LastIsShown(cs: seq<Controller>, h: uint32, said: Option<Announcement>, words: seq<StateWords>,
                    states: seq<StatePacket>)
    requires ShowsReports(cs, h, said, words) && states != [] && Carried(words, states)
    ensures OnScreen(cs, h, states[|states| - 1])
  {
    TrackedIsShown(cs, h, said, words, states[|states| - 1]);
  }

  /**
   * Whatever its driver: once all bytes have been read, the controller of a device shows the last state the device
   * has sent, each value within the precision of single floats and on the same side of zero.
   */
  lemma StateReachesElements(steps: seq<WireStep>, h: uint32, states: seq<StatePacket>)
    requires Delivered(steps, h)
    requires states != [] && Carried(WireReports(steps, h), states)
    ensures OnScreen(WireExecute(steps).value.agents.frontend.controllers, h, states[|states| - 1])
  {
    WireElements(steps, h);
    LastIsShown(WireExecute(steps).value.agents.frontend.controllers, h, WireAnnounced(steps, h), WireReports(steps, h),
                states);
  }

  lemma RemoteIsShown(cs: seq<Controller>, h: uint32, said: Option<Announcement>, words: seq<StateWords>,
                      inputs: seq<WR.Input>)
    requires ShowsReports(cs, h, said, words) && Carried(words, WR.RemoteAfter(inputs).states)
    requires inputs != [] && inputs[|inputs| - 1].Received?
    ensures OnScreen(cs, h, WR.StateShown(inputs))
  {
    WR.DriverConsistent(inputs);
    LastIsShown(cs, h, said, words, WR.StatesAfter(inputs));
  }

  /**
   * A Wii Remote from end to end: once all bytes have been read, its controller shows the state that the history
   * of its reports calls for, the Classic Controller's sticks calibrated over all their samples included.
   */
  lemma RemoteReachesElements(steps: seq<WireStep>, h: uint32, inputs: seq<WR.Input>)
    requires Delivered(steps, h)
    requires Carried(WireReports(steps, h), WR.RemoteAfter(inputs).states)
    requires inputs != [] && inputs[|inputs| - 1].Received?
    ensures OnScreen(WireExecute(steps).value.agents.frontend.controllers, h, WR.StateShown(inputs))
  {
    WireElements(steps, h);
    RemoteIsShown(WireExecute(steps).value.agents.frontend.controllers, h, WireAnnounced(steps, h),
                  WireReports(steps, h), inputs);
  }

  lemma GamepadIsShown(cs: seq<Controller>, h: uint32, said: Option<Announcement>, words: seq<StateWords>,
                       driver: Gamepads.Driver, opening: seq<Gamepads.Output>, raws: seq<GI.RawEvent>)
    requires ShowsReports(cs, h, said, words) && Gamepads.OnlyReports(opening)
    requires Carried(words, Gamepads.StatesSent(Gamepads.GamepadAfter(driver, opening, GI.Heard(driver, raws)).log))
    requires Gamepads.AcceptedStates(GI.Said(driver, raws)) != []
    ensures var states := Gamepads.AcceptedStates(GI.Said(driver, raws)); OnScreen(cs, h, states[|states| - 1])
  {
    GI.RawReportsForwarded(driver, opening, raws);
    LastIsShown(cs, h, said, words, Gamepads.AcceptedStates(GI.Said(driver, raws)));
  }

  /**
   * The other drivers from end to end, from the raw reports of their devices: once all bytes have been read, the
   * controller shows what the last report that was not malformed says of the named controls.
   */
  lemma GamepadReachesElements(steps: seq<WireStep>, h: uint32, driver: Gamepads.Driver,
                               opening: seq<Gamepads.Output>, raws: seq<GI.RawEvent>)
    requires Delivered(steps, h) && Gamepads.OnlyReports(opening)
    requires Carried(WireReports(steps, h),
                     Gamepads.StatesSent(Gamepads.GamepadAfter(driver, opening, GI.Heard(driver, raws)).log))
    requires Gamepads.AcceptedStates(GI.Said(driver, raws)) != []
    ensures var states := Gamepads.AcceptedStates(GI.Said(driver, raws));
            OnScreen(WireExecute(steps).value.agents.frontend.controllers, h, states[|states| - 1])
  {
    WireElements(steps, h);
    GamepadIsShown(WireExecute(steps).value.agents.frontend.controllers, h, WireAnnounced(steps, h),
                   WireReports(steps, h), driver, opening, raws);
  }

  // ----- the sticks of the Classic Controller, as they are computed -----

  lemma {:induction false} SamplesSmall(inputs: seq<WR.Input>, k: nat)
    requires k < 4
    ensures forall i | 0 <= i < |WR.SamplesAfter(inputs, k)| :: 0 <= WR.SamplesAfter(inputs, k)[i] < 0x100
  {
    if inputs != [] {
      SamplesSmall(inputs[..|inputs| - 1], k);
    }
  }

  lemma ClassicModerate(inputs: seq<WR.Input>, k: nat)
    requires k < 4 && WR.SamplesAfter(inputs, k) != []
    ensures Moderate(Adapted(WR.SamplesAfter(inputs, k), 2, 3))
  {
    SamplesSmall(inputs, k);
    AdaptedNear(0, WR.SamplesAfter(inputs, k), 2, 3);
  }

  /** What process_axis leaves in one axis. */
  function StickWord(inputs: seq<WR.Input>, k: nat): uint32
    requires k < 4
  {
    var samples := WR.SamplesAfter(inputs, k);
    if samples == [] then Round(0.0)
    else
      ClassicModerate(inputs, k);
      FloatAxis(samples[|samples| - 1], Adapted(samples, 2, 3))
  }

  lemma StickNear(inputs: seq<WR.Input>, k: nat)
    requires k < 4
    ensures Near(FloatValue(StickWord(inputs, k)), WR.StickAfter(inputs, k))
  {
    var samples := WR.SamplesAfter(inputs, k);
    if samples == [] {
      DigitalNear();
    } else {
      ClassicModerate(inputs, k);
      WR.AxisIsAdapted(samples);
      FloatAxisNear(samples[|samples| - 1], Adapted(samples, 2, 3));
    }
  }

  /** The words of a Wii Remote's state as its driver computes them; all but the sticks are -1, 0 or 1. */
  function RemoteWords(inputs: seq<WR.Input>): StateWords {
    var s := WR.StateShown(inputs);
    seq(18, f requires 0 <= f < 18 =>
      if WR.PhaseAfter(inputs) == W.ClassicReady && 8 <= f < 12 then StickWord(inputs, f - 8)
      else NearWord(FieldAt(s, f)))
  }

  lemma StickFields(s: StatePacket, k: nat)
    requires k < 4
    ensures FieldAt(s, 8 + k) == [s.leftStickX, s.leftStickY, s.rightStickX, s.rightStickY][k]
  {
  }

  lemma SticksShown(inputs: seq<WR.Input>, k: nat)
    requires k < 4 && WR.PhaseAfter(inputs) == W.ClassicReady
    ensures FieldAt(WR.StateShown(inputs), 8 + k) == WR.StickAfter(inputs, k)
  {
    StickFields(WR.StateShown(inputs), k);
  }

  /** The words that the driver of a Wii Remote computes in single precision carry its state, after any run. */
  lemma RemoteWordsCarry(inputs: seq<WR.Input>)
    ensures CarriesState(RemoteWords(inputs), WR.StateShown(inputs))
  {
    var words, s := RemoteWords(inputs), WR.StateShown(inputs);
    forall f | 0 <= f < 18 ensures Near(FloatValue(words[f]), FieldAt(s, f)) {
      if WR.PhaseAfter(inputs) == W.ClassicReady && 8 <= f < 12 {
        SticksShown(inputs, f - 8);
        StickNear(inputs, f - 8);
      } else {
        NearWordIsNear(FieldAt(s, f));
      }
    }
  }

  // ----- pauses, from the device to the application -----

  function Occurrences(handles: seq<uint32>, h: uint32): nat {
    if handles == [] then 0
    else Occurrences(handles[..|handles| - 1], h) + if handles[|handles| - 1] == h then 1 else 0
  }

  /**
   * The pause button from end to end, from the raw reports: when the pauses of a device are those its driver sent,
   * then once all bytes have been read its paused handler has been called once for every press they say.
   */
  lemma PressesReachHandler(steps: seq<WireStep>, h: uint32, driver: Gamepads.Driver,
                            opening: seq<Gamepads.Output>, raws: seq<GI.RawEvent>)
    requires Delivered(steps, h) && Gamepads.OnlyReports(opening)
    requires Occurrences(WirePausesBy(steps), h) ==
             Gamepads.CountPauses(Gamepads.GamepadAfter(driver, opening, GI.Heard(driver, raws)).log)
    ensures Occurrences(WireExecute(steps).value.agents.frontend.pauses, h) ==
            |Gamepads.Presses(Gamepads.PauseBits(GI.Said(driver, raws)))|
  {
    WirePauses(steps);
    GI.RawReportsForwarded(driver, opening, raws);
  }
}
