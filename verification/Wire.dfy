/** The same system over bytes: the message channels are refined by sockets and frame reassembly. */
module Wire {
  import opened Bytes
  import opened Protocol
  import opened Framing
  import opened Registry
  import opened RegistrySystem
  import opened Tracking

  /** One direction: the receiver's parser and the bytes it has not read yet. */
  datatype Channel = Channel(parser: Parser, unread: seq<byte>) {
    function Written(ms: seq<Message>): Channel {
      Channel(parser, unread + Flatten(EncodeAll(ms)))
    }

    predicate CanRead(n: nat) {
      parser.Valid() && 1 <= n <= |unread| && parser.Accepts(unread[..n])
    }

    /** A read of n bytes, and the packets it completes. */
    function Read(n: nat): (Channel, seq<seq<byte>>)
      requires CanRead(n)
    {
      var (next, out) := parser.Receive(unread[..n]);
      (Channel(next, unread[n..]), out)
    }
  }

  datatype WireState = WireState(agents: Agents, toFrontend: Channel, toBackend: Channel)

  datatype WireStep = Local(step: Step) | FrontendReads(n: nat) | BackendReads(n: nat)

  function WireInitially(): WireState {
    WireState(Initially().agents, Channel(Start(), []), Channel(Start(), []))
  }

  predicate WireEnabled(w: WireState, step: WireStep) {
    match step
    case Local(s) => CanAct(w.agents, s)
    case FrontendReads(n) => w.toFrontend.CanRead(n)
    case BackendReads(n) => w.toBackend.CanRead(n)
  }

  /** What HandlePacket does with a dispatched packet; packets of unknown type are ignored. */
  function FrontendHandles(a: Agents, packet: seq<byte>): Option<Sent>
    requires |packet| == CAPACITY
  {
    match Decode(packet)
    case None => Some(Sent(a, [], []))
    case Some(m) => FrontendReceives(a, m)
  }

  function BackendHandles(a: Agents, packet: seq<byte>): Sent
    requires |packet| == CAPACITY
  {
    match Decode(packet)
    case None => Sent(a, [], [])
    case Some(m) => BackendReceives(a, m)
  }

  function WireNext(w: WireState, step: WireStep): Option<WireState>
    requires WireEnabled(w, step)
  {
    match step
    case Local(s) =>
      var r := Act(w.agents, s);
      Some(WireState(r.agents, w.toFrontend.Written(r.toFrontend), w.toBackend.Written(r.toBackend)))
    case FrontendReads(n) =>
      var (c, out) := w.toFrontend.Read(n);
      if out == [] then Some(w.(toFrontend := c))
      else
        (match FrontendHandles(w.agents, out[0])
         case None => None
         case Some(r) => Some(WireState(r.agents, c, w.toBackend.Written(r.toBackend))))
    case BackendReads(n) =>
      var (c, out) := w.toBackend.Read(n);
      if out == [] then Some(w.(toBackend := c))
      else Some(WireState(BackendHandles(w.agents, out[0]).agents, w.toFrontend, c))
  }

  predicate WirePossible(steps: seq<WireStep>)
    decreases |steps|, 0
  {
    steps == [] ||
    var before := steps[..|steps| - 1];
    WirePossible(before) && WireExecute(before).Some? &&
    WireEnabled(WireExecute(before).value, steps[|steps| - 1])
  }

  function WireExecute(steps: seq<WireStep>): Option<WireState>
    requires WirePossible(steps)
    decreases |steps|, 1
  {
    if steps == [] then Some(WireInitially())
    else WireNext(WireExecute(steps[..|steps| - 1]).value, steps[|steps| - 1])
  }

  function WireAttaches(steps: seq<WireStep>): nat {
    if steps == [] then 0
    else
      var last := steps[|steps| - 1];
      WireAttaches(steps[..|steps| - 1]) + if last.Local? && last.step.Attach? then 1 else 0
  }

  // ----- refinement -----

  predicate Carries(c: Channel, ms: seq<Message>) {
    Represents(c.parser, c.unread, EncodeAll(ms))
  }

  predicate Matches(w: Option<WireState>, s: Option<State>) {
    (w.Some? <==> s.Some?) && (w.Some? ==> Refines(w.value, s.value))
  }

  predicate Refines(w: WireState, s: State) {
    w.agents == s.agents && Carries(w.toFrontend, s.toFrontend) && Carries(w.toBackend, s.toBackend)
  }

  /** The message-level steps a byte-level step amounts to: none while a frame is still incomplete. */
  function Abstracted(w: WireState, step: WireStep): seq<Step>
    requires WireEnabled(w, step)
  {
    match step
    case Local(s) => [s]
    case FrontendReads(n) => if w.toFrontend.Read(n).1 == [] then [] else [DeliverToFrontend]
    case BackendReads(n) => if w.toBackend.Read(n).1 == [] then [] else [DeliverToBackend]
  }

  lemma WriteCarries(c: Channel, ms: seq<Message>, more: seq<Message>)
    requires Carries(c, ms)
    ensures Carries(c.Written(more), ms + more)
  {
    EncodeUnambiguous(more);
    RepresentsMore(c.parser, c.unread, EncodeAll(ms), EncodeAll(more));
    EncodeAllAppend(ms, more);
  }

  /** Either the read leaves the messages under way as they were, or it hands over exactly the first of them. */
  lemma ReadCarries(c: Channel, ms: seq<Message>, n: nat)
    requires Carries(c, ms) && c.CanRead(n)
    ensures var (d, out) := c.Read(n);
            if out == [] then Carries(d, ms)
            else ms != [] && |out| == 1 && |out[0]| == CAPACITY && Decode(out[0]) == Some(ms[0]) && Carries(d, ms[1..])
  {
    ReceiveStep(c.parser, c.unread, EncodeAll(ms), n);
    assert EncodeAll(ms)[1..] == EncodeAll(ms[1..]);
    DecodeEncode(ms[0]);
  }

  lemma LocalRefines(w: WireState, s: State, local: Step)
    requires Refines(w, s) && CanAct(w.agents, local)
    ensures Refines(WireNext(w, Local(local)).value, Next(s, local).value)
  {
    var r := Act(w.agents, local);
    WriteCarries(w.toFrontend, s.toFrontend, r.toFrontend);
    WriteCarries(w.toBackend, s.toBackend, r.toBackend);
  }

  /** A completed packet makes the frontend do what the first message under way makes it do. */
  lemma FrontendReadRefines(w: WireState, s: State, n: nat)
    requires Refines(w, s) && w.toFrontend.CanRead(n) && w.toFrontend.Read(n).1 != []
    ensures s.toFrontend != []
    ensures var w', s' := WireNext(w, FrontendReads(n)), Next(s, DeliverToFrontend);
            (w'.Some? <==> s'.Some?) && (s'.Some? ==> Refines(w'.value, s'.value))
  {
    ReadCarries(w.toFrontend, s.toFrontend, n);
    var r := FrontendReceives(s.agents, s.toFrontend[0]);
    var (c, out) := w.toFrontend.Read(n);
    assert FrontendHandles(w.agents, out[0]) == r;
    if r.Some? {
      var reply := r.value.toBackend;
      WriteCarries(w.toBackend, s.toBackend, reply);
      assert WireNext(w, FrontendReads(n)).value == WireState(r.value.agents, c, w.toBackend.Written(reply));
    }
  }

  lemma BackendReadRefines(w: WireState, s: State, n: nat)
    requires Refines(w, s) && w.toBackend.CanRead(n) && w.toBackend.Read(n).1 != []
    ensures s.toBackend != []
    ensures Refines(WireNext(w, BackendReads(n)).value, Next(s, DeliverToBackend).value)
  {
    ReadCarries(w.toBackend, s.toBackend, n);
    var (c, out) := w.toBackend.Read(n);
    var r := BackendReceives(s.agents, s.toBackend[0]);
    assert BackendHandles(w.agents, out[0]) == r;
    assert WireNext(w, BackendReads(n)).value == WireState(r.agents, w.toFrontend, c);
    assert Next(s, DeliverToBackend).value == State(r.agents, s.toFrontend, s.toBackend[1..]);
  }

  /** Every byte-level step is a message-level step or leaves the message-level state alone. */
  lemma StepRefines(w: WireState, s: State, step: WireStep)
    requires Refines(w, s) && WireEnabled(w, step)
    ensures var t := Abstracted(w, step);
            if t == [] then WireNext(w, step).Some? && Refines(WireNext(w, step).value, s)
            else
              && Enabled(s, t[0])
              && (WireNext(w, step).Some? <==> Next(s, t[0]).Some?)
              && (Next(s, t[0]).Some? ==> Refines(WireNext(w, step).value, Next(s, t[0]).value))
  {
    match step
    case Local(local) =>
      LocalRefines(w, s, local);
    case FrontendReads(n) =>
      if w.toFrontend.Read(n).1 == [] {
        ReadCarries(w.toFrontend, s.toFrontend, n);
      } else {
        FrontendReadRefines(w, s, n);
      }
    case BackendReads(n) =>
      if w.toBackend.Read(n).1 == [] {
        ReadCarries(w.toBackend, s.toBackend, n);
      } else {
        BackendReadRefines(w, s, n);
      }
  }

  lemma StartRefines()
    ensures Refines(WireInitially(), Initially())
  {
  }

  /** The message-level state after no step or one. */
  function After(s: State, t: seq<Step>): Option<State>
    requires t == [] || Enabled(s, t[0])
  {
    if t == [] then Some(s) else Next(s, t[0])
  }

  lemma StepMatches(w: WireState, s: State, step: WireStep)
    requires Refines(w, s) && WireEnabled(w, step)
    ensures var t := Abstracted(w, step);
            (t == [] || Enabled(s, t[0])) && Matches(WireNext(w, step), After(s, t))
  {
    StepRefines(w, s, step);
  }

  lemma RunOn(run: seq<Step>, s: State, t: seq<Step>)
    requires Leads(run, s) && |t| <= 1 && (t == [] || Enabled(s, t[0]))
    ensures Possible(run + t) && Execute(run + t) == After(s, t)
    ensures Attaches(run + t) == Attaches(run) + Attaches(t)
  {
    if t == [] {
      assert run + t == run;
    } else {
      OneMore(run, t[0]);
      OneAttach(t[0]);
      assert run + t == run + [t[0]] && t == [t[0]];
    }
  }

  lemma OneAttach(step: Step)
    ensures Attaches([step]) == if step.Attach? then 1 else 0
  {
  }

  lemma AttachesAlike(w: WireState, step: WireStep)
    requires WireEnabled(w, step)
    ensures |Abstracted(w, step)| <= 1
    ensures Attaches(Abstracted(w, step)) == if step.Local? && step.step.Attach? then 1 else 0
  {
  }

  /** Every byte-level run has a message-level run with the same attaches, outcome and agents. */
  lemma {:induction false} WireRefinesSystem(steps: seq<WireStep>) returns (run: seq<Step>)
    requires WirePossible(steps)
    ensures Possible(run) && Attaches(run) == WireAttaches(steps)
    ensures Matches(WireExecute(steps), Execute(run))
  {
    if steps == [] {
      run := [];
      StartRefines();
    } else {
      var before, step := steps[..|steps| - 1], steps[|steps| - 1];
      run := WireRefinesSystem(before);
      var w, s := WireExecute(before).value, Execute(run).value;
      StepMatches(w, s, step);
      AttachesAlike(w, step);
      RunOn(run, s, Abstracted(w, step));
      run := run + Abstracted(w, step);
    }
  }

  /** A channel with nothing left to read carries nothing, and its parser is at the start of a frame. */
  lemma NothingUnread(c: Channel, ms: seq<Message>)
    requires Carries(c, ms) && c.unread == []
    ensures ms == [] && c.parser == Start()
  {
  }

  /**
   * Registry agreement end to end: over any run of writes and reads of any size with fewer than 2^32 attaches
   * nothing raises, and whenever the frontend has read all its bytes its list is the live devices in order.
   */
  lemma WireAgreement(steps: seq<WireStep>)
    requires WirePossible(steps) && WireAttaches(steps) < HANDLES
    ensures WireExecute(steps).Some? && AgentsAgree(WireExecute(steps).value.agents)
    ensures var w := WireExecute(steps).value;
            w.toFrontend.unread == [] ==>
              && w.toFrontend.parser == Start()
              && Lists(w.agents.frontend.controllers, w.agents.directory)
  {
    var run := WireRefinesSystem(steps);
    RegistryAgreement(run);
    var w, s := WireExecute(steps).value, Execute(run).value;
    if w.toFrontend.unread == [] {
      NothingUnread(w.toFrontend, s.toFrontend);
    }
  }

  // ----- what the devices and the application have done, read off the steps -----

  function WireReports(steps: seq<WireStep>, h: uint32): seq<StateWords>
    requires WirePossible(steps)
  {
    if steps == [] then []
    else
      var before, step := steps[..|steps| - 1], steps[|steps| - 1];
      WireReports(before, h) +
      if step.Local? && step.step.Report? && Under(WireExecute(before).value.agents, step.step.device, h)
      then [step.step.state] else []
  }

  function WirePausesBy(steps: seq<WireStep>): seq<uint32>
    requires WirePossible(steps)
  {
    if steps == [] then []
    else
      var before, step := steps[..|steps| - 1], steps[|steps| - 1];
      WirePausesBy(before) +
      if step.Local? && step.step.Pause?
      then [WireExecute(before).value.agents.backend.interfaces[step.step.device]] else []
  }

  function WireIndex(steps: seq<WireStep>, h: uint32): int32 {
    if steps == [] then -1
    else
      var step := steps[|steps| - 1];
      if step.Local? && step.step.SetIndex? && step.step.handle == h then step.step.index
      else WireIndex(steps[..|steps| - 1], h)
  }

  function WireAnnounced(steps: seq<WireStep>, h: uint32): Option<Announcement>
    requires WirePossible(steps)
  {
    if steps == [] then None
    else
      var before, step := steps[..|steps| - 1], steps[|steps| - 1];
      if step.Local? && step.step.Attach? && WireExecute(before).value.agents.backend.nextHandle == h
      then Some(Announcement(step.step.vendor, step.step.present, step.step.analog)) else WireAnnounced(before, h)
  }

  /** Reading changes none of the logs. */
  lemma ReadingLogs(a: Agents, packet: seq<byte>)
    requires |packet| == CAPACITY
    ensures var r := FrontendHandles(a, packet);
            r.Some? ==> LogsAlike(a, r.value.agents)
    ensures LogsAlike(a, BackendHandles(a, packet).agents)
  {
  }

  predicate LogsAlike(a: Agents, b: Agents) {
    b.reports == a.reports && b.wanted == a.wanted && b.announced == a.announced && b.presses == a.presses
  }

  lemma WireLogStep(w: WireState, step: WireStep)
    requires WireEnabled(w, step) && WireNext(w, step).Some?
    ensures LogsAlike(if step.Local? then Act(w.agents, step.step).agents else w.agents,
                      WireNext(w, step).value.agents)
  {
    match step
    case Local(_) =>
    case FrontendReads(n) =>
      var out := w.toFrontend.Read(n).1;
      if out != [] {
        ReadingLogs(w.agents, out[0]);
      }
    case BackendReads(n) =>
      var out := w.toBackend.Read(n).1;
      if out != [] {
        ReadingLogs(w.agents, out[0]);
      }
  }

  lemma ActLogs(a: Agents, step: Step, h: uint32, reports: seq<StateWords>, index: int32, said: Option<Announcement>)
    requires CanAct(a, step) && LogsAre(a, h, reports, index, said)
    ensures LogsAre(
              Act(a, step).agents, h, reports + if step.Report? && Under(a, step.device, h) then [step.state] else [],
              if step.SetIndex? && step.handle == h then step.index else index,
              if step.Attach? && a.backend.nextHandle == h
              then Some(Announcement(step.vendor, step.present, step.analog)) else said)
    ensures Act(a, step).agents.presses ==
            a.presses + if step.Pause? then [a.backend.interfaces[step.device]] else []
  {
  }

  lemma AlikeLogs(a: Agents, b: Agents, h: uint32, reports: seq<StateWords>, index: int32, said: Option<Announcement>)
    requires LogsAlike(a, b) && LogsAre(a, h, reports, index, said)
    ensures LogsAre(b, h, reports, index, said)
  {
  }

  /** One step further: from the logs before it to the history with it. */
  lemma WireLogsStep(steps: seq<WireStep>, w: WireState, h: uint32)
    requires steps != [] && WirePossible(steps) && WireExecute(steps[..|steps| - 1]) == Some(w)
    requires WireNext(w, steps[|steps| - 1]).Some?
    requires var before := steps[..|steps| - 1];
             && LogsAre(w.agents, h, WireReports(before, h), WireIndex(before, h), WireAnnounced(before, h))
             && w.agents.presses == WirePausesBy(before)
    ensures var b := WireNext(w, steps[|steps| - 1]).value.agents;
            && LogsAre(b, h, WireReports(steps, h), WireIndex(steps, h), WireAnnounced(steps, h))
            && b.presses == WirePausesBy(steps)
  {
    var before, step := steps[..|steps| - 1], steps[|steps| - 1];
    var b := WireNext(w, step).value.agents;
    WireLogStep(w, step);
    if step.Local? {
      ActLogs(w.agents, step.step, h, WireReports(before, h), WireIndex(before, h), WireAnnounced(before, h));
      AlikeLogs(Act(w.agents, step.step).agents, b, h, WireReports(steps, h), WireIndex(steps, h),
                WireAnnounced(steps, h));
    } else {
      AlikeLogs(w.agents, b, h, WireReports(before, h), WireIndex(before, h), WireAnnounced(before, h));
    }
  }

  lemma {:induction false} WireLogs(steps: seq<WireStep>, h: uint32)
    requires WirePossible(steps) && WireExecute(steps).Some?
    ensures LogsAre(WireExecute(steps).value.agents, h, WireReports(steps, h), WireIndex(steps, h),
                    WireAnnounced(steps, h))
    ensures WireExecute(steps).value.agents.presses == WirePausesBy(steps)
  {
    if steps != [] {
      var before := steps[..|steps| - 1];
      WireLogs(before, h);
      WireLogsStep(steps, WireExecute(before).value, h);
    }
  }

  /**
   * Elements end to end: whenever the frontend has read all its bytes, every live device has its controller in
   * the list, as it announced itself, whose elements show the last state words the device reported and have fired
   * for their changes.
   */
  lemma WireElements(steps: seq<WireStep>, h: uint32)
    requires WirePossible(steps) && WireAttaches(steps) < HANDLES && WireExecute(steps).Some?
    requires WireExecute(steps).value.toFrontend.unread == []
    requires WireExecute(steps).value.agents.backend.Live(h)
    ensures ShowsReports(WireExecute(steps).value.agents.frontend.controllers, h, WireAnnounced(steps, h),
                         WireReports(steps, h))
  {
    var run := WireRefinesSystem(steps);
    NothingUnread(WireExecute(steps).value.toFrontend, Execute(run).value.toFrontend);
    ElementAgreement(run, h);
    LogsAreHistory(run, h);
    WireLogs(steps, h);
  }

  /**
   * Player indices end to end: with fewer than 2^32 - 1 attaches, whenever the backend has read all its bytes
   * every live device has last been told the index last set on its controller.
   */
  lemma WireIndices(steps: seq<WireStep>, h: uint32)
    requires WirePossible(steps) && WireAttaches(steps) < HANDLES - 1 && WireExecute(steps).Some?
    requires WireExecute(steps).value.toBackend.unread == []
    requires WireExecute(steps).value.agents.backend.Live(h)
    ensures WireExecute(steps).value.agents.Told(h) == WireIndex(steps, h)
  {
    var run := WireRefinesSystem(steps);
    NothingUnread(WireExecute(steps).value.toBackend, Execute(run).value.toBackend);
    IndexAgreement(run);
    LogsAreHistory(run, h);
    WireLogs(steps, h);
  }

  /**
   * Pauses end to end: whenever the frontend has read all its bytes, the paused handlers have been called once for
   * every pause that a device sent, in the same order.
   */
  lemma WirePauses(steps: seq<WireStep>)
    requires WirePossible(steps) && WireAttaches(steps) < HANDLES && WireExecute(steps).Some?
    requires WireExecute(steps).value.toFrontend.unread == []
    ensures WireExecute(steps).value.agents.frontend.pauses == WirePausesBy(steps)
  {
    var run := WireRefinesSystem(steps);
    NothingUnread(WireExecute(steps).value.toFrontend, Execute(run).value.toFrontend);
    PauseAgreement(run);
    PressesAreHistory(run);
    WireLogs(steps, 0);
  }
}
