/** Backend and frontend joined by two FIFO channels of messages, over whole runs. */
module RegistrySystem {
  import opened Bytes
  import opened Protocol
  import opened Registry

  datatype Step =
    | Attach(device: Device, vendor: VendorName, present: uint32, analog: uint32)
    | CreateDummy(device: Device)
    | Destroy(device: Device)
    | Report(device: Device, state: StateWords)
    | Pause(device: Device)
    | SetIndex(handle: uint32, index: int32)
    | DeliverToFrontend
    | DeliverToBackend

  /** What a device says of itself when it is attached. */
  datatype Announcement = Announcement(vendor: VendorName, present: uint32, analog: uint32)

  /**
   * The two agents and what has happened to them. owner says which device each handle was given to, announced
   * what that device said of itself and reports what it has reported; presses lists the handles under which a
   * pause was sent; wanted is the index last set on each controller and calls lists the SetPlayerIndex calls
   * devices received; directory is what every live device announced and reported, and shown is the part of it
   * that has reached the frontend.
   */
  datatype Agents = Agents(
    backend: Backend, frontend: Frontend,
    attaches: nat, owner: map<uint32, Device>, calls: seq<Call>,
    directory: Directory, shown: Directory,
    announced: map<uint32, Announcement>, reports: map<uint32, seq<StateWords>>, wanted: map<uint32, int32>,
    presses: seq<uint32>)
  {
    function ReportsOf(h: uint32): seq<StateWords> {
      if h in reports then reports[h] else []
    }

    /** Controllers and devices both start from -1. */
    function Wanted(h: uint32): int32 {
      if h in wanted then wanted[h] else -1
    }

    function Told(h: uint32): int32 {
      LastTold(calls, h)
    }
  }

  function LastTold(calls: seq<Call>, h: uint32): int32 {
    if calls == [] then -1
    else if calls[|calls| - 1].handle == h then calls[|calls| - 1].index
    else LastTold(calls[..|calls| - 1], h)
  }

  datatype Sent = Sent(agents: Agents, toFrontend: seq<Message>, toBackend: seq<Message>)

  datatype State = State(agents: Agents, toFrontend: seq<Message>, toBackend: seq<Message>)

  function Initially(): State {
    State(
      Agents(Backend(1, map[], map[]), Frontend([], {}, []), 0, map[], [], map[], map[], map[], map[], map[], []),
      [], [])
  }

  /** A device reports only once it has been attached; the application sets the index of controllers it has seen. */
  predicate CanAct(a: Agents, step: Step) {
    match step
    case Attach(d, _, _, _) => d !in a.backend.interfaces
    case CreateDummy(d) => d !in a.backend.interfaces
    case Destroy(d) => d in a.backend.interfaces
    case Report(d, _) => d in a.backend.interfaces && a.backend.interfaces[d] != 0
    case Pause(d) => d in a.backend.interfaces && a.backend.interfaces[d] != 0
    case SetIndex(h, _) => h in a.frontend.known
    case _ => false
  }

  /** A step of one agent on its own, with the messages it sends. */
  function Act(a: Agents, step: Step): Sent
    requires CanAct(a, step)
  {
    match step
    case Attach(d, vendor, present, analog) =>
      var h := a.backend.nextHandle;
      var m := Connect(h, vendor, present, analog);
      Sent(a.(backend := a.backend.Attach(d), attaches := a.attaches + 1, owner := a.owner[h := d],
              directory := Applied(a.directory, m),
              announced := a.announced[h := Announcement(vendor, present, analog)]), [m], [])
    case CreateDummy(d) =>
      Sent(a.(backend := a.backend.CreateDummy(d)), [], [])
    case Destroy(d) =>
      var (backend, out) := a.backend.Destroy(d);
      Sent(a.(backend := backend, directory := if out == [] then a.directory else Applied(a.directory, out[0])),
           out, [])
    case Report(d, state) =>
      var h := a.backend.interfaces[d];
      var m := InputState(h, state);
      Sent(a.(directory := Applied(a.directory, m), reports := a.reports[h := a.ReportsOf(h) + [state]]), [m], [])
    case Pause(d) =>
      var h := a.backend.interfaces[d];
      Sent(a.(presses := a.presses + [h]), [PausePressed(h)], [])
    case SetIndex(h, index) =>
      Sent(a.(wanted := a.wanted[h := index]), [], IndexMessages(h, index))
    case _ => Sent(a, [], [])
  }

  /** The frontend handles a message; None when it raises an exception. */
  function FrontendReceives(a: Agents, m: Message): Option<Sent> {
    match a.frontend.Receive(m)
    case None => None
    case Some((f, out)) => Some(Sent(a.(frontend := f, shown := Applied(a.shown, m)), [], out))
  }

  function BackendReceives(a: Agents, m: Message): Sent {
    var (backend, call) := a.backend.Receive(m);
    Sent(a.(backend := backend, calls := if call.Some? then a.calls + [call.value] else a.calls), [], [])
  }

  predicate Enabled(s: State, step: Step) {
    match step
    case DeliverToFrontend => s.toFrontend != []
    case DeliverToBackend => s.toBackend != []
    case _ => CanAct(s.agents, step)
  }

  function Next(s: State, step: Step): Option<State>
    requires Enabled(s, step)
  {
    match step
    case DeliverToFrontend =>
      (match FrontendReceives(s.agents, s.toFrontend[0])
       case None => None
       case Some(r) => Some(State(r.agents, s.toFrontend[1..], s.toBackend + r.toBackend)))
    case DeliverToBackend =>
      var r := BackendReceives(s.agents, s.toBackend[0]);
      Some(State(r.agents, s.toFrontend, s.toBackend[1..]))
    case _ =>
      var r := Act(s.agents, step);
      Some(State(r.agents, s.toFrontend + r.toFrontend, s.toBackend + r.toBackend))
  }

  /** Every step is enabled where it is taken, and nothing has raised before it. */
  predicate Possible(steps: seq<Step>)
    decreases |steps|, 0
  {
    steps == [] ||
    var before := steps[..|steps| - 1];
    Possible(before) && Execute(before).Some? && Enabled(Execute(before).value, steps[|steps| - 1])
  }

  function Execute(steps: seq<Step>): Option<State>
    requires Possible(steps)
    decreases |steps|, 1
  {
    if steps == [] then Some(Initially())
    else Next(Execute(steps[..|steps| - 1]).value, steps[|steps| - 1])
  }

  // ----- the invariant -----

  ghost predicate AgentsAgree(a: Agents) {
    && TablesAgree(a.backend, a.attaches, a.owner)
    && (forall h | h in a.frontend.known :: h in a.owner)
    && (forall h :: h in a.directory <==> a.backend.Live(h))
  }

  /** The frontend's list, once it has taken in the messages under way, is the directory of live devices. */
  ghost predicate ViewAgrees(a: Agents, toFrontend: seq<Message>) {
    && Lists(a.frontend.controllers, a.shown)
    && Healthy(a.shown, toFrontend)
    && Drained(a.shown, toFrontend) == a.directory
    && (forall i | 0 <= i < |toFrontend| :: toFrontend[i].handle in a.owner)
  }

  ghost predicate RequestsKnown(a: Agents, toBackend: seq<Message>) {
    forall i | 0 <= i < |toBackend| :: toBackend[i].SetPlayerIndex? && toBackend[i].handle in a.owner
  }

  ghost predicate Agreement(s: State) {
    AgentsAgree(s.agents) && ViewAgrees(s.agents, s.toFrontend) && RequestsKnown(s.agents, s.toBackend)
  }

  lemma AnnounceKeeps(a: Agents, toFrontend: seq<Message>, m: Message, a': Agents)
    requires ViewAgrees(a, toFrontend) && Fits(a.directory, m)
    requires a' == a.(backend := a'.backend, attaches := a'.attaches, owner := a'.owner, announced := a'.announced,
                      reports := a'.reports, presses := a'.presses, directory := Applied(a.directory, m))
    requires m.handle in a'.owner && forall h | h in a.owner :: h in a'.owner
    ensures ViewAgrees(a', toFrontend + [m])
  {
    DrainAppend(a.shown, toFrontend, m);
  }

  /** The agents after an action agree, and what they announce has an addressee. */
  ghost predicate ActsWell(a: Agents, step: Step)
    requires CanAct(a, step)
  {
    var r := Act(a, step);
    && AgentsAgree(r.agents) && |r.toFrontend| <= 1
    && (r.toFrontend != [] ==> Fits(a.directory, r.toFrontend[0]) && r.toFrontend[0].handle in r.agents.owner)
  }

  /** The next handle is above all that are known. */
  lemma NextIsAbove(a: Agents)
    requires AgentsAgree(a) && a.attaches + 1 < HANDLES
    ensures forall h | h in a.directory :: h < a.backend.nextHandle
  {
  }

  lemma AttachActsWell(a: Agents, step: Step)
    requires AgentsAgree(a) && CanAct(a, step) && step.Attach? && a.attaches + 1 < HANDLES
    ensures ActsWell(a, step)
  {
    NextIsAbove(a);
    AttachTables(a.backend, a.attaches, a.owner, step.device);
    var h := a.backend.nextHandle;
    assert Applied(a.directory, Connect(h, step.vendor, step.present, step.analog)).Keys == a.directory.Keys + {h};
  }

  lemma DestroyActsWell(a: Agents, step: Step)
    requires AgentsAgree(a) && CanAct(a, step) && step.Destroy?
    ensures ActsWell(a, step)
  {
    DestroyTables(a.backend, a.attaches, a.owner, step.device);
  }

  lemma DeviceActsWell(a: Agents, step: Step)
    requires AgentsAgree(a) && CanAct(a, step) && (step.Report? || step.Pause?)
    ensures ActsWell(a, step)
  {
  }

  lemma ActKeepsAgents(a: Agents, step: Step)
    requires AgentsAgree(a) && CanAct(a, step)
    requires step.Attach? ==> a.attaches + 1 < HANDLES
    ensures ActsWell(a, step)
  {
    match step
    case Attach(_, _, _, _) => AttachActsWell(a, step);
    case Destroy(_) => DestroyActsWell(a, step);
    case CreateDummy(d) => DummyTables(a.backend, a.attaches, a.owner, d);
    case Report(_, _) => DeviceActsWell(a, step);
    case Pause(_) => DeviceActsWell(a, step);
    case _ =>
  }

  lemma ActKeeps(s: State, step: Step)
    requires Agreement(s) && CanAct(s.agents, step)
    requires step.Attach? ==> s.agents.attaches + 1 < HANDLES
    ensures Agreement(Next(s, step).value)
  {
    var a, r := s.agents, Act(s.agents, step);
    ActKeepsAgents(a, step);
    if r.toFrontend == [] {
      assert s.toFrontend + r.toFrontend == s.toFrontend;
      assert ViewAgrees(r.agents, s.toFrontend);
    } else {
      AnnounceKeeps(a, s.toFrontend, r.toFrontend[0], r.agents);
      assert r.toFrontend == [r.toFrontend[0]];
    }
  }

  lemma FrontendReceivesKeeps(a: Agents, toFrontend: seq<Message>)
    requires AgentsAgree(a) && ViewAgrees(a, toFrontend) && toFrontend != []
    ensures FrontendReceives(a, toFrontend[0]).Some?
    ensures var r := FrontendReceives(a, toFrontend[0]).value;
            && AgentsAgree(r.agents) && ViewAgrees(r.agents, toFrontend[1..])
            && r.agents.owner == a.owner && RequestsKnown(r.agents, r.toBackend)
  {
    var m := toFrontend[0];
    ReceiveFitting(a.frontend, a.shown, m);
    ReceiveAbout(a.frontend, m);
    var (g, out) := a.frontend.Receive(m).value;
    assert FrontendReceives(a, m) == Some(Sent(a.(frontend := g, shown := Applied(a.shown, m)), [], out));
  }

  lemma DeliverToFrontendKeeps(s: State)
    requires Agreement(s) && s.toFrontend != []
    ensures Next(s, DeliverToFrontend).Some? && Agreement(Next(s, DeliverToFrontend).value)
  {
    FrontendReceivesKeeps(s.agents, s.toFrontend);
  }

  lemma DeliverToBackendKeeps(s: State)
    requires Agreement(s) && s.toBackend != []
    ensures Agreement(Next(s, DeliverToBackend).value)
  {
    var a, m := s.agents, s.toBackend[0];
    LookupTables(a.backend, a.attaches, a.owner, m.handle, m.index);
  }

  function Attaches(steps: seq<Step>): nat {
    if steps == [] then 0
    else Attaches(steps[..|steps| - 1]) + if steps[|steps| - 1].Attach? then 1 else 0
  }

  /**
   * Registry agreement: in every state reachable with fewer than 2^32 attaches nothing has raised, and the
   * frontend's list after the messages under way is, in increasing order of handle, exactly the live devices
   * with what each announced and last reported.
   */
  lemma {:induction false} RegistryAgreement(steps: seq<Step>)
    requires Possible(steps) && Attaches(steps) < HANDLES
    ensures Execute(steps).Some? && Agreement(Execute(steps).value)
    ensures Execute(steps).value.agents.attaches == Attaches(steps)
  {
    if steps != [] {
      var before, step := steps[..|steps| - 1], steps[|steps| - 1];
      RegistryAgreement(before);
      var s := Execute(before).value;
      match step
      case DeliverToFrontend => DeliverToFrontendKeeps(s);
      case DeliverToBackend => DeliverToBackendKeeps(s);
      case _ => ActKeeps(s, step);
    }
  }

  /** With nothing under way the frontend shows exactly the live devices. */
  lemma QuietView(steps: seq<Step>)
    requires Possible(steps) && Attaches(steps) < HANDLES
    requires Execute(steps).Some? && Execute(steps).value.toFrontend == []
    ensures var a := Execute(steps).value.agents;
            && Lists(a.frontend.controllers, a.directory)
            && forall h :: Holds(a.frontend.controllers, h) <==> a.backend.Live(h)
  {
    RegistryAgreement(steps);
  }

  /**
   * Player-index routing: a delivered SetPlayerIndex calls the device its handle was given to if that device is
   * still attached under the handle, and otherwise no device at all.
   */
  lemma PlayerIndexRouting(steps: seq<Step>)
    requires Possible(steps) && Attaches(steps) < HANDLES
    requires Execute(steps).Some? && Execute(steps).value.toBackend != []
    ensures var s := Execute(steps).value;
            var a, m, a' := s.agents, s.toBackend[0], Next(s, DeliverToBackend).value.agents;
            && m.SetPlayerIndex? && m.handle in a.owner
            && a'.backend.interfaces == a.backend.interfaces
            && a'.calls == if a.backend.Attached(a.owner[m.handle], m.handle)
                           then a.calls + [Call(m.handle, a.owner[m.handle], m.index)] else a.calls
  {
    RegistryAgreement(steps);
    var a, m := Execute(steps).value.agents, Execute(steps).value.toBackend[0];
    LookupTables(a.backend, a.attaches, a.owner, m.handle, m.index);
  }

  lemma OwnersStay(s: State, step: Step)
    requires Enabled(s, step) && Next(s, step).Some?
    ensures Next(s, step).value.agents.owner ==
            if step.Attach? then s.agents.owner[s.agents.backend.nextHandle := step.device] else s.agents.owner
  {
  }

  /** Handles are never reused, 0 is never assigned, and only a live entry is ever disconnected. */
  lemma HandlesAreFresh(steps: seq<Step>, step: Step)
    requires Possible(steps) && Execute(steps).Some? && Enabled(Execute(steps).value, step)
    requires Attaches(steps) + 1 < HANDLES
    ensures Next(Execute(steps).value, step).Some?
    ensures var a, a' := Execute(steps).value.agents, Next(Execute(steps).value, step).value.agents;
            && 0 !in a.backend.devices && 0 !in a.owner
            && (step.Attach? ==> a.backend.nextHandle !in a.owner)
            && (forall h | h in a.owner :: h in a'.owner && a'.owner[h] == a.owner[h])
            && (step.Destroy? ==> Act(a, step).toFrontend == Farewell(a.backend, a.backend.interfaces[step.device]))
  {
    RegistryAgreement(steps);
    OneMore(steps, step);
    RegistryAgreement(steps + [step]);
    FreshAt(Execute(steps).value, step);
  }

  lemma FreshAt(s: State, step: Step)
    requires Agreement(s) && s.agents.attaches + 1 < HANDLES && Enabled(s, step) && Next(s, step).Some?
    ensures 0 !in s.agents.backend.devices && 0 !in s.agents.owner
    ensures step.Attach? ==> s.agents.backend.nextHandle !in s.agents.owner
    ensures forall h | h in s.agents.owner ::
              h in Next(s, step).value.agents.owner && Next(s, step).value.agents.owner[h] == s.agents.owner[h]
    ensures step.Destroy? ==>
              Act(s.agents, step).toFrontend == Farewell(s.agents.backend, s.agents.backend.interfaces[step.device])
  {
    OwnersStay(s, step);
    if step.Destroy? {
      DestroyTables(s.agents.backend, s.agents.attaches, s.agents.owner, step.device);
    }
  }

  /** What the frontend should hear when a device with this handle field goes away. */
  function Farewell(b: Backend, h: uint32): seq<Message> {
    if b.Live(h) then [Disconnect(h)] else []
  }

  // ----- the bound on the number of attaches is exact -----

  lemma OneMore(steps: seq<Step>, step: Step)
    requires Possible(steps) && Execute(steps).Some? && Enabled(Execute(steps).value, step)
    ensures Possible(steps + [step]) && Execute(steps + [step]) == Next(Execute(steps).value, step)
    ensures Attaches(steps + [step]) == Attaches(steps) + if step.Attach? then 1 else 0
  {
  }

  /** A run and the state it leads to without raising. */
  predicate Leads(steps: seq<Step>, s: State) {
    Possible(steps) && Execute(steps) == Some(s)
  }

  lemma LeadsOn(steps: seq<Step>, s: State, step: Step)
    requires Leads(steps, s) && Enabled(s, step) && Next(s, step).Some?
    ensures Leads(steps + [step], Next(s, step).value)
    ensures Attaches(steps + [step]) == Attaches(steps) + if step.Attach? then 1 else 0
  {
  }

  /** After k attaches device 0 is absent and the frontend shows nothing and has nothing under way. */
  predicate Idle(s: State, k: nat) {
    && s.agents.backend.nextHandle == HandleOf(k + 1)
    && 0 !in s.agents.backend.interfaces && s.agents.frontend.controllers == [] && s.toFrontend == []
  }

  /** The handle that the k-th attach is given. */
  function HandleOf(k: nat): uint32 {
    k % HANDLES
  }

  /** The k-th attach gave device 0 its handle, and the frontend shows it and nothing else. */
  predicate Plugged(s: State, k: nat) {
    var h := HandleOf(k);
    && s.agents.backend.nextHandle == HandleOf(k + 1)
    && 0 in s.agents.backend.interfaces && s.agents.backend.interfaces[0] == h && h in s.agents.backend.devices
    && h in s.agents.frontend.known
    && |s.agents.frontend.controllers| == 1 && s.agents.frontend.controllers[0].handle == h && s.toFrontend == []
  }

  const PLUG := Attach(0, Zeros(256), 0, 0)

  lemma PlugIn(steps: seq<Step>, s: State, k: nat) returns (more: seq<Step>, t: State)
    requires Leads(steps, s) && Idle(s, k)
    ensures Leads(more, t) && Plugged(t, k + 1) && Attaches(more) == Attaches(steps) + 1
  {
    var attached := Next(s, PLUG).value;
    LeadsOn(steps, s, PLUG);
    Announced(s, k);
    LeadsOn(steps + [PLUG], attached, DeliverToFrontend);
    more, t := steps + [PLUG] + [DeliverToFrontend], Next(attached, DeliverToFrontend).value;
  }

  lemma Announced(s: State, k: nat)
    requires Idle(s, k)
    ensures var t := Next(s, PLUG).value;
            t.toFrontend != [] && Next(t, DeliverToFrontend).Some? && Plugged(Next(t, DeliverToFrontend).value, k + 1)
  {
  }

  /** Unplugging again is survived only when the frontend can find the handle. */
  lemma Unplugged(s: State, k: nat)
    requires Plugged(s, k)
    ensures var t := Next(s, Destroy(0)).value;
            && t.toFrontend != []
            && (HandleOf(k) == 0 ==> Next(t, DeliverToFrontend) == None)
            && (HandleOf(k) != 0 ==>
                  Next(t, DeliverToFrontend).Some? && Idle(Next(t, DeliverToFrontend).value, k))
  {
  }

  lemma Unplug(steps: seq<Step>, s: State, k: nat) returns (more: seq<Step>, t: State)
    requires Leads(steps, s) && Plugged(s, k) && 0 < k < HANDLES
    ensures Leads(more, t) && Idle(t, k) && Attaches(more) == Attaches(steps)
  {
    assert HandleOf(k) == k;
    var gone := Next(s, Destroy(0)).value;
    LeadsOn(steps, s, Destroy(0));
    Unplugged(s, k);
    LeadsOn(steps + [Destroy(0)], gone, DeliverToFrontend);
    more, t := steps + [Destroy(0)] + [DeliverToFrontend], Next(gone, DeliverToFrontend).value;
  }

  lemma FatalUnplug(steps: seq<Step>, s: State, k: nat) returns (more: seq<Step>)
    requires Leads(steps, s) && Plugged(s, k) && HandleOf(k) == 0
    ensures Possible(more) && Execute(more) == None && Attaches(more) == Attaches(steps)
  {
    LeadsOn(steps, s, Destroy(0));
    Unplugged(s, k);
    OneMore(steps + [Destroy(0)], DeliverToFrontend);
    more := steps + [Destroy(0)] + [DeliverToFrontend];
  }

  lemma PlugCycle(steps: seq<Step>, s: State, k: nat) returns (more: seq<Step>, t: State)
    requires Leads(steps, s) && Idle(s, k) && k + 1 < HANDLES
    ensures Leads(more, t) && Idle(t, k + 1) && Attaches(more) == Attaches(steps) + 1
  {
    var plugged, u := PlugIn(steps, s, k);
    more, t := Unplug(plugged, u, k + 1);
  }

  lemma NothingYet()
    ensures Leads([], Initially()) && Idle(Initially(), 0) && Attaches([]) == 0
  {
  }

  lemma {:induction false} PlugCycles(k: nat) returns (steps: seq<Step>, s: State)
    requires k < HANDLES
    ensures Leads(steps, s) && Idle(s, k) && Attaches(steps) == k
  {
    if k == 0 {
      NothingYet();
      steps, s := [], Initially();
    } else {
      var before, t := PlugCycles(k - 1);
      steps, s := PlugCycle(before, t, k - 1);
    }
  }

  ghost predicate SafeUpTo(n: nat) {
    forall steps | Possible(steps) && Attaches(steps) <= n :: Execute(steps).Some?
  }

  /**
   * Exactly when the frontend never raises: as long as fewer than 2^32 controllers are attached. The attach
   * after that is given handle 0, which the frontend refuses to look up, so its Disconnect removes index -1.
   */
  lemma ExactHandleDomain(n: nat)
    ensures SafeUpTo(n) <==> n < HANDLES
  {
    if n < HANDLES {
      forall steps | Possible(steps) && Attaches(steps) <= n ensures Execute(steps).Some? {
        RegistryAgreement(steps);
      }
    } else {
      var steps, s := PlugCycles(HANDLES - 1);
      steps, s := PlugIn(steps, s, HANDLES - 1);
      var fatal := FatalUnplug(steps, s, HANDLES);
      assert Attaches(fatal) <= n;
    }
  }
}
