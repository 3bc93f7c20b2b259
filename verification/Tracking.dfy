/** What the two ends know of each other: element values against reports, and player indices both ways. */
module Tracking {
  import opened Bytes
  import opened Protocol
  import opened Floats
  import opened Registry
  import opened StatePackets
  import opened RegistrySystem
  import Elements

  // ----- element values -----

  function PacketsOf(states: seq<StateWords>): (ps: seq<Packet>)
    ensures |ps| == |states|
  {
    seq(|states|, i requires 0 <= i < |states| => FloatValues(states[i]))
  }

  /** The elements of a controller whose device has reported these states. */
  function PanelAfter(states: seq<StateWords>): Elements.Panel {
    Elements.RunController(PacketsOf(states))
  }

  lemma PanelExtended(states: seq<StateWords>, state: StateWords)
    ensures PanelAfter([]) == Elements.NEW_CONTROLLER
    ensures PanelAfter(states + [state]) == Elements.Updated(PanelAfter(states), FloatValues(state))
  {
    var ps := PacketsOf(states + [state]);
    assert ps[..|ps| - 1] == PacketsOf(states);
  }

  /** The controller that shows what was announced and reported under a handle. */
  function EntryFor(h: uint32, said: Announcement, states: seq<StateWords>): Controller {
    Controller(h, said.vendor, said.present, said.analog, PanelAfter(states))
  }

  /** The entry of every live device is what it has announced and what its own reports make of its panel. */
  ghost predicate EntriesTrack(a: Agents) {
    && (forall h | h in a.directory ::
          h in a.announced && a.directory[h] == EntryFor(h, a.announced[h], a.ReportsOf(h)))
    && (forall h | h in a.reports :: h in a.owner)
  }

  lemma AttachEntries(a: Agents, step: Step)
    requires AgentsAgree(a) && EntriesTrack(a) && CanAct(a, step) && step.Attach? && a.attaches + 1 < HANDLES
    ensures EntriesTrack(Act(a, step).agents)
  {
    PanelExtended([], seq(18, _ => 0));
    AttachTables(a.backend, a.attaches, a.owner, step.device);
    assert a.ReportsOf(a.backend.nextHandle) == [];
  }

  lemma ReportEntries(a: Agents, step: Step)
    requires AgentsAgree(a) && EntriesTrack(a) && CanAct(a, step) && step.Report?
    ensures EntriesTrack(Act(a, step).agents)
  {
    var h := a.backend.interfaces[step.device];
    PanelExtended(a.ReportsOf(h), step.state);
    assert a.backend.Owns(h, step.device);
  }

  lemma ActEntries(a: Agents, step: Step)
    requires AgentsAgree(a) && EntriesTrack(a) && CanAct(a, step)
    requires step.Attach? ==> a.attaches + 1 < HANDLES
    ensures EntriesTrack(Act(a, step).agents)
  {
    if step.Attach? {
      AttachEntries(a, step);
    } else if step.Report? {
      ReportEntries(a, step);
    } else {
      OtherEntries(a, Act(a, step).agents);
    }
  }

  lemma OtherEntries(a: Agents, b: Agents)
    requires EntriesTrack(a) && b.announced == a.announced && b.reports == a.reports && b.owner == a.owner
    requires forall h | h in b.directory :: h in a.directory && b.directory[h] == a.directory[h]
    ensures EntriesTrack(b)
  {
    forall h | h in b.directory
      ensures h in b.announced && b.directory[h] == EntryFor(h, b.announced[h], b.ReportsOf(h))
    {
      assert a.ReportsOf(h) == b.ReportsOf(h);
    }
  }

  // ----- player indices -----

  predicate Concerns(m: Message, h: uint32) {
    m.SetPlayerIndex? && m.handle == h
  }

  /** The index a device will have been told once the messages under way have arrived. */
  function Pending(ms: seq<Message>, h: uint32, told: int32): int32 {
    if ms == [] then told
    else if Concerns(ms[|ms| - 1], h) then ms[|ms| - 1].index
    else Pending(ms[..|ms| - 1], h, told)
  }

  lemma PendingMore(ms: seq<Message>, m: Message, h: uint32, told: int32)
    ensures Pending(ms + [m], h, told) == if Concerns(m, h) then m.index else Pending(ms, h, told)
  {
  }

  lemma {:induction false} PendingFirst(ms: seq<Message>, h: uint32, told: int32)
    requires ms != []
    ensures Pending(ms, h, told) == Pending(ms[1..], h, if Concerns(ms[0], h) then ms[0].index else told)
  {
    if |ms| > 1 {
      PendingFirst(ms[..|ms| - 1], h, told);
      assert ms[..|ms| - 1][1..] == ms[1..][..|ms| - 2];
    }
  }

  lemma {:induction false} PendingNothing(ms: seq<Message>, h: uint32, told: int32)
    requires forall i | 0 <= i < |ms| :: !Concerns(ms[i], h)
    ensures Pending(ms, h, told) == told
  {
    if ms != [] {
      PendingNothing(ms[..|ms| - 1], h, told);
    }
  }

  lemma ToldMore(calls: seq<Call>, c: Call, h: uint32)
    ensures LastTold(calls + [c], h) == if c.handle == h then c.index else LastTold(calls, h)
  {
  }

  lemma {:induction false} NeverTold(calls: seq<Call>, h: uint32)
    requires forall i | 0 <= i < |calls| :: calls[i].handle != h
    ensures LastTold(calls, h) == -1
  {
    if calls != [] {
      NeverTold(calls[..|calls| - 1], h);
    }
  }

  /** The logs mention only handles that were given out, and never the one that stands for local controllers. */
  ghost predicate IndexLogs(a: Agents, toBackend: seq<Message>) {
    && (forall h | h in a.wanted :: h in a.frontend.known) && (forall h | h in a.frontend.known :: h in a.owner)
    && (forall i | 0 <= i < |a.calls| :: a.calls[i].handle in a.owner && a.calls[i].handle != LOCAL_HANDLE)
    && (forall i | 0 <= i < |toBackend| :: toBackend[i].handle in a.owner && toBackend[i].handle != LOCAL_HANDLE)
  }

  /** What a live device has been told and what is under way to it add up to the index wanted. */
  ghost predicate IndicesTrack(a: Agents, toBackend: seq<Message>) {
    forall h | a.backend.Live(h) && h != LOCAL_HANDLE :: Pending(toBackend, h, a.Told(h)) == a.Wanted(h)
  }

  lemma AttachIndices(a: Agents, step: Step, toBackend: seq<Message>)
    requires AgentsAgree(a) && IndexLogs(a, toBackend) && IndicesTrack(a, toBackend)
    requires CanAct(a, step) && step.Attach? && a.attaches + 1 < HANDLES
    ensures IndexLogs(Act(a, step).agents, toBackend) && IndicesTrack(Act(a, step).agents, toBackend)
  {
    var b := Act(a, step).agents;
    AttachTables(a.backend, a.attaches, a.owner, step.device);
    forall h | b.backend.Live(h) && h != LOCAL_HANDLE ensures Pending(toBackend, h, b.Told(h)) == b.Wanted(h) {
      if h == a.backend.nextHandle {
        PendingNothing(toBackend, h, -1);
        NeverTold(a.calls, h);
      }
    }
  }

  lemma WishIndices(a: Agents, h: uint32, index: int32, toBackend: seq<Message>)
    requires IndexLogs(a, toBackend) && IndicesTrack(a, toBackend) && h in a.frontend.known
    ensures var (b, ms) := (a.(wanted := a.wanted[h := index]), toBackend + IndexMessages(h, index));
            IndexLogs(b, ms) && IndicesTrack(b, ms)
  {
    var b, ms := a.(wanted := a.wanted[h := index]), toBackend + IndexMessages(h, index);
    forall k | b.backend.Live(k) && k != LOCAL_HANDLE ensures Pending(ms, k, b.Told(k)) == b.Wanted(k) {
      if h == LOCAL_HANDLE {
        assert ms == toBackend;
      } else {
        PendingMore(toBackend, SetPlayerIndex(h, index), k, a.Told(k));
      }
    }
  }

  /** Actions that are not about indices, and leave no device live that was not. */
  lemma OtherIndices(a: Agents, b: Agents, toBackend: seq<Message>)
    requires IndexLogs(a, toBackend) && IndicesTrack(a, toBackend)
    requires b.calls == a.calls && b.wanted == a.wanted && b.owner == a.owner && b.frontend == a.frontend
    requires forall h | b.backend.Live(h) :: a.backend.Live(h)
    ensures IndexLogs(b, toBackend) && IndicesTrack(b, toBackend)
  {
  }

  lemma ActIndices(a: Agents, step: Step, toBackend: seq<Message>)
    requires AgentsAgree(a) && IndexLogs(a, toBackend) && IndicesTrack(a, toBackend)
    requires CanAct(a, step) && (step.Attach? ==> a.attaches + 1 < HANDLES)
    ensures var r := Act(a, step);
            IndexLogs(r.agents, toBackend + r.toBackend) && IndicesTrack(r.agents, toBackend + r.toBackend)
  {
    assert toBackend + [] == toBackend;
    var b := Act(a, step).agents;
    if step.Attach? {
      AttachIndices(a, step, toBackend);
    } else if step.SetIndex? {
      WishIndices(a, step.handle, step.index, toBackend);
    } else {
      if step.Destroy? {
        DestroyTables(a.backend, a.attaches, a.owner, step.device);
      }
      OtherIndices(a, b, toBackend);
    }
  }

  /** A controller not seen yet has been given no index, and -1 is under way once it is seen. */
  lemma ConnectIndices(a: Agents, f: Frontend, h: uint32, toBackend: seq<Message>)
    requires IndexLogs(a, toBackend) && IndicesTrack(a, toBackend) && h in a.owner && h !in a.frontend.known
    requires f.known == a.frontend.known + {h}
    ensures var (b, ms) := (a.(frontend := f), toBackend + IndexMessages(h, -1));
            b.wanted == a.wanted && IndexLogs(b, ms) && IndicesTrack(b, ms)
  {
    var b, ms := a.(frontend := f), toBackend + IndexMessages(h, -1);
    forall k | b.backend.Live(k) && k != LOCAL_HANDLE ensures Pending(ms, k, b.Told(k)) == b.Wanted(k) {
      if h == LOCAL_HANDLE {
        assert ms == toBackend;
      } else {
        PendingMore(toBackend, SetPlayerIndex(h, -1), k, a.Told(k));
      }
    }
  }

  lemma FrontendIndices(a: Agents, m: Message, toBackend: seq<Message>)
    requires IndexLogs(a, toBackend) && IndicesTrack(a, toBackend)
    requires FrontendReceives(a, m).Some? && m.handle in a.owner && (m.Connect? ==> m.handle !in a.frontend.known)
    ensures var r := FrontendReceives(a, m).value;
            IndexLogs(r.agents, toBackend + r.toBackend) && IndicesTrack(r.agents, toBackend + r.toBackend)
  {
    assert toBackend + [] == toBackend;
    var b := FrontendReceives(a, m).value.agents;
    if m.Connect? {
      ConnectIndices(a.(shown := b.shown), b.frontend, m.handle, toBackend);
    }
  }

  /** The controllers still to be announced to the application are new to it, and each is announced once. */
  ghost predicate ConnectsFresh(a: Agents, toFrontend: seq<Message>) {
    && (forall i | 0 <= i < |toFrontend| && toFrontend[i].Connect? ::
          toFrontend[i].handle in a.owner && toFrontend[i].handle !in a.frontend.known)
    && (forall i, j | 0 <= i < j < |toFrontend| && toFrontend[i].Connect? && toFrontend[j].Connect? ::
          toFrontend[i].handle != toFrontend[j].handle)
  }

  lemma ActConnects(a: Agents, step: Step, toFrontend: seq<Message>)
    requires AgentsAgree(a) && CanAct(a, step) && ConnectsFresh(a, toFrontend)
    requires step.Attach? ==> a.attaches + 1 < HANDLES
    ensures ConnectsFresh(Act(a, step).agents, toFrontend + Act(a, step).toFrontend)
  {
    if step.Attach? {
      AttachTables(a.backend, a.attaches, a.owner, step.device);
    }
  }

  lemma FrontendConnects(a: Agents, toFrontend: seq<Message>)
    requires ConnectsFresh(a, toFrontend) && toFrontend != []
    requires FrontendReceives(a, toFrontend[0]).Some?
    ensures ConnectsFresh(FrontendReceives(a, toFrontend[0]).value.agents, toFrontend[1..])
  {
    var m, g := toFrontend[0], FrontendReceives(a, toFrontend[0]).value.agents.frontend;
    assert g.known == if m.Connect? then a.frontend.known + {m.handle} else a.frontend.known;
  }

  lemma BackendIndices(a: Agents, toBackend: seq<Message>)
    requires AgentsAgree(a) && IndexLogs(a, toBackend) && IndicesTrack(a, toBackend)
    requires toBackend != [] && toBackend[0].SetPlayerIndex?
    ensures var b := BackendReceives(a, toBackend[0]).agents;
            IndexLogs(b, toBackend[1..]) && IndicesTrack(b, toBackend[1..])
  {
    var m, b := toBackend[0], BackendReceives(a, toBackend[0]).agents;
    LookupTables(a.backend, a.attaches, a.owner, m.handle, m.index);
    forall h | b.backend.Live(h) && h != LOCAL_HANDLE ensures Pending(toBackend[1..], h, b.Told(h)) == b.Wanted(h) {
      PendingFirst(toBackend, h, a.Told(h));
      if a.backend.Live(m.handle) {
        ToldMore(a.calls, Call(m.handle, a.backend.devices[m.handle].value, m.index), h);
      }
    }
  }

  // ----- pauses -----

  /** The handles of the pause packets in a stream. */
  function PausesIn(ms: seq<Message>): seq<uint32> {
    if ms == [] then []
    else PausesIn(ms[..|ms| - 1]) + if ms[|ms| - 1].PausePressed? then [ms[|ms| - 1].handle] else []
  }

  lemma {:induction false} PausesAppend(a: seq<Message>, b: seq<Message>)
    ensures PausesIn(a + b) == PausesIn(a) + PausesIn(b)
  {
    if b == [] {
      assert a + b == a;
    } else {
      assert (a + b)[..|a + b| - 1] == a + b[..|b| - 1];
      PausesAppend(a, b[..|b| - 1]);
    }
  }

  lemma PausesOne(m: Message)
    ensures PausesIn([m]) == if m.PausePressed? then [m.handle] else []
  {
    assert [m][..0] == [];
  }

  lemma PausesFirst(ms: seq<Message>)
    requires ms != []
    ensures PausesIn(ms) == (if ms[0].PausePressed? then [ms[0].handle] else []) + PausesIn(ms[1..])
  {
    assert ms == [ms[0]] + ms[1..];
    PausesAppend([ms[0]], ms[1..]);
    PausesOne(ms[0]);
  }

  /** The handler calls made and the pauses under way are the pauses sent, in order. */
  predicate PausesTrack(a: Agents, toFrontend: seq<Message>) {
    a.frontend.pauses + PausesIn(toFrontend) == a.presses
  }

  lemma ActPauses(a: Agents, step: Step, toFrontend: seq<Message>)
    requires AgentsAgree(a) && CanAct(a, step) && PausesTrack(a, toFrontend)
    ensures var r := Act(a, step); PausesTrack(r.agents, toFrontend + r.toFrontend)
  {
    var r := Act(a, step);
    PausesAppend(toFrontend, r.toFrontend);
    PauseSent(a, step);
  }

  lemma PauseSent(a: Agents, step: Step)
    requires CanAct(a, step)
    ensures var r := Act(a, step);
            r.agents.frontend == a.frontend && r.agents.presses == a.presses + PausesIn(r.toFrontend)
  {
    var out := Act(a, step).toFrontend;
    if out != [] {
      PausesOne(out[0]);
      assert out == [out[0]];
    }
  }

  lemma PauseReceived(a: Agents, toFrontend: seq<Message>)
    requires ViewAgrees(a, toFrontend) && toFrontend != []
    ensures FrontendReceives(a, toFrontend[0]).Some?
    ensures var m, b := toFrontend[0], FrontendReceives(a, toFrontend[0]).value.agents;
            && b.frontend.pauses == a.frontend.pauses + (if m.PausePressed? then [m.handle] else [])
            && b.presses == a.presses
  {
    ReceiveFitting(a.frontend, a.shown, toFrontend[0]);
  }

  lemma FrontendPauses(a: Agents, toFrontend: seq<Message>)
    requires ViewAgrees(a, toFrontend) && toFrontend != [] && PausesTrack(a, toFrontend)
    ensures FrontendReceives(a, toFrontend[0]).Some?
    ensures PausesTrack(FrontendReceives(a, toFrontend[0]).value.agents, toFrontend[1..])
  {
    PauseReceived(a, toFrontend);
    PausesFirst(toFrontend);
  }

  // ----- over whole runs -----

  ghost predicate Tracks(s: State) {
    && EntriesTrack(s.agents) && IndexLogs(s.agents, s.toBackend) && IndicesTrack(s.agents, s.toBackend)
    && PausesTrack(s.agents, s.toFrontend) && ConnectsFresh(s.agents, s.toFrontend)
  }

  lemma StepTracks(s: State, step: Step)
    requires Agreement(s) && Tracks(s) && Enabled(s, step) && Next(s, step).Some?
    requires step.Attach? ==> s.agents.attaches + 1 < HANDLES
    ensures Tracks(Next(s, step).value)
  {
    match step
    case DeliverToFrontend => DeliverTracks(s);
    case DeliverToBackend => BackendIndices(s.agents, s.toBackend);
    case _ => ActTracks(s, step);
  }

  lemma DeliverTracks(s: State)
    requires ViewAgrees(s.agents, s.toFrontend) && Tracks(s) && s.toFrontend != []
    requires Next(s, DeliverToFrontend).Some?
    ensures Tracks(Next(s, DeliverToFrontend).value)
  {
    FrontendPauses(s.agents, s.toFrontend);
    FrontendConnects(s.agents, s.toFrontend);
    FrontendIndices(s.agents, s.toFrontend[0], s.toBackend);
  }

  lemma ActTracks(s: State, step: Step)
    requires AgentsAgree(s.agents) && Tracks(s) && CanAct(s.agents, step)
    requires step.Attach? ==> s.agents.attaches + 1 < HANDLES
    ensures Tracks(Next(s, step).value)
  {
    ActEntries(s.agents, step);
    ActConnects(s.agents, step, s.toFrontend);
    ActIndices(s.agents, step, s.toBackend);
    ActPauses(s.agents, step, s.toFrontend);
  }

  lemma {:induction false} RunTracks(steps: seq<Step>)
    requires Possible(steps) && Attaches(steps) < HANDLES
    ensures Execute(steps).Some? && Tracks(Execute(steps).value)
  {
    RegistryAgreement(steps);
    if steps != [] {
      var before := steps[..|steps| - 1];
      RunTracks(before);
      RegistryAgreement(before);
      StepTracks(Execute(before).value, steps[|steps| - 1]);
    }
  }

  // ----- the logs are the history of the steps -----

  /** The handle that the device of a step is attached under. */
  predicate Under(a: Agents, d: Device, h: uint32) {
    d in a.backend.interfaces && a.backend.interfaces[d] == h
  }

  /** What devices have reported under a handle, in order. */
  function ReportsBy(steps: seq<Step>, h: uint32): seq<StateWords>
    requires Possible(steps)
  {
    if steps == [] then []
    else
      var before, step := steps[..|steps| - 1], steps[|steps| - 1];
      ReportsBy(before, h) +
      if step.Report? && Under(Execute(before).value.agents, step.device, h) then [step.state] else []
  }

  /** The handles under which devices have sent a pause, in order. */
  function PausesBy(steps: seq<Step>): seq<uint32>
    requires Possible(steps)
  {
    if steps == [] then []
    else
      var before, step := steps[..|steps| - 1], steps[|steps| - 1];
      PausesBy(before) + if step.Pause? then [Execute(before).value.agents.backend.interfaces[step.device]] else []
  }

  /** The index that the application last set on the controller with a handle, or -1. */
  function IndexBy(steps: seq<Step>, h: uint32): int32 {
    if steps == [] then -1
    else
      var step := steps[|steps| - 1];
      if step.SetIndex? && step.handle == h then step.index else IndexBy(steps[..|steps| - 1], h)
  }

  /** What the device that was last attached under a handle has said of itself. */
  function AnnouncedBy(steps: seq<Step>, h: uint32): Option<Announcement>
    requires Possible(steps)
  {
    if steps == [] then None
    else
      var before, step := steps[..|steps| - 1], steps[|steps| - 1];
      if step.Attach? && Execute(before).value.agents.backend.nextHandle == h
      then Some(Announcement(step.vendor, step.present, step.analog)) else AnnouncedBy(before, h)
  }

  predicate LogsAre(a: Agents, h: uint32, reports: seq<StateWords>, index: int32, said: Option<Announcement>) {
    && a.ReportsOf(h) == reports && a.Wanted(h) == index
    && said == if h in a.announced then Some(a.announced[h]) else None
  }

  lemma LogStep(s: State, step: Step, h: uint32, reports: seq<StateWords>, index: int32, said: Option<Announcement>)
    requires Enabled(s, step) && Next(s, step).Some? && LogsAre(s.agents, h, reports, index, said)
    ensures LogsAre(
              Next(s, step).value.agents, h,
              reports + if step.Report? && Under(s.agents, step.device, h) then [step.state] else [],
              if step.SetIndex? && step.handle == h then step.index else index,
              if step.Attach? && s.agents.backend.nextHandle == h
              then Some(Announcement(step.vendor, step.present, step.analog)) else said)
  {
  }

  lemma {:induction false} LogsAreHistory(steps: seq<Step>, h: uint32)
    requires Possible(steps) && Execute(steps).Some?
    ensures LogsAre(Execute(steps).value.agents, h, ReportsBy(steps, h), IndexBy(steps, h), AnnouncedBy(steps, h))
  {
    if steps != [] {
      var before, step := steps[..|steps| - 1], steps[|steps| - 1];
      LogsAreHistory(before, h);
      LogStep(Execute(before).value, step, h, ReportsBy(before, h), IndexBy(before, h), AnnouncedBy(before, h));
    }
  }

  lemma PressStep(s: State, step: Step)
    requires Enabled(s, step) && Next(s, step).Some?
    ensures Next(s, step).value.agents.presses ==
            s.agents.presses + if step.Pause? then [s.agents.backend.interfaces[step.device]] else []
  {
  }

  lemma {:induction false} PressesAreHistory(steps: seq<Step>)
    requires Possible(steps) && Execute(steps).Some?
    ensures Execute(steps).value.agents.presses == PausesBy(steps)
  {
    if steps != [] {
      var before, step := steps[..|steps| - 1], steps[|steps| - 1];
      PressesAreHistory(before);
      PressStep(Execute(before).value, step);
    }
  }

  /** No message about a handle is under way to its device. */
  predicate Settled(s: State, h: uint32) {
    forall i | 0 <= i < |s.toBackend| :: s.toBackend[i].handle != h
  }

  /** Every live device whose index messages have all arrived has last been told the index last set. */
  ghost predicate IndicesAgree(steps: seq<Step>)
    requires Possible(steps) && Execute(steps).Some?
  {
    var s := Execute(steps).value;
    forall h | s.agents.backend.Live(h) && Settled(s, h) :: s.agents.Told(h) == IndexBy(steps, h)
  }

  lemma SettledAgrees(s: State, h: uint32)
    requires IndicesTrack(s.agents, s.toBackend)
    requires s.agents.backend.Live(h) && Settled(s, h) && h != LOCAL_HANDLE
    ensures s.agents.Told(h) == s.agents.Wanted(h)
  {
    PendingNothing(s.toBackend, h, s.agents.Told(h));
  }

  /**
   * Player-index agreement: with fewer than 2^32 - 1 attaches the last index a live device was told is, once no
   * message about it is under way, the one last set on its controller, or -1 when none was.
   */
  lemma IndexAgreement(steps: seq<Step>)
    requires Possible(steps) && Attaches(steps) < HANDLES - 1
    ensures Execute(steps).Some? && IndicesAgree(steps)
  {
    RunTracks(steps);
    RegistryAgreement(steps);
    var s := Execute(steps).value;
    forall h | s.agents.backend.Live(h) && Settled(s, h) ensures s.agents.Told(h) == IndexBy(steps, h) {
      SettledAgrees(s, h);
      LogsAreHistory(steps, h);
    }
  }

  /** Attach number 2^32 - 1 is given the handle of local controllers, which is never told anything. */
  lemma LocalNeverTold(steps: seq<Step>)
    requires Possible(steps) && Attaches(steps) < HANDLES
    ensures Execute(steps).Some? && Settled(Execute(steps).value, LOCAL_HANDLE)
    ensures Execute(steps).value.agents.Told(LOCAL_HANDLE) == -1
  {
    RunTracks(steps);
    NeverTold(Execute(steps).value.agents.calls, LOCAL_HANDLE);
  }

  lemma LocalIndexLost() returns (steps: seq<Step>)
    ensures Possible(steps) && Attaches(steps) == HANDLES - 1 && Execute(steps).Some?
    ensures !IndicesAgree(steps)
  {
    var cycles, s := PlugCycles(HANDLES - 2);
    var plugged, t := PlugIn(cycles, s, HANDLES - 2);
    LeadsOn(plugged, t, SetIndex(LOCAL_HANDLE, 0));
    steps := plugged + [SetIndex(LOCAL_HANDLE, 0)];
    LocalNeverTold(steps);
    RegistryAgreement(plugged);
    LocalWish(t);
    LogsAreHistory(steps, LOCAL_HANDLE);
  }

  lemma LocalWish(t: State)
    requires Agreement(t) && Plugged(t, HANDLES - 1)
    ensures var u := Next(t, SetIndex(LOCAL_HANDLE, 0)).value;
            u.agents.backend.Live(LOCAL_HANDLE) && u.agents.Wanted(LOCAL_HANDLE) == 0
  {
  }

  ghost predicate IndexSafeUpTo(n: nat) {
    forall steps | Possible(steps) && Attaches(steps) <= n && Execute(steps).Some? :: IndicesAgree(steps)
  }

  /**
   * Exactly when indices agree: with fewer than 2^32 - 1 attaches. The device attached next gets the handle that
   * the frontend takes for a controller of its own, and indices set on it stay there.
   */
  lemma ExactIndexDomain(n: nat)
    ensures IndexSafeUpTo(n) <==> n < HANDLES - 1
  {
    if n < HANDLES - 1 {
      forall steps | Possible(steps) && Attaches(steps) <= n && Execute(steps).Some? ensures IndicesAgree(steps)
      {
        IndexAgreement(steps);
      }
    } else {
      var steps := LocalIndexLost();
      assert Attaches(steps) <= n;
    }
  }

  /**
   * The frontend has a controller with this handle; it says of itself what its device announced, and its elements
   * track what its device has reported.
   */
  ghost predicate ShowsReports(cs: seq<Controller>, h: uint32, said: Option<Announcement>, states: seq<StateWords>) {
    && Holds(cs, h) && said.Some?
    && forall i | 0 <= i < |cs| && cs[i].handle == h ::
         && cs[i].vendor == said.value.vendor && cs[i].present == said.value.present
         && cs[i].analog == said.value.analog && Elements.ControllerTracks(cs[i].panel, PacketsOf(states))
  }

  lemma EntryShows(a: Agents, h: uint32)
    requires EntriesTrack(a) && Lists(a.frontend.controllers, a.directory) && h in a.directory
    ensures h in a.announced
    ensures ShowsReports(a.frontend.controllers, h, Some(a.announced[h]), a.ReportsOf(h))
  {
    Elements.UpdateIsDirect(PacketsOf(a.ReportsOf(h)));
  }

  /**
   * Element agreement: with nothing under way to the frontend every live device has its controller there, as it
   * announced itself, whose elements show its last report and have fired for exactly its changes.
   */
  lemma ElementAgreement(steps: seq<Step>, h: uint32)
    requires Possible(steps) && Attaches(steps) < HANDLES
    requires Execute(steps).Some? && Execute(steps).value.toFrontend == []
    requires Execute(steps).value.agents.backend.Live(h)
    ensures ShowsReports(Execute(steps).value.agents.frontend.controllers, h, AnnouncedBy(steps, h),
                         ReportsBy(steps, h))
  {
    RunTracks(steps);
    QuietView(steps);
    RegistryAgreement(steps);
    EntryShows(Execute(steps).value.agents, h);
    LogsAreHistory(steps, h);
  }

  /** Pause agreement: with nothing under way, the paused handlers have been called for the pauses sent, in order. */
  lemma PauseAgreement(steps: seq<Step>)
    requires Possible(steps) && Attaches(steps) < HANDLES
    ensures Execute(steps).Some?
    ensures var s := Execute(steps).value;
            s.toFrontend == [] ==> s.agents.frontend.pauses == PausesBy(steps)
  {
    RunTracks(steps);
    PressesAreHistory(steps);
  }
}
