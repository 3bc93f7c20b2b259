/** The controller registry: what each of the two agents does to its own tables and what it sends. */
module Registry {
  import opened Bytes
  import opened Protocol
  import opened Floats
  import Elements

  /** A device object, named the way the backend names it: by its address, which may be used again later. */
  type Device = nat

  const HANDLES: int := 0x1_0000_0000

  /** A call of SetPlayerIndex on the device that the handle of a message leads to. */
  datatype Call = Call(handle: uint32, device: Device, index: int32)

  /** interfaces holds the handle field of every device object alive; 0 until it is attached. */
  datatype Backend = Backend(
    nextHandle: uint32,
    devices: map<uint32, Option<Device>>,
    interfaces: map<Device, uint32>)
  {
    predicate Owns(h: uint32, d: Device) {
      h in devices && devices[h] == Some(d)
    }

    predicate Live(h: uint32) {
      h in devices && devices[h].Some?
    }

    /** The device is alive and its own handle field says h. */
    predicate Attached(d: Device, h: uint32) {
      d in interfaces && interfaces[d] == h
    }

    /** AttachController and FinalizeConnection: the new handle goes into the table and the device. */
    function Attach(d: Device): Backend {
      Backend((nextHandle + 1) % HANDLES, devices[nextHandle := Some(d)], interfaces[d := nextHandle])
    }

    function CreateDummy(d: Device): Backend {
      this.(interfaces := interfaces[d := 0])
    }

    /** The destructor with DetachController: erase, and tell the frontend only if there was an entry. */
    function Destroy(d: Device): (Backend, seq<Message>)
      requires d in interfaces
    {
      var h := interfaces[d];
      (this.(devices := devices - {h}, interfaces := interfaces - {d}),
       if h in devices then [Disconnect(h)] else [])
    }

    /** HandlePacket: looking a handle up with operator[] leaves a null entry behind when it is unknown. */
    function Receive(m: Message): (Backend, Option<Call>) {
      match m
      case SetPlayerIndex(h, index) =>
        if h !in devices then (this.(devices := devices[h := None]), None)
        else (this, if devices[h].Some? then Some(Call(h, devices[h].value, index)) else None)
      case _ => (this, None)
    }
  }

  /** panel is the elements the application looks at. */
  datatype Controller = Controller(
    handle: uint32, vendor: VendorName, present: uint32, analog: uint32, panel: Elements.Panel)
  {
    function Showing(state: StateWords): Controller {
      this.(panel := Elements.Updated(panel, FloatValues(state)))
    }
  }

  function NewController(h: uint32, vendor: VendorName, present: uint32, analog: uint32): Controller {
    Controller(h, vendor, present, analog, Elements.NEW_CONTROLLER)
  }

  /** The first controller with a handle, or -1. */
  function Find(cs: seq<Controller>, h: uint32): (i: int)
    ensures -1 <= i < |cs|
    ensures i >= 0 ==> cs[i].handle == h && forall k | 0 <= k < i :: cs[k].handle != h
    ensures i < 0 ==> forall k | 0 <= k < |cs| :: cs[k].handle != h
  {
    if cs == [] then -1
    else if cs[0].handle == h then 0
    else
      var i := Find(cs[1..], h);
      if i < 0 then -1 else i + 1
  }

  function Lookup(cs: seq<Controller>, h: uint32): (i: int)
    ensures -1 <= i < |cs|
  {
    if h == 0 then -1 else Find(cs, h)
  }

  function IndexMessages(h: uint32, index: int32): seq<Message> {
    if h == LOCAL_HANDLE then [] else [SetPlayerIndex(h, index)]
  }

  /** known holds the handles of all controller objects the application may still hold; pauses is a trace. */
  datatype Frontend = Frontend(controllers: seq<Controller>, known: set<uint32>, pauses: seq<uint32>) {
    /** HandlePacket: the new frontend and what it sends, or None when removeObjectAtIndex raises. */
    function Receive(m: Message): Option<(Frontend, seq<Message>)> {
      match m
      case Connect(h, vendor, present, analog) =>
        var c := NewController(h, vendor, present, analog);
        Some((this.(controllers := controllers + [c], known := known + {h}), IndexMessages(h, -1)))
      case Disconnect(h) =>
        var i := Lookup(controllers, h);
        if i < 0 then None
        else Some((this.(controllers := controllers[..i] + controllers[i + 1..]), []))
      case InputState(h, state) =>
        var i := Lookup(controllers, h);
        if i < 0 then Some((this, []))
        else Some((this.(controllers := controllers[i := controllers[i].Showing(state)]), []))
      case PausePressed(h) =>
        var i := Lookup(controllers, h);
        if i < 0 then Some((this, [])) else Some((this.(pauses := pauses + [h]), []))
      case SetPlayerIndex(_, _) => Some((this, []))
    }
  }

  /**
   * What the backend's tables owe to the attaches made so far, fewer than 2^32: owner gives every handle the
   * device it was assigned to, and live entries and attached devices name each other.
   */
  ghost predicate TablesAgree(b: Backend, attaches: nat, owner: map<uint32, Device>) {
    && attaches < HANDLES && b.nextHandle == (attaches + 1) % HANDLES
    && (forall h :: h in owner <==> 1 <= h <= attaches)
    && b.devices.Keys <= owner.Keys
    && (forall h | b.Live(h) :: b.devices[h].value == owner[h])
    && (forall h | b.Live(h) :: b.Attached(owner[h], h))
    && (forall d | d in b.interfaces && b.interfaces[d] != 0 :: b.Owns(b.interfaces[d], d))
  }

  lemma AttachTables(b: Backend, attaches: nat, owner: map<uint32, Device>, d: Device)
    requires TablesAgree(b, attaches, owner) && attaches + 1 < HANDLES && d !in b.interfaces
    ensures TablesAgree(b.Attach(d), attaches + 1, owner[b.nextHandle := d])
    ensures b.nextHandle == attaches + 1 && b.nextHandle !in owner
    ensures forall h :: b.Attach(d).Live(h) <==> b.Live(h) || h == b.nextHandle
  {
  }

  lemma DummyTables(b: Backend, attaches: nat, owner: map<uint32, Device>, d: Device)
    requires TablesAgree(b, attaches, owner) && d !in b.interfaces
    ensures TablesAgree(b.CreateDummy(d), attaches, owner)
  {
  }

  lemma DestroyTables(b: Backend, attaches: nat, owner: map<uint32, Device>, d: Device)
    requires TablesAgree(b, attaches, owner) && d in b.interfaces
    ensures TablesAgree(b.Destroy(d).0, attaches, owner)
    ensures b.Destroy(d).1 == if b.interfaces[d] == 0 then [] else [Disconnect(b.interfaces[d])]
    ensures b.interfaces[d] != 0 ==> b.Live(b.interfaces[d])
    ensures forall h :: b.Destroy(d).0.Live(h) <==> b.Live(h) && h != b.interfaces[d]
  {
  }

  /** Looking up a handle that was once assigned reaches its device exactly if that device is still attached. */
  lemma LookupTables(b: Backend, attaches: nat, owner: map<uint32, Device>, h: uint32, index: int32)
    requires TablesAgree(b, attaches, owner) && h in owner
    ensures var (b', call) := b.Receive(SetPlayerIndex(h, index));
            && TablesAgree(b', attaches, owner) && b'.interfaces == b.interfaces
            && (forall k :: b'.Live(k) <==> b.Live(k))
            && call == if b.Attached(owner[h], h) then Some(Call(h, owner[h], index)) else None
  {
  }

  // ----- the frontend's list seen as a directory, and where a stream of messages leads it -----

  type Directory = map<uint32, Controller>

  predicate Holds(cs: seq<Controller>, h: uint32) {
    exists k | 0 <= k < |cs| :: cs[k].handle == h
  }

  predicate Sorted(cs: seq<Controller>) {
    forall i, j | 0 <= i < j < |cs| :: cs[i].handle < cs[j].handle
  }

  /** The list is the directory in increasing order of handle, each entry once. */
  predicate Lists(cs: seq<Controller>, t: Directory) {
    && Sorted(cs)
    && (forall h | h in t :: Holds(cs, h))
    && (forall i | 0 <= i < |cs| :: cs[i].handle in t && t[cs[i].handle] == cs[i])
  }

  /** What a message means for a directory of controllers, with no list to search. */
  function Applied(t: Directory, m: Message): Directory {
    match m
    case Connect(h, vendor, present, analog) => t[h := NewController(h, vendor, present, analog)]
    case Disconnect(h) => t - {h}
    case InputState(h, state) => if h in t then t[h := t[h].Showing(state)] else t
    case _ => t
  }

  /** The message has an addressee in the directory; a Connect brings its own, above all the others. */
  predicate Fits(t: Directory, m: Message) {
    match m
    case Connect(h, _, _, _) => forall k | k in t :: k < h
    case SetPlayerIndex(_, _) => false
    case _ => m.handle != 0 && m.handle in t
  }

  lemma Added(cs: seq<Controller>, t: Directory, c: Controller)
    requires Lists(cs, t) && forall k | k in t :: k < c.handle
    ensures Lists(cs + [c], t[c.handle := c])
  {
    var ds := cs + [c];
    assert ds[|cs|] == c;
    forall h | h in t ensures Holds(ds, h) {
      var k :| 0 <= k < |cs| && cs[k].handle == h;
      assert ds[k].handle == h;
    }
  }

  lemma StillHeld(cs: seq<Controller>, i: nat, h: uint32)
    requires i < |cs| && Holds(cs, h) && h != cs[i].handle
    ensures Holds(cs[..i] + cs[i + 1..], h)
  {
    var k :| 0 <= k < |cs| && cs[k].handle == h;
    assert (cs[..i] + cs[i + 1..])[if k < i then k else k - 1] == cs[k];
  }

  lemma StillSorted(cs: seq<Controller>, i: nat)
    requires i < |cs| && Sorted(cs)
    ensures Sorted(cs[..i] + cs[i + 1..])
  {
  }

  lemma Removed(cs: seq<Controller>, t: Directory, i: nat)
    requires Lists(cs, t) && i < |cs|
    ensures Lists(cs[..i] + cs[i + 1..], t - {cs[i].handle})
  {
    var ds, u := cs[..i] + cs[i + 1..], t - {cs[i].handle};
    StillSorted(cs, i);
    forall k | 0 <= k < |ds| ensures ds[k].handle in u && u[ds[k].handle] == ds[k] {
      var k' := if k < i then k else k + 1;
      assert ds[k] == cs[k'];
    }
    forall h | h in u ensures Holds(ds, h) {
      StillHeld(cs, i, h);
    }
  }

  lemma Replaced(cs: seq<Controller>, t: Directory, i: nat, c: Controller)
    requires Lists(cs, t) && i < |cs| && c.handle == cs[i].handle
    ensures Lists(cs[i := c], t[c.handle := c])
  {
    var ds := cs[i := c];
    forall h | h in t ensures Holds(ds, h) {
      var k :| 0 <= k < |cs| && cs[k].handle == h;
      assert ds[k].handle == h;
    }
  }

  /** A handle that is not 0 is found where the list holds it. */
  lemma LookupHeld(cs: seq<Controller>, t: Directory, h: uint32)
    requires Lists(cs, t) && h in t && h != 0
    ensures 0 <= Lookup(cs, h) && cs[Lookup(cs, h)].handle == h && t[h] == cs[Lookup(cs, h)]
  {
  }

  lemma StateFitting(f: Frontend, t: Directory, h: uint32, state: StateWords)
    requires Lists(f.controllers, t) && h != 0 && h in t
    ensures f.Receive(InputState(h, state)).Some?
    ensures Lists(f.Receive(InputState(h, state)).value.0.controllers, t[h := t[h].Showing(state)])
  {
    LookupHeld(f.controllers, t, h);
    var i := Lookup(f.controllers, h);
    Replaced(f.controllers, t, i, f.controllers[i].Showing(state));
  }

  lemma DisconnectFitting(f: Frontend, t: Directory, h: uint32)
    requires Lists(f.controllers, t) && h != 0 && h in t
    ensures f.Receive(Disconnect(h)).Some?
    ensures Lists(f.Receive(Disconnect(h)).value.0.controllers, t - {h})
  {
    LookupHeld(f.controllers, t, h);
    Removed(f.controllers, t, Lookup(f.controllers, h));
  }

  /**
   * A fitting message never makes the frontend raise, keeps its list sorted, and does to the list what it means
   * for the directory.
   */
  lemma ReceiveFitting(f: Frontend, t: Directory, m: Message)
    requires Lists(f.controllers, t) && Fits(t, m)
    ensures f.Receive(m).Some?
    ensures Lists(f.Receive(m).value.0.controllers, Applied(t, m))
    ensures f.Receive(m).value.0.pauses == if m.PausePressed? then f.pauses + [m.handle] else f.pauses
  {
    match m
    case Connect(h, vendor, present, analog) =>
      Added(f.controllers, t, NewController(h, vendor, present, analog));
    case Disconnect(h) => DisconnectFitting(f, t, h);
    case InputState(h, state) => StateFitting(f, t, h, state);
    case PausePressed(h) => LookupHeld(f.controllers, t, h);
  }

  /** The only handle a message brings to the frontend, or makes it answer about, is its own. */
  lemma ReceiveAbout(f: Frontend, m: Message)
    requires f.Receive(m).Some?
    ensures var (g, out) := f.Receive(m).value;
            && f.known <= g.known <= f.known + {m.handle}
            && forall r | r in out :: r.SetPlayerIndex? && r.handle == m.handle
  {
  }

  /** Every message of the stream fits when it is its turn. */
  predicate Healthy(t: Directory, ms: seq<Message>)
    decreases |ms|
  {
    ms == [] || (Fits(t, ms[0]) && Healthy(Applied(t, ms[0]), ms[1..]))
  }

  /** The directory the whole stream leads to. */
  function Drained(t: Directory, ms: seq<Message>): Directory
    decreases |ms|
  {
    if ms == [] then t else Drained(Applied(t, ms[0]), ms[1..])
  }

  lemma {:induction false} DrainAppend(t: Directory, ms: seq<Message>, m: Message)
    requires Healthy(t, ms) && Fits(Drained(t, ms), m)
    ensures Healthy(t, ms + [m])
    ensures Drained(t, ms + [m]) == Applied(Drained(t, ms), m)
    decreases |ms|
  {
    if ms == [] {
      assert ([] + [m])[1..] == [];
    } else {
      assert (ms + [m])[1..] == ms[1..] + [m];
      DrainAppend(Applied(t, ms[0]), ms[1..], m);
    }
  }
}
