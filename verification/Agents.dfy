/** The two agents as objects: each method does to its object what Registry says of the tables. */
module AgentObjects {
  import opened Bytes
  import opened Protocol
  import opened Floats
  import opened Framing
  import opened Connections
  import opened Registry
  import opened ElementObjects

  lemma OneEncoded(m: Message)
    ensures Flatten(EncodeAll([m])) == Encode(m)
  {
  }

  /** A device object: the handle it was attached under and the player indices it has been told. */
  class Interface {
    const id: Device
    var handle: uint32
    var indices: seq<int32>

    constructor (id: Device)
      ensures this.id == id && handle == 0 && indices == []
    {
      this.id, handle, indices := id, 0, [];
    }

    method SetPlayerIndex(index: int32)
      modifies this`indices
      ensures indices == old(indices) + [index]
    {
      indices := indices + [index];
    }
  }

  class BackendAgent {
    var nextHandle: uint32
    var devices: map<uint32, Interface?>
    const connection: Connection

    constructor (connection: Connection)
      ensures this.connection == connection && View(map[]) == Backend(1, map[], map[])
    {
      this.connection := connection;
      nextHandle, devices := 1, map[];
    }

    /** The backend's tables, beside the handle fields of the device objects alive. */
    ghost function View(interfaces: map<Device, uint32>): Backend
      reads this
    {
      var entries := map h | h in devices :: if devices[h] == null then None else Some(devices[h].id);
      Backend(nextHandle, entries, interfaces)
    }

    method AttachController(device: Interface, vendor: VendorName, present: uint32, analog: uint32)
      returns (handle: uint32)
      requires connection.output.Valid()
      modifies this, connection.output
      ensures connection.output.Valid() && handle == old(nextHandle)
      ensures forall interfaces: map<Device, uint32> ::
                View(interfaces[device.id := handle]) == old(View(interfaces)).Attach(device.id)
      ensures connection.output.unread ==
              old(connection.output.unread) + Encode(Connect(handle, vendor, present, analog))
    {
      handle := nextHandle;
      nextHandle := (nextHandle + 1) % HANDLES;
      devices := devices[handle := device];
      connection.SendConnect(handle, vendor, present, analog);
    }

    /** The end of a device's constructor: attach, and remember the handle. */
    method FinalizeConnection(device: Interface, vendor: VendorName, present: uint32, analog: uint32,
                              ghost interfaces: map<Device, uint32>)
      requires connection.output.Valid()
      modifies this, connection.output, device`handle
      ensures connection.output.Valid()
      ensures View(interfaces[device.id := device.handle]) == old(View(interfaces)).Attach(device.id)
      ensures connection.output.unread ==
              old(connection.output.unread) + Encode(Connect(device.handle, vendor, present, analog))
    {
      var handle := AttachController(device, vendor, present, analog);
      device.handle := handle;
    }

    /** The device's destructor. */
    method DetachController(device: Interface, ghost interfaces: map<Device, uint32>)
      requires connection.output.Valid()
      requires device.id in interfaces && interfaces[device.id] == device.handle
      modifies this, connection.output
      ensures connection.output.Valid()
      ensures View(interfaces - {device.id}) == old(View(interfaces)).Destroy(device.id).0
      ensures connection.output.unread == old(connection.output.unread) +
              Flatten(EncodeAll(old(View(interfaces)).Destroy(device.id).1))
    {
      if device.handle in devices {
        devices := devices - {device.handle};
        connection.SendDisconnect(device.handle);
        OneEncoded(Disconnect(device.handle));
      }
    }

    method SendControllerState(device: Interface, state: StateWords)
      requires connection.output.Valid()
      modifies connection.output
      ensures connection.output.Valid()
      ensures connection.output.unread == old(connection.output.unread) + Encode(InputState(device.handle, state))
    {
      connection.SendInputState(device.handle, state);
    }

    method SendPausePressed(device: Interface)
      requires connection.output.Valid()
      modifies connection.output
      ensures connection.output.Valid()
      ensures connection.output.unread == old(connection.output.unread) + Encode(PausePressed(device.handle))
    {
      connection.SendPausePressed(device.handle);
    }

    /** Only SetPlayerIndex packets matter; an unknown handle gains a null entry, a null entry is not called. */
    method HandlePacket(packet: seq<byte>, ghost interfaces: map<Device, uint32>)
      requires |packet| == CAPACITY
      modifies this`devices, set h | h in devices && devices[h] != null :: devices[h]`indices
      ensures match Decode(packet)
              case None => View(interfaces) == old(View(interfaces))
              case Some(m) => View(interfaces) == old(View(interfaces)).Receive(m).0
      ensures var call := if Decode(packet).Some? then old(View(interfaces)).Receive(Decode(packet).value).1 else None;
              forall h | h in old(devices) && old(devices[h]) != null ::
                var d := old(devices[h]);
                d.indices == old(d.indices) +
                  if call.Some? && d == old(devices[U32At(packet, 8)]) then [call.value.index] else []
    {
      if U32At(packet, 4) == 3 {
        var handle, index := U32At(packet, 8), ToSigned(U32At(packet, 12));
        if handle !in devices {
          devices := devices[handle := null];
        }
        var device := devices[handle];
        if device != null {
          device.SetPlayerIndex(index);
        }
      }
    }
  }

  /** A controller object as the frontend's list shows it. */
  ghost function Entry(c: GameController): Controller
    requires c.Valid()
    reads c.repr
  {
    Controller(c.handle, c.vendor, c.present, c.analog, c.View())
  }

  class FrontendAgent {
    var controllers: seq<GameController>
    ghost var known: set<uint32>
    /** The controllers whose paused handler has been called. */
    var pauses: seq<uint32>
    const connection: Connection
    /** The element objects of all the controllers in the list. */
    ghost var objects: set<object>

    ghost predicate Valid()
      reads this
    {
      && this !in objects && connection.output !in objects
      && (forall i | 0 <= i < |controllers| :: controllers[i].Valid() && controllers[i].repr <= objects)
      && (forall i | 0 <= i < |controllers| :: controllers[i] !in objects)
      && (forall i, j | 0 <= i < j < |controllers| :: controllers[i].repr !! controllers[j].repr)
    }

    ghost function View(): (f: Frontend)
      requires Valid()
      reads this, objects
      ensures |f.controllers| == |controllers|
    {
      var cs := controllers;
      Frontend(
        seq(|cs|, i requires 0 <= i < |cs| && cs[i].Valid() reads if 0 <= i < |cs| then cs[i].repr else {} =>
          Entry(cs[i])),
        known, pauses)
    }

    constructor (connection: Connection)
      ensures this.connection == connection && Valid() && View() == Frontend([], {}, []) && objects == {}
    {
      this.connection := connection;
      controllers, known, pauses, objects := [], {}, [], {};
    }

    method FindControllerByHandle(handle: uint32) returns (index: int)
      requires Valid()
      ensures index == Find(View().controllers, handle)
    {
      ghost var entries := View().controllers;
      var i := 0;
      while i < |controllers|
        invariant 0 <= i <= |controllers|
        invariant forall k | 0 <= k < i :: entries[k].handle != handle
      {
        assert entries[i].handle == controllers[i].handle;
        if controllers[i].handle == handle {
          return i;
        }
        i := i + 1;
      }
      return -1;
    }

    /** The handlers look a handle up unless it is 0. */
    method LookupController(handle: uint32) returns (index: int)
      requires Valid()
      ensures index == Lookup(View().controllers, handle)
    {
      index := -1;
      if handle != 0 {
        index := FindControllerByHandle(handle);
      }
    }

    method SetControllerIndex(handle: uint32, index: int32)
      requires connection.output.Valid()
      modifies connection.output
      ensures connection.output.Valid()
      ensures connection.output.unread ==
              old(connection.output.unread) + Flatten(EncodeAll(IndexMessages(handle, index)))
    {
      if handle != LOCAL_HANDLE {
        connection.SendSetPlayerIndex(handle, index);
        OneEncoded(Message.SetPlayerIndex(handle, index));
      }
    }

    /** setPlayerIndex of a controller object. */
    method SetPlayerIndex(c: GameController, index: int32)
      requires connection.output.Valid()
      modifies c`playerIndex, connection.output
      ensures connection.output.Valid() && c.playerIndex == index
      ensures connection.output.unread ==
              old(connection.output.unread) + Flatten(EncodeAll(IndexMessages(c.handle, index)))
    {
      c.playerIndex := index;
      SetControllerIndex(c.handle, index);
    }

    /** Creating the controller object sets its player index to -1, which is sent before the list changes. */
    method HandlePacketConnect(handle: uint32, vendor: VendorName, present: uint32, analog: uint32)
      requires Valid() && connection.output.Valid()
      modifies this, connection.output
      ensures Valid() && connection.output.Valid() && fresh(objects - old(objects))
      ensures var m := Connect(handle, vendor, present, analog);
              && View() == old(View()).Receive(m).value.0
              && connection.output.unread == old(connection.output.unread) +
                 Flatten(EncodeAll(old(View()).Receive(m).value.1))
    {
      var c := new GameController(handle, vendor, present, analog);
      SetPlayerIndex(c, -1);
      Append(c);
      known := known + {handle};
    }

    method Append(c: GameController)
      requires Valid() && c.Valid() && c !in objects && c.repr !! objects
      requires this !in c.repr && connection.output !in c.repr
      requires forall i | 0 <= i < |controllers| :: controllers[i] !in c.repr
      modifies this`controllers, this`objects
      ensures Valid() && objects == old(objects) + c.repr
      ensures View() == old(View()).(controllers := old(View()).controllers + [Entry(c)])
    {
      ghost var was := View().controllers;
      controllers, objects := controllers + [c], objects + c.repr;
      assert View().controllers == was + [Entry(c)];
    }

    method HandlePacketDisconnect(handle: uint32) returns (raised: bool)
      requires Valid()
      modifies this
      ensures Valid() && objects == old(objects)
      ensures raised <==> old(View()).Receive(Disconnect(handle)) == None
      ensures View() == if raised then old(View()) else old(View()).Receive(Disconnect(handle)).value.0
    {
      var index := LookupController(handle);
      if index < 0 {
        return true;
      }
      RemoveAt(index);
      return false;
    }

    method RemoveAt(index: nat)
      requires Valid() && index < |controllers|
      modifies this`controllers
      ensures Valid()
      ensures var cs := old(View()).controllers;
              View() == old(View()).(controllers := cs[..index] + cs[index + 1..])
    {
      ghost var was := View().controllers;
      controllers := controllers[..index] + controllers[index + 1..];
      assert View().controllers == was[..index] + was[index + 1..];
    }

    /** The element objects of one controller are updated in place; the others are different objects. */
    method HandlePacketInputState(handle: uint32, state: StateWords)
      requires Valid()
      modifies objects
      ensures Valid() && View() == old(View()).Receive(InputState(handle, state)).value.0
    {
      var index := LookupController(handle);
      if index >= 0 {
        UpdateController(index, state);
      }
    }

    method UpdateController(index: nat, state: StateWords)
      requires Valid() && index < |controllers|
      modifies controllers[index].repr
      ensures Valid()
      ensures var cs := old(View()).controllers;
              View() == old(View()).(controllers := cs[index := cs[index].Showing(state)])
    {
      ghost var was := View().controllers;
      controllers[index].UpdateButtons(FloatValues(state));
      forall k | 0 <= k < |controllers| && k != index ensures View().controllers[k] == was[k] {
        assert controllers[k].repr !! controllers[index].repr;
      }
      assert View().controllers == was[index := was[index].Showing(state)];
    }

    method HandlePacketPausePressed(handle: uint32)
      requires Valid()
      modifies this
      ensures Valid() && objects == old(objects)
      ensures View() == old(View()).Receive(PausePressed(handle)).value.0
    {
      var index := LookupController(handle);
      if index >= 0 {
        pauses := pauses + [handle];
      }
    }

    /** What the packet means for the frontend; packets of other types are ignored. */
    static ghost function Outcome(f: Frontend, packet: seq<byte>): Option<(Frontend, seq<Message>)>
      requires |packet| == CAPACITY
    {
      if Decode(packet).Some? then f.Receive(Decode(packet).value) else Some((f, []))
    }

    /** The packets that are answered with nothing. */
    method HandleSilently(packet: seq<byte>) returns (raised: bool)
      requires |packet| == CAPACITY && Valid() && U32At(packet, 4) != 0
      modifies this, objects
      ensures Valid() && objects == old(objects)
      ensures var r := Outcome(old(View()), packet);
              (raised <==> r == None) && (!raised ==> View() == r.value.0 && r.value.1 == [])
    {
      var handle := U32At(packet, 8);
      raised := false;
      match U32At(packet, 4) {
        case 1 => raised := HandlePacketDisconnect(handle);
        case 2 => HandlePacketInputState(handle, WordsAt(packet, 12, 18));
        case 4 => HandlePacketPausePressed(handle);
        case _ =>
      }
    }

    /** The dispatch on the packet type. */
    method HandlePacket(packet: seq<byte>) returns (raised: bool)
      requires |packet| == CAPACITY && Valid() && connection.output.Valid()
      modifies this, objects, connection.output
      ensures Valid() && connection.output.Valid() && fresh(objects - old(objects))
      ensures var r := Outcome(old(View()), packet);
              && (raised <==> r == None)
              && (!raised ==> View() == r.value.0)
              && (!raised ==> connection.output.unread ==
                              old(connection.output.unread) + Flatten(EncodeAll(r.value.1)))
    {
      raised := false;
      if U32At(packet, 4) == 0 {
        HandlePacketConnect(U32At(packet, 8), packet[12..268], U32At(packet, 268), U32At(packet, 272));
      } else {
        raised := HandleSilently(packet);
        assert Flatten(EncodeAll([])) == [];
      }
    }
  }
}
