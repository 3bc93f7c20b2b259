/** One end of the socket pair: the senders, and the reader that works in place on the packet buffer. */
module Connections {
  import opened Bytes
  import opened Protocol
  import opened Framing

  /** One direction of the socket: the bytes written and not yet read, and how many of them have arrived. */
  class Stream {
    var unread: seq<byte>
    var arrived: nat

    ghost predicate Valid()
      reads this
    {
      arrived <= |unread|
    }

    constructor ()
      ensures Valid() && unread == []
    {
      unread, arrived := [], 0;
    }

    method Write(data: seq<byte>)
      requires Valid()
      modifies this
      ensures Valid() && unread == old(unread) + data
    {
      unread := unread + data;
      var n: nat :| arrived <= n <= |unread|;
      arrived := n;
    }

    /** A non-blocking read: any positive number of the bytes that have arrived, or nothing if none have. */
    method Read(requested: nat) returns (data: seq<byte>)
      requires Valid()
      modifies this
      ensures Valid() && |data| <= requested && old(unread) == data + unread
      ensures arrived == old(arrived) - |data|
      ensures data == [] <==> requested == 0 || old(arrived) == 0
    {
      var limit := if requested < arrived then requested else arrived;
      var n: nat :| n <= limit && (n == 0 <==> limit == 0);
      data := unread[..n];
      unread, arrived := unread[n..], arrived - n;
    }
  }

  lemma ChunkDelivers(at: Progress, unread: seq<byte>, frames: seq<seq<byte>>, chunk: seq<byte>, rest: seq<byte>)
    requires AllUnambiguous(frames) && Delivers(at, unread, frames)
    requires unread == chunk + rest && at.Accepts(chunk)
    ensures Delivers(at.Read(chunk), rest, frames) && at.dispatched <= at.Read(chunk).dispatched
  {
    assert unread[|chunk|..] == rest;
    ReadDelivers(at, unread, frames, chunk);
  }

  method PutBytes(a: array<byte>, at: nat, data: seq<byte>)
    requires at + |data| <= a.Length
    modifies a
    ensures a[..] == Overlaid(old(a[..]), at, data)
  {
    forall i | 0 <= i < |data| {
      a[at + i] := data[i];
    }
  }

  class Connection {
    const input: Stream
    const output: Stream
    const packet: array<byte>
    var position: nat
    /** The packets passed to HandlePacket so far. */
    var handled: seq<seq<byte>>

    ghost function View(): Progress
      reads this, packet
    {
      Progress(Parser(packet[..], position), handled)
    }

    /** The peer has written exactly these frames since the start, and this end is somewhere inside them. */
    ghost predicate Receiving(frames: seq<seq<byte>>)
      reads this, packet, input
    {
      && input != output && input.Valid() && packet.Length == CAPACITY
      && AllUnambiguous(frames) && Delivers(View(), input.unread, frames)
    }

    constructor (input: Stream, output: Stream)
      requires input != output && input.Valid() && input.unread == []
      ensures Receiving([]) && fresh(packet)
      ensures this.input == input && this.output == output && handled == []
    {
      this.input := input;
      this.output := output;
      packet := new byte[CAPACITY](_ => 0);
      position := 0;
      handled := [];
      new;
      assert packet[..] == Zeros(CAPACITY);
      StartRepresents([]);
    }

    /** Fill the next part of the packet buffer from the socket. */
    method Read(ghost frames: seq<seq<byte>>) returns (ok: bool, ghost chunk: seq<byte>)
      requires Receiving(frames)
      modifies this`position, packet, input
      ensures input.Valid() && input.arrived == old(input.arrived) - |chunk|
      ensures !ok ==> chunk == [] && View() == old(View()) && input.unread == old(input.unread)
      ensures ok <==> old(input.arrived) > 0
      ensures ok ==> old(View()).Accepts(chunk) && old(input.unread) == chunk + input.unread
      ensures ok ==> packet[..] == old(View()).parser.Filled(chunk) && position == old(position) + |chunk|
    {
      RequestFits(View(), input.unread, frames);
      var targetSize := if position < 4 then 4 else U32At(packet[..], 0);
      var data := input.Read(targetSize - position);
      if |data| == 0 {
        return false, [];
      }
      PutBytes(packet, position, data);
      position := position + |data|;
      assert position <= targetSize;
      return true, data;
    }

    /** One turn of the loop: a read, and the packet it completes. */
    method ParseChunk(ghost frames: seq<seq<byte>>) returns (ok: bool, ghost taken: nat)
      requires Receiving(frames)
      modifies this, packet, input
      ensures Receiving(frames) && old(handled) <= handled
      ensures taken <= |old(input.unread)| && input.unread == old(input.unread)[taken..]
      ensures input.arrived == old(input.arrived) - taken
      ensures if ok then taken > 0 else input.arrived == 0
    {
      ghost var before, unread, chunk := View(), input.unread, [];
      ok, chunk := Read(frames);
      taken := |chunk|;
      if !ok {
        return;
      }
      if position >= U32At(packet[..], 0) {
        HandlePacket();
      }
      assert View() == before.Read(chunk);
      ChunkDelivers(before, unread, frames, chunk, input.unread);
    }

    /** Read everything that has arrived, dispatching each packet as it is completed. */
    method Parse(ghost frames: seq<seq<byte>>)
      requires Receiving(frames)
      modifies this, packet, input
      ensures Receiving(frames) && input.arrived == 0
      ensures input.unread == old(input.unread[input.arrived..])
      ensures old(handled) <= handled <= PaddedAll(frames)
      ensures input.unread == [] ==> View() == Progress(Start(), PaddedAll(frames))
    {
      while true
        invariant Receiving(frames) && old(handled) <= handled
        invariant old(input.arrived) >= input.arrived
        invariant input.unread == old(input.unread)[old(input.arrived) - input.arrived..]
        decreases input.arrived
      {
        var ok, taken := ParseChunk(frames);
        if !ok {
          break;
        }
      }
      Summary(View(), input.unread, frames);
    }

    /** Hand the packet buffer over, then empty it for the next frame. */
    method HandlePacket()
      requires packet.Length == CAPACITY
      modifies this`handled, this`position, packet
      ensures View() == Progress(Start(), old(handled) + [old(packet[..])])
    {
      handled := handled + [packet[..]];
      position := 0;
      forall i | 0 <= i < packet.Length {
        packet[i] := 0;
      }
      assert packet[..] == Zeros(CAPACITY);
    }

    method SendConnect(handle: uint32, vendor: VendorName, present: uint32, analog: uint32)
      requires output.Valid()
      modifies output
      ensures output.Valid()
      ensures output.unread == old(output.unread) + Encode(Connect(handle, vendor, present, analog))
    {
      var pkt := new byte[CAPACITY];
      PutHeader(pkt, 276, 0, handle);
      ghost var header := pkt[..12];
      PutBytes(pkt, 12, vendor + U32Bytes(present) + U32Bytes(analog));
      assert pkt[..276] == header + pkt[12..276];
      output.Write(pkt[..276]);
    }

    method SendInputState(handle: uint32, state: StateWords)
      requires output.Valid()
      modifies output
      ensures output.Valid()
      ensures output.unread == old(output.unread) + Encode(InputState(handle, state))
    {
      var pkt := new byte[CAPACITY];
      PutHeader(pkt, 84, 2, handle);
      ghost var header := pkt[..12];
      PutBytes(pkt, 12, WordsBytes(state));
      assert pkt[..84] == header + pkt[12..84];
      output.Write(pkt[..84]);
    }

    method SendSetPlayerIndex(handle: uint32, index: int32)
      requires output.Valid()
      modifies output
      ensures output.Valid()
      ensures output.unread == old(output.unread) + Encode(SetPlayerIndex(handle, index))
    {
      var pkt := new byte[CAPACITY];
      PutHeader(pkt, 16, 3, handle);
      ghost var header := pkt[..12];
      PutBytes(pkt, 12, U32Bytes(ToUnsigned(index)));
      assert pkt[..16] == header + pkt[12..16];
      output.Write(pkt[..16]);
    }

    method SendDisconnect(handle: uint32)
      requires output.Valid()
      modifies output
      ensures output.Valid()
      ensures output.unread == old(output.unread) + Encode(Disconnect(handle))
    {
      SendGenericPacket(1, handle);
      assert Encode(Disconnect(handle)) == Header(12, 1, handle);
    }

    method SendPausePressed(handle: uint32)
      requires output.Valid()
      modifies output
      ensures output.Valid()
      ensures output.unread == old(output.unread) + Encode(PausePressed(handle))
    {
      SendGenericPacket(4, handle);
      assert Encode(PausePressed(handle)) == Header(12, 4, handle);
    }

    method SendGenericPacket(kind: uint32, handle: uint32)
      requires output.Valid()
      modifies output
      ensures output.Valid()
      ensures output.unread == old(output.unread) + Header(12, kind, handle)
    {
      var pkt := new byte[CAPACITY];
      PutHeader(pkt, 12, kind, handle);
      output.Write(pkt[..12]);
    }
  }

  function Header(size: uint32, kind: uint32, handle: uint32): (b: seq<byte>)
    ensures |b| == 12
  {
    U32Bytes(size) + U32Bytes(kind) + U32Bytes(handle)
  }

  method PutHeader(pkt: array<byte>, size: uint32, kind: uint32, handle: uint32)
    requires pkt.Length == CAPACITY
    modifies pkt
    ensures pkt[..12] == Header(size, kind, handle)
  {
    PutBytes(pkt, 0, U32Bytes(size));
    PutBytes(pkt, 4, U32Bytes(kind));
    assert pkt[..8] == U32Bytes(size) + U32Bytes(kind);
    PutBytes(pkt, 8, U32Bytes(handle));
    assert pkt[..12] == U32Bytes(size) + U32Bytes(kind) + U32Bytes(handle);
  }
}
