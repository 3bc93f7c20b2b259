/** The filter's static state and its hooks, patching the caller's buffer in place. */
module HciObjects {
  import opened Bytes
  import opened HciFilters
  import opened HciRuns

  class HciFilter {
    var context: seq<byte>
    var deviceNames: map<seq<byte>, seq<byte>>
    const localAddress: array<byte>
    /** Whether the Command Complete filter is still in the table. */
    var watching: bool
    /** The packets handed to the Bluetooth device. */
    var device: seq<seq<byte>>

    ghost function View(): Reader
      reads this, localAddress
    {
      Reader(context, Knowledge(deviceNames, localAddress[..], !watching))
    }

    ghost predicate Valid()
      reads this
    {
      localAddress.Length == 6
    }

    constructor ()
      ensures Valid() && fresh(localAddress) && View() == Reader([], Nothing()) && device == []
    {
      localAddress := new byte[6](_ => 0);
      context, deviceNames, watching, device := [], map[], true, [];
      new;
      assert localAddress[..] == Zeros(6);
    }

    /**
     * ReadContext::WriteByte: into the context, and into the part of it that this read put in the buffer. Offsets
     * past the context are ignored, except the one just behind it. Here and below fault is an access outside the
     * context or the buffer, with which the model ends.
     */
    method WriteByte(at: nat, value: byte, data: array<byte>, offset: nat) returns (fault: bool)
      modifies this`context, data
      ensures fault <==> at == |old(context)| || (at < |old(context)| && !(offset <= at < offset + data.Length))
      ensures fault ==> data[..] == old(data[..])
      ensures !fault ==> context == if at < |old(context)| then old(context)[at := value] else old(context)
      ensures !fault ==> data[..] == if at < |context| then old(data[..])[at - offset := value] else old(data[..])
    {
      if at > |context| {
        return false;
      }
      if at == |context| {
        return true;
      }
      context := context[at := value];
      if at < offset + |context| {
        if !(offset <= at < offset + data.Length) {
          return true;
        }
        data[at - offset] := value;
      }
      return false;
    }

    method FilterRemoteNameRequestComplete()
      requires Valid() && |context| >= 3 && context[0] == EVENT && context[1] == 0x07
      modifies this`deviceNames
      ensures View() == Reader(context, Learn(old(View()).known, context))
      ensures deviceNames == if |context| >= 255 then old(deviceNames)[context[4..10] := CString(context[10..])]
                             else old(deviceNames)
    {
      if |context| < 255 {
        return;
      }
      deviceNames := deviceNames[context[4..10] := CString(context[10..])];
    }

    method FilterCommandComplete()
      requires Valid() && |context| >= 3 && context[0] == EVENT && context[1] == 0x0E && watching
      modifies this`watching, localAddress
      ensures View() == Reader(context, Learn(old(View()).known, context))
      ensures if |context| >= 13 && context[4..6] == [0x09, 0x10] then !watching && localAddress[..] == context[7..13]
              else watching && localAddress[..] == old(localAddress[..])
    {
      if |context| < 13 || context[4] != 0x09 || context[5] != 0x10 {
        return;
      }
      forall i | 0 <= i < 6 {
        localAddress[i] := context[7 + i];
      }
      watching := false;
      assert localAddress[..] == context[7..13];
    }

    method FilterInquiryResult(data: array<byte>, offset: nat) returns (fault: bool)
      requires |context| >= 3 && context[0] == EVENT && (context[1] == 0x22 || context[1] == 0x2F)
      requires offset <= |context| && |context| - offset <= data.Length
      modifies this`context, data
      ensures fault <==> IsPeripheral(old(context)) && offset > 12
      ensures fault ==> data[..] == old(data[..])
      ensures !fault ==> context == Patched(old(context))
      ensures !fault ==>
                data[..] == if IsPeripheral(old(context)) then old(data[..])[12 - offset := 0x40] else old(data[..])
    {
      if |context| < 0x10 || context[3] != 1 {
        return false;
      }
      if context[13] % 0x20 == 0x05 {
        fault := WriteByte(12, 0x40, data, offset);
        return;
      }
      return false;
    }

    /** The entry for an event in the table of filters, if it has one. */
    method Filter(data: array<byte>, offset: nat) returns (fault: bool)
      requires Valid() && data != localAddress && HasHeader(context)
      requires offset <= |context| && |context| - offset <= data.Length
      modifies this`context, this`deviceNames, this`watching, localAddress, data
      ensures Valid() && (fault <==> IsPeripheral(old(context)) && offset > 12)
      ensures fault ==> data[..] == old(data[..])
      ensures !fault ==> context == Patched(old(context)) && View().known == Learn(old(View()).known, old(context))
      ensures !fault ==>
                data[..] == if IsPeripheral(old(context)) then old(data[..])[12 - offset := 0x40] else old(data[..])
    {
      fault := false;
      if context[0] == EVENT {
        if context[1] == 0x07 {
          FilterRemoteNameRequestComplete();
        } else if context[1] == 0x0E && watching {
          FilterCommandComplete();
        } else if context[1] == 0x22 || context[1] == 0x2F {
          fault := FilterInquiryResult(data, offset);
        }
      }
    }

    /**
     * The read hook, once the device has put n bytes at the front of the caller's buffer. A context without a
     * whole header is a fault, as its length is read from behind its end.
     */
    method ReadHook(data: array<byte>, n: nat) returns (fault: bool)
      requires Valid() && data != localAddress && n <= data.Length
      modifies this`context, this`deviceNames, this`watching, localAddress, data
      ensures Valid() && data[n..] == old(data[n..])
      ensures n == 0 ==> !fault && View() == old(View()) && data[..] == old(data[..])
      ensures n > 0 ==> Read(old(View()), old(data[..n])) == if fault then None else Some(Seen(View(), data[..n]))
    {
      if n < 1 {
        return false;
      }
      ghost var before := data[..];
      var offset := |context|;
      context := context + data[..n];
      ghost var c := context;
      if !HasHeader(context) {
        return true;
      }
      var size := |context|;
      var pktSize := PacketSize(context);
      fault := Filter(data, offset);
      if fault {
        return;
      }
      SeenIs(c, offset, before, data[..], n);
      if size >= pktSize {
        context := [];
      }
    }

    /** The write hook; accepted is the result of the first write that the device sees. */
    method WriteHook(buf: seq<byte>, accepted: int)
      requires Valid() && Hookable(buf)
      modifies this`device
      ensures device == old(device) + Written(View().known, buf, accepted)
    {
      var handled := 0;
      if buf[0] == COMMAND {
        var opcode: int := buf[2] as int * 0x100 + buf[1] as int;
        if opcode == 0x0409 {
          handled := FilterAcceptConnectionRequest(buf, accepted);
        } else if opcode == 0x040D {
          handled := FilterPINCodeRequestReply(buf, accepted);
        }
      }
      if handled < 1 {
        device := device + [buf];
      }
    }

    method FilterAcceptConnectionRequest(buf: seq<byte>, accepted: int) returns (handled: int)
      requires Valid() && Hookable(buf) && buf[0] == COMMAND && Opcode(buf) == 0x0409
      modifies this`device
      ensures var r := Rewritten(View().known, buf);
              && handled == (if r.Some? then accepted else 0)
              && device == old(device) + (if r.Some? then [r.value] else [])
    {
      if |buf| == 11 {
        device := device + [buf[10 := 0]];
        return accepted;
      }
      return 0;
    }

    method FilterPINCodeRequestReply(buf: seq<byte>, accepted: int) returns (handled: int)
      requires Valid() && Hookable(buf) && buf[0] == COMMAND && Opcode(buf) == 0x040D
      modifies this`device
      ensures var r := Rewritten(View().known, buf);
              && handled == (if r.Some? then accepted else 0)
              && device == old(device) + (if r.Some? then [r.value] else [])
    {
      if |buf| == 27 {
        if buf[4..10] !in deviceNames {
          return 0;
        }
        var found := FindText(deviceNames[buf[4..10]], NINTENDO);
        if !found {
          return 0;
        }
        var newPacket := buf[10 := 6];
        newPacket := Overlaid(newPacket, 11, localAddress[..]);
        device := device + [newPacket];
        return accepted;
      }
      return 0;
    }
  }

  /** std::string::find from the start. */
  method FindText(s: seq<byte>, t: seq<byte>) returns (found: bool)
    ensures found <==> Contains(s, t)
  {
    var i := 0;
    while i <= |s|
      invariant 0 <= i <= |s| + 1
      invariant forall j | 0 <= j < i :: !StartsWith(s, j, t)
    {
      if i + |t| <= |s| && s[i..i + |t|] == t {
        assert StartsWith(s, i, t);
        return true;
      }
      i := i + 1;
    }
    return false;
  }

  /** The buffer after the filters holds the end of the patched packet. */
  lemma SeenIs(c: seq<byte>, offset: nat, before: seq<byte>, after: seq<byte>, n: nat)
    requires n <= |before| && offset + n == |c| && c[offset..] == before[..n]
    requires IsPeripheral(c) ==> offset <= 12
    requires after == if IsPeripheral(c) then before[12 - offset := 0x40] else before
    ensures after[..n] == Patched(c)[offset..] && after[n..] == before[n..]
  {
  }
}
