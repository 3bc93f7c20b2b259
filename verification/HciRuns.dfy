/** The write hook, and reads and writes interleaved in any order. */
module HciRuns {
  import opened Bytes
  import opened HciFilters

  const COMMAND: byte := 1

  /** A buffer long enough for the hook to look at its type and opcode. */
  predicate Hookable(buf: seq<byte>) {
    buf != [] && (buf[0] == COMMAND ==> |buf| >= 3)
  }

  function Opcode(buf: seq<byte>): int
    requires Hookable(buf) && buf[0] == COMMAND
  {
    buf[2] as int * 0x100 + buf[1] as int
  }

  /** The packet a write filter sends instead of the one given, if any. */
  function Rewritten(k: Knowledge, buf: seq<byte>): Option<seq<byte>>
    requires Hookable(buf) && |k.local| == 6
  {
    if buf[0] != COMMAND then None
    else if Opcode(buf) == 0x0409 then
      if |buf| == 11 then Some(buf[10 := 0]) else None
    else if Opcode(buf) == 0x040D && |buf| == 27 && buf[4..10] in k.names && Contains(k.names[buf[4..10]], NINTENDO)
    then Some(Overlaid(buf[10 := 6], 11, k.local))
    else None
  }

  /**
   * What reaches the device: the filter's packet, with the original after it if the device did not accept the
   * first; or the original alone.
   */
  function Written(k: Knowledge, buf: seq<byte>, accepted: int): seq<seq<byte>>
    requires Hookable(buf) && |k.local| == 6
  {
    match Rewritten(k, buf)
    case None => [buf]
    case Some(p) => if accepted >= 1 then [p] else [p, buf]
  }

  // ----- reference: the writes, from what has been heard -----

  /** The codes of a text. */
  function Ascii(text: string): seq<int> {
    seq(|text|, i requires 0 <= i < |text| => text[i] as int)
  }

  lemma NintendoIsText()
    ensures NINTENDO == Ascii("Nintendo RVL-CNT-01")
  {
  }

  predicate IsPinReply(buf: seq<byte>) {
    |buf| == 27 && buf[..3] == [0x01, 0x0D, 0x04]
  }

  predicate IsAccept(buf: seq<byte>) {
    |buf| == 11 && buf[..3] == [0x01, 0x09, 0x04]
  }

  /** Some part of a name reads like a Wii Remote's. */
  predicate OfWiiRemote(name: Option<seq<byte>>) {
    name.Some? && exists i, j | 0 <= i <= j <= |name.value| :: name.value[i..j] == Ascii("Nintendo RVL-CNT-01")
  }

  /** The same reply with a six-byte PIN: only the length byte and the six bytes after it differ. */
  predicate OnlyPinChanged(buf: seq<byte>, out: seq<byte>, pin: seq<byte>)
    requires |buf| == 27 && |pin| == 6
  {
    && |out| == 27 && out[10] == 6 && out[11..17] == pin
    && (forall i | 0 <= i < 27 && !(10 <= i < 17) :: out[i] == buf[i])
  }

  /** What must reach the device for one write, given the name for the address in a PIN reply and the own address. */
  predicate ExpectedFor(name: Option<seq<byte>>, own: seq<byte>, buf: seq<byte>, accepted: int, out: seq<seq<byte>>)
    requires |own| == 6
  {
    if IsPinReply(buf) && OfWiiRemote(name) then
      out != [] && OnlyPinChanged(buf, out[0], own) && out[1..] == if accepted >= 1 then [] else [buf]
    else if IsAccept(buf) then
      out == [buf[10 := 0]] + if accepted >= 1 then [] else [buf]
    else out == [buf]
  }

  /** What must reach the device, given what was heard before, packet by packet. */
  predicate Expected(heard: seq<seq<byte>>, buf: seq<byte>, accepted: int, out: seq<seq<byte>>) {
    ExpectedFor(if |buf| == 27 then LatestName(heard, buf[4..10]) else None, FirstLocalAddress(heard), buf,
                accepted, out)
  }

  /** What must reach the device, given the whole packets that it has sent before. */
  predicate ExpectedAfter(packets: seq<seq<byte>>, buf: seq<byte>, accepted: int, out: seq<seq<byte>>) {
    ExpectedFor(if |buf| == 27 then AnnouncedName(packets, buf[4..10]) else None, AnnouncedAddress(packets), buf,
                accepted, out)
  }

  lemma ContainsText(name: seq<byte>)
    ensures Contains(name, NINTENDO) <==> OfWiiRemote(Some(name))
  {
    NintendoIsText();
    if Contains(name, NINTENDO) {
      var i :| 0 <= i <= |name| && StartsWith(name, i, NINTENDO);
      assert name[i..i + 19] == NINTENDO;
    }
    if OfWiiRemote(Some(name)) {
      var i, j :| 0 <= i <= j <= |name| && name[i..j] == Ascii("Nintendo RVL-CNT-01");
      assert |name[i..j]| == 19 && StartsWith(name, i, NINTENDO);
    }
  }

  lemma WrittenAsExpected(heard: seq<seq<byte>>, buf: seq<byte>, accepted: int)
    requires Hookable(buf)
    ensures |LearnAll(heard).local| == 6
    ensures Expected(heard, buf, accepted, Written(LearnAll(heard), buf, accepted))
  {
    LearnAllRecalls(heard);
    var k := LearnAll(heard);
    if |buf| >= 3 {
      assert IsPinReply(buf) <==> |buf| == 27 && buf[0] == COMMAND && Opcode(buf) == 0x040D;
      assert IsAccept(buf) <==> |buf| == 11 && buf[0] == COMMAND && Opcode(buf) == 0x0409;
    }
    if |buf| == 27 && buf[4..10] in k.names {
      ContainsText(k.names[buf[4..10]]);
    }
    if IsPinReply(buf) && OfWiiRemote(LatestName(heard, buf[4..10])) {
      var p := Overlaid(buf[10 := 6], 11, k.local);
      assert OnlyPinChanged(buf, p, k.local);
      assert Rewritten(k, buf) == Some(p);
    }
  }

  // ----- interleaved runs -----

  /** A successful read of some bytes, or a write with the result of the first device write it makes. */
  datatype Action = Arrives(chunk: seq<byte>) | Sends(buf: seq<byte>, accepted: int)

  /** heard is the raw bytes of every packet read so far, the last perhaps in part. */
  datatype Hook = Hook(reader: Reader, heard: seq<seq<byte>>, device: seq<seq<byte>>)

  function Hear(heard: seq<seq<byte>>, inside: bool, chunk: seq<byte>): seq<seq<byte>> {
    if inside && heard != [] then heard[..|heard| - 1] + [heard[|heard| - 1] + chunk] else heard + [chunk]
  }

  predicate Enabled(h: Hook, a: Action) {
    |h.reader.known.local| == 6 && if a.Arrives? then a.chunk != [] else Hookable(a.buf)
  }

  function Next(h: Hook, a: Action): Option<Hook>
    requires Enabled(h, a)
  {
    match a
    case Arrives(chunk) =>
      (match Read(h.reader, chunk)
       case None => None
       case Some(s) => Some(Hook(s.reader, Hear(h.heard, h.reader.context != [], chunk), h.device)))
    case Sends(buf, accepted) =>
      Some(h.(device := h.device + Written(h.reader.known, buf, accepted)))
  }

  /** Actions of a run during which the filter has not left its buffers. */
  predicate Possible(actions: seq<Action>)
    decreases |actions|, 0
  {
    actions == [] ||
    var before := actions[..|actions| - 1];
    Possible(before) && Execute(before).Some? && Enabled(Execute(before).value, actions[|actions| - 1])
  }

  function Execute(actions: seq<Action>): Option<Hook>
    requires Possible(actions)
    decreases |actions|, 1
  {
    if actions == [] then Some(Hook(Reader([], Nothing()), [], []))
    else Next(Execute(actions[..|actions| - 1]).value, actions[|actions| - 1])
  }

  /** The context is the packet under way, patched if it is to be; what is known is what was heard. */
  predicate Remembers(h: Hook) {
    && h.reader.known == LearnAll(h.heard)
    && (h.reader.context != [] ==>
          h.heard != [] && HasHeader(h.heard[|h.heard| - 1]) && h.reader.context == Patched(h.heard[|h.heard| - 1]))
  }

  lemma ArrivalRemembered(h: Hook, chunk: seq<byte>)
    requires Remembers(h) && chunk != [] && Read(h.reader, chunk).Some?
    ensures Remembers(Hook(Read(h.reader, chunk).value.reader, Hear(h.heard, h.reader.context != [], chunk), h.device))
  {
    var heard' := Hear(h.heard, h.reader.context != [], chunk);
    var last := heard'[|heard'| - 1];
    if h.reader.context == [] {
      assert heard'[..|heard'| - 1] == h.heard && [] + chunk == chunk;
    } else {
      var before, c := h.heard[..|h.heard| - 1], h.heard[|h.heard| - 1];
      assert heard'[..|heard'| - 1] == before;
      if IsPeripheral(c) {
        assert false;
      }
      LearnPrefix(LearnAll(before), c, c + chunk);
    }
  }

  lemma {:induction false} RunRemembers(actions: seq<Action>)
    requires Possible(actions) && Execute(actions).Some?
    ensures Remembers(Execute(actions).value)
  {
    if actions != [] {
      var before, a := actions[..|actions| - 1], actions[|actions| - 1];
      RunRemembers(before);
      if a.Arrives? {
        ArrivalRemembered(Execute(before).value, a.chunk);
      }
    }
  }

  /**
   * PIN rewriting against the hook's own log: over any interleaving of reads and writes, however the bytes fall
   * into packets, a write reaches the device as the packets heard before it demand. It reaches it exactly once
   * when the device accepts it; a PIN reply is altered exactly when the latest name heard for its address is a
   * Wii Remote's, and then only in its PIN.
   */
  lemma WriteReachesDevice(actions: seq<Action>, buf: seq<byte>, accepted: int)
    requires Possible(actions) && Execute(actions).Some? && Hookable(buf)
    ensures var h := Execute(actions).value;
            && Enabled(h, Sends(buf, accepted))
            && var device := Next(h, Sends(buf, accepted)).value.device;
               && h.device <= device && Expected(h.heard, buf, accepted, device[|h.device|..])
               && (accepted >= 1 ==> |device| == |h.device| + 1)
  {
    RunRemembers(actions);
    SendsAsExpected(Execute(actions).value, Execute(actions).value.heard, buf, accepted);
  }

  // ----- runs against what the Bluetooth device sent -----

  /** What the reads of a run delivered, in order. */
  function Arrivals(actions: seq<Action>): seq<seq<byte>> {
    if actions == [] then []
    else
      var last := actions[|actions| - 1];
      Arrivals(actions[..|actions| - 1]) + if last.Arrives? then [last.chunk] else []
  }

  /** Writes in between make no difference to the reader. */
  lemma {:induction false} RunReads(actions: seq<Action>)
    requires Possible(actions)
    ensures var r := ReadAll(Reader([], Nothing()), Arrivals(actions));
            && (Execute(actions).Some? <==> r.Some?)
            && (r.Some? ==> Execute(actions).value.reader == r.value.reader)
  {
    if actions != [] {
      var before, a := actions[..|actions| - 1], actions[|actions| - 1];
      RunReads(before);
      if a.Arrives? {
        ReadLast(Some(Seen(Reader([], Nothing()), [])), Arrivals(before), a.chunk);
      } else {
        assert Arrivals(before) + [] == Arrivals(before);
      }
    }
  }

  /** What one more write does, given the packets that have taught the filter what it knows. */
  lemma SendsAsExpected(h: Hook, heard: seq<seq<byte>>, buf: seq<byte>, accepted: int)
    requires h.reader.known == LearnAll(heard) && Hookable(buf)
    ensures Enabled(h, Sends(buf, accepted))
    ensures var device := Next(h, Sends(buf, accepted)).value.device;
            && h.device <= device && Expected(heard, buf, accepted, device[|h.device|..])
            && (accepted >= 1 ==> |device| == |h.device| + 1)
  {
    WrittenAsExpected(heard, buf, accepted);
    var out := Written(h.reader.known, buf, accepted);
    assert (h.device + out)[|h.device|..] == out;
  }

  /**
   * PIN rewriting against the device's own packets: when the reads of a run bring the packets ds, split in any
   * way the filter can cope with and with writes anywhere in between, the run does not fault, and a PIN reply is
   * altered exactly when the latest name event among ds for its address names a Wii Remote.
   */
  lemma PinFollowsPackets(actions: seq<Action>, ds: seq<Delivery>, buf: seq<byte>, accepted: int)
    requires Possible(actions) && Arrivals(actions) == ChunksOf(ds) && Hookable(buf)
    requires forall i | 0 <= i < |ds| :: ds[i].Fine()
    ensures Execute(actions).Some? && Enabled(Execute(actions).value, Sends(buf, accepted))
    ensures var h := Execute(actions).value;
            var device := Next(h, Sends(buf, accepted)).value.device;
            && h.device <= device && ExpectedAfter(PacketsOf(ds), buf, accepted, device[|h.device|..])
            && (accepted >= 1 ==> |device| == |h.device| + 1)
  {
    RunReads(actions);
    StreamTransparency(ds);
    SendsAsExpected(Execute(actions).value, PacketsOf(ds), buf, accepted);
    ExpectedAlike(PacketsOf(ds), buf);
  }

  lemma ExpectedAlike(packets: seq<seq<byte>>, buf: seq<byte>)
    requires Whole(packets)
    ensures forall accepted, out ::
              Expected(packets, buf, accepted, out) <==> ExpectedAfter(packets, buf, accepted, out)
  {
    AnnouncedIsFirst(packets);
    if |buf| == 27 {
      AnnouncedIsLatest(packets, buf[4..10]);
    }
  }

  /** The same between the reads of a packet p: what has arrived of it counts as far as it goes. */
  lemma PinInsidePacket(actions: seq<Action>, ds: seq<Delivery>, p: seq<byte>, chunks: seq<seq<byte>>,
                        buf: seq<byte>, accepted: int)
    requires Possible(actions) && Arrivals(actions) == ChunksOf(ds) + chunks && Hookable(buf)
    requires forall i | 0 <= i < |ds| :: ds[i].Fine()
    requires Followed(p) && chunks != [] && NonEmpty(chunks) && Flatten(chunks) < p
    ensures Flatten(chunks) != [] && (Execute(actions).Some? <==> InReach(Flatten(chunks), chunks))
    ensures Execute(actions).Some? ==>
              var h := Execute(actions).value;
              && Enabled(h, Sends(buf, accepted))
              && var device := Next(h, Sends(buf, accepted)).value.device;
                 && h.device <= device && h.reader.context == Patched(Flatten(chunks))
                 && Expected(PacketsOf(ds) + [Flatten(chunks)], buf, accepted, device[|h.device|..])
                 && (accepted >= 1 ==> |device| == |h.device| + 1)
  {
    RunReads(actions);
    MidStream(ds, p, chunks);
    if Execute(actions).Some? {
      SendsAsExpected(Execute(actions).value, PacketsOf(ds) + [Flatten(chunks)], buf, accepted);
    }
  }

  function CountSends(actions: seq<Action>): nat {
    if actions == [] then 0
    else CountSends(actions[..|actions| - 1]) + if actions[|actions| - 1].Sends? then 1 else 0
  }

  /** With a device that accepts every write, it has received exactly as many packets as were written. */
  lemma {:induction false} WritesConserved(actions: seq<Action>)
    requires Possible(actions) && Execute(actions).Some?
    requires forall i | 0 <= i < |actions| :: actions[i].Sends? ==> actions[i].accepted >= 1
    ensures |Execute(actions).value.device| == CountSends(actions)
  {
    if actions != [] {
      WritesConserved(actions[..|actions| - 1]);
    }
  }
}
