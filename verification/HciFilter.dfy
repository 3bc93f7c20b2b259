/** The hooks on BTServer's Bluetooth socket: packets patched and remembered as they stream through. */
module HciFilters {
  import opened Bytes

  /** What the read filters have learnt. captured means the Command Complete filter has removed itself. */
  datatype Knowledge = Knowledge(names: map<seq<byte>, seq<byte>>, local: seq<byte>, captured: bool)

  function Nothing(): Knowledge {
    Knowledge(map[], Zeros(6), false)
  }

  const EVENT: byte := 4
  const ACL_DATA: byte := 2

  /** "Nintendo RVL-CNT-01" */
  const NINTENDO: seq<byte> :=
    [78, 105, 110, 116, 101, 110, 100, 111, 32, 82, 86, 76, 45, 67, 78, 84, 45, 48, 49]

  /** How many bytes must be there before the type and length of a packet can be read. */
  function HeaderLength(kind: byte): nat {
    if kind == EVENT then 3 else if kind == ACL_DATA then 5 else 1
  }

  predicate HasHeader(c: seq<byte>) {
    c != [] && HeaderLength(c[0]) <= |c|
  }

  /** The size a packet announces; 0 for types that are not followed. */
  function PacketSize(c: seq<byte>): nat
    requires HasHeader(c)
  {
    if c[0] == EVENT then c[2] + 3
    else if c[0] == ACL_DATA then c[3] as int + 0x100 * c[4] as int + 5
    else 0
  }

  function CString(b: seq<byte>): (s: seq<byte>)
    ensures s <= b && 0 !in s
    ensures s == b || b[|s|] == 0
  {
    if b == [] || b[0] == 0 then [] else [b[0]] + CString(b[1..])
  }

  predicate StartsWith(s: seq<byte>, i: nat, t: seq<byte>) {
    i + |t| <= |s| && s[i..i + |t|] == t
  }

  predicate Contains(s: seq<byte>, t: seq<byte>) {
    exists i | 0 <= i <= |s| :: StartsWith(s, i, t)
  }

  // ----- the read side -----

  predicate IsName(c: seq<byte>) {
    |c| >= 255 && c[0] == EVENT && c[1] == 0x07
  }

  predicate IsLocalAddress(c: seq<byte>) {
    |c| >= 13 && c[0] == EVENT && c[1] == 0x0E && c[4] == 0x09 && c[5] == 0x10
  }

  /** A single-response inquiry event about a Peripheral. */
  predicate IsPeripheral(c: seq<byte>) {
    |c| >= 16 && c[0] == EVENT && (c[1] == 0x22 || c[1] == 0x2F) && c[3] == 1 && c[13] % 0x20 == 0x05
  }

  /** The name and local-address filters, called with the packet as far as it has been read. */
  function Learn(k: Knowledge, c: seq<byte>): Knowledge {
    if IsName(c) then k.(names := k.names[c[4..10] := CString(c[10..])])
    else if IsLocalAddress(c) && !k.captured then k.(local := c[7..13], captured := true)
    else k
  }

  function Patched(c: seq<byte>): (p: seq<byte>)
    ensures |p| == |c|
  {
    if IsPeripheral(c) then c[12 := 0x40] else c
  }

  /** The packet under way and what has been learnt; seen is what the caller's buffer holds after the read. */
  datatype Reader = Reader(context: seq<byte>, known: Knowledge)

  datatype Seen = Seen(reader: Reader, seen: seq<byte>)

  /**
   * The read hook given the bytes of one read; None when it would index outside the packet or the caller's
   * buffer: a header that is not all there, or a patch of a byte that an earlier read delivered.
   */
  function Read(r: Reader, chunk: seq<byte>): (s: Option<Seen>)
    ensures s.Some? ==> |s.value.seen| == |chunk|
  {
    var offset, c := |r.context|, r.context + chunk;
    if !HasHeader(c) then None
    else if IsPeripheral(c) && offset > 12 then None
    else
      var seen := Patched(c)[offset..];
      Some(Seen(Reader(if |c| >= PacketSize(c) then [] else Patched(c), Learn(r.known, c)), seen))
  }

  /** A further read after some that have gone well, with the bytes the caller has seen so far. */
  function ReadOn(s: Option<Seen>, chunk: seq<byte>): Option<Seen> {
    if s == None then None
    else
      match Read(s.value.reader, chunk)
      case None => None
      case Some(t) => Some(Seen(t.reader, s.value.seen + t.seen))
  }

  function ReadFrom(s: Option<Seen>, chunks: seq<seq<byte>>): Option<Seen> {
    if chunks == [] then s else ReadOn(ReadFrom(s, chunks[..|chunks| - 1]), chunks[|chunks| - 1])
  }

  /** Successive reads, and all the bytes the caller sees. */
  function ReadAll(r: Reader, chunks: seq<seq<byte>>): Option<Seen> {
    ReadFrom(Some(Seen(r, [])), chunks)
  }

  lemma ReadLast(s: Option<Seen>, chunks: seq<seq<byte>>, chunk: seq<byte>)
    ensures ReadFrom(s, chunks + [chunk]) == ReadOn(ReadFrom(s, chunks), chunk)
    ensures Flatten(chunks + [chunk]) == Flatten(chunks) + chunk
  {
    assert (chunks + [chunk])[..|chunks|] == chunks;
    FlattenAppend(chunks, [chunk]);
    assert Flatten([chunk]) == chunk + Flatten([]);
  }

  lemma {:induction false} ReadFromSplit(s: Option<Seen>, a: seq<seq<byte>>, b: seq<seq<byte>>)
    ensures ReadFrom(s, a + b) == ReadFrom(ReadFrom(s, a), b)
  {
    if b == [] {
      assert a + b == a;
    } else {
      assert (a + b)[..|a + b| - 1] == a + b[..|b| - 1];
      ReadFromSplit(s, a, b[..|b| - 1]);
    }
  }

  function Prepended(pre: seq<byte>, s: Option<Seen>): Option<Seen> {
    if s == None then None else Some(Seen(s.value.reader, pre + s.value.seen))
  }

  lemma ReadOnPrepends(pre: seq<byte>, s: Option<Seen>, chunk: seq<byte>)
    ensures ReadOn(Prepended(pre, s), chunk) == Prepended(pre, ReadOn(s, chunk))
  {
    if s.Some? {
      var t := Read(s.value.reader, chunk);
      if t.Some? {
        assert (pre + s.value.seen) + t.value.seen == pre + (s.value.seen + t.value.seen);
      }
    }
  }

  /** Earlier reads only put their bytes in front of what later ones show. */
  lemma {:induction false} ReadFromPrepends(pre: seq<byte>, s: Option<Seen>, chunks: seq<seq<byte>>)
    ensures ReadFrom(Prepended(pre, s), chunks) == Prepended(pre, ReadFrom(s, chunks))
  {
    if chunks != [] {
      var before, chunk := chunks[..|chunks| - 1], chunks[|chunks| - 1];
      ReadFromPrepends(pre, s, before);
      ReadOnPrepends(pre, ReadFrom(s, before), chunk);
    }
  }

  predicate IsFollowed(kind: byte) {
    kind == EVENT || kind == ACL_DATA
  }

  /** A whole packet of a type that is followed. */
  predicate Followed(p: seq<byte>) {
    HasHeader(p) && IsFollowed(p[0]) && |p| == PacketSize(p)
  }

  predicate NonEmpty(chunks: seq<seq<byte>>) {
    forall i | 0 <= i < |chunks| :: chunks[i] != []
  }

  /** A packet of the device, and reads that deliver it alone. */
  predicate Splits(p: seq<byte>, chunks: seq<seq<byte>>) {
    chunks != [] && Flatten(chunks) == p && NonEmpty(chunks) && (Followed(p) || (p != [] && !IsFollowed(p[0])))
  }

  /** An event, or ACL data, whose length bytes count what follows them. */
  predicate CountsItself(p: seq<byte>) {
    || (|p| >= 3 && p[0] == 0x04 && p[2] == |p| - 3)
    || (|p| >= 5 && p[0] == 0x02 && p[3] == (|p| - 5) % 0x100 && p[4] == (|p| - 5) / 0x100)
  }

  lemma FollowedExactly(p: seq<byte>)
    ensures Followed(p) <==> CountsItself(p)
  {
  }

  /** The bytes heard of an event show a single response, about a Peripheral. */
  predicate SaysPeripheral(c: seq<byte>) {
    && |c| >= 16 && c[0] == 0x04 && (c[1] == 0x22 || c[1] == 0x2F)
    && c[3] == 1 && c[13] as int - c[13] / 0x20 * 0x20 == 0x05
  }

  /**
   * Reads that bring the bytes c from the start of a packet without taking the filter out of its buffers: the
   * first holds the header, and if byte 12 is to be patched, the last one brought it.
   */
  predicate InReach(c: seq<byte>, chunks: seq<seq<byte>>)
    requires c != [] && chunks != []
  {
    && (c[0] == 0x04 ==> |chunks[0]| >= 3) && (c[0] == 0x02 ==> |chunks[0]| >= 5)
    && (SaysPeripheral(c) ==> |c| - |chunks[|chunks| - 1]| <= 12)
  }

  /** The reads the filter can cope with; the reads of a type not followed are each taken for a packet. */
  predicate Readable(p: seq<byte>, chunks: seq<seq<byte>>)
    requires Splits(p, chunks)
  {
    if Followed(p) then InReach(p, chunks) else forall i | 0 <= i < |chunks| :: !IsFollowed(chunks[i][0])
  }

  /** Having seen a prefix of the packet before makes no difference to what the whole of it teaches. */
  lemma LearnPrefix(k: Knowledge, c: seq<byte>, d: seq<byte>)
    requires c <= d
    ensures Learn(Learn(k, c), d) == Learn(k, d)
  {
    if IsName(c) {
      assert c[4..10] == d[4..10];
      var key, once := c[4..10], k.names[c[4..10] := CString(c[10..])];
      assert once[key := CString(d[10..])] == k.names[key := CString(d[10..])];
    } else if IsLocalAddress(c) {
      assert c[7..13] == d[7..13];
    }
  }

  /** One more read in the middle of a packet that is not yet known to be an inquiry about a Peripheral. */
  lemma ReadMore(k: Knowledge, p: seq<byte>, c: seq<byte>, chunk: seq<byte>)
    requires Followed(p) && c + chunk <= p && chunk != []
    requires c != [] ==> HasHeader(c) && !IsPeripheral(c)
    ensures var (d, r) := (c + chunk, Read(Reader(c, Learn(k, c)), chunk));
            if |d| < HeaderLength(p[0]) || (IsPeripheral(d) && |c| > 12) then r == None
            else r == Some(Seen(Reader(if d == p then [] else Patched(d), Learn(k, d)), Patched(d)[|c|..]))
  {
    var d := c + chunk;
    assert d[0] == p[0];
    LearnPrefix(k, c, d);
    if HasHeader(d) {
      assert PacketSize(d) == PacketSize(p);
    }
    assert d == p <==> |d| == |p|;
  }

  lemma HeaderStays(chunks: seq<seq<byte>>)
    requires chunks != [] && chunks[0] != [] && HeaderLength(chunks[0][0]) <= |chunks[0]|
    ensures HasHeader(Flatten(chunks)) && chunks[0] <= Flatten(chunks)
  {
  }

  lemma FirstByte(chunks: seq<seq<byte>>)
    requires chunks != [] && chunks[0] != []
    ensures Flatten(chunks) != [] && Flatten(chunks)[0] == chunks[0][0]
  {
  }

  /** What the reads of part of a packet leave: the part as the context, and the same before the caller. */
  function PartRead(k: Knowledge, chunks: seq<seq<byte>>): Option<Seen>
    requires NonEmpty(chunks)
  {
    var part := Flatten(chunks);
    if chunks == [] then Some(Seen(Reader([], k), []))
    else
      FirstByte(chunks);
      if InReach(part, chunks) then Some(Seen(Reader(Patched(part), Learn(k, part)), Patched(part))) else None
  }

  /** A packet already patched is patched again at the next read, behind the front of the caller's buffer. */
  lemma PatchedTwice(k: Knowledge, c: seq<byte>, chunk: seq<byte>)
    requires IsPeripheral(c)
    ensures Read(Reader(Patched(c), k), chunk) == None && IsPeripheral(c + chunk)
  {
    assert IsPeripheral(Patched(c) + chunk);
  }

  lemma SeenTogether(c: seq<byte>, chunk: seq<byte>)
    ensures IsPeripheral(c + chunk) ==> |c| > 12 || c + Patched(c + chunk)[|c|..] == Patched(c + chunk)
    ensures !IsPeripheral(c + chunk) ==> c + Patched(c + chunk)[|c|..] == c + chunk
  {
  }

  /** One more read, up to the end of the packet or short of it. */
  lemma NextRead(k: Knowledge, p: seq<byte>, before: seq<seq<byte>>, chunk: seq<byte>)
    requires Followed(p) && NonEmpty(before) && chunk != []
    requires Flatten(before) + chunk <= p
    ensures var (d, chunks) := (Flatten(before) + chunk, before + [chunk]);
            ReadOn(PartRead(k, before), chunk) ==
            if InReach(d, chunks)
            then Some(Seen(Reader(if d == p then [] else Patched(d), Learn(k, d)), Patched(d)))
            else None
  {
    var c := Flatten(before);
    if before == [] {
      ReadMore(k, p, [], chunk);
      assert [] + chunk == chunk && [] + Patched(chunk)[0..] == Patched(chunk);
    } else {
      FirstByte(before);
      if InReach(c, before) {
        HeaderStays(before);
        if IsPeripheral(c) {
          PatchedTwice(Learn(k, c), c, chunk);
        } else {
          ReadMore(k, p, c, chunk);
          SeenTogether(c, chunk);
        }
      } else if IsPeripheral(c) {
        PatchedTwice(k, c, chunk);
      }
    }
  }

  /**
   * Reads that stay short of the end of a packet: the filter faults exactly if they are not in reach, and
   * otherwise the context is the prefix consumed so far, patched if it shows a Peripheral, what has been learnt is
   * what that prefix teaches, and the caller has seen the same bytes.
   */
  lemma {:induction false} ReadPrefix(k: Knowledge, p: seq<byte>, chunks: seq<seq<byte>>)
    requires Followed(p) && NonEmpty(chunks) && Flatten(chunks) < p
    ensures ReadAll(Reader([], k), chunks) == PartRead(k, chunks)
  {
    if chunks != [] {
      var before, chunk := chunks[..|chunks| - 1], chunks[|chunks| - 1];
      assert chunks == before + [chunk];
      ReadLast(Some(Seen(Reader([], k), [])), before, chunk);
      ReadPrefix(k, p, before);
      NextRead(k, p, before, chunk);
    }
  }

  /** A read that stands for itself: of another type, and with no packet under way. */
  lemma PassesAlone(k: Knowledge, pre: seq<byte>, chunk: seq<byte>)
    requires chunk != [] && !IsFollowed(chunk[0])
    ensures ReadOn(Some(Seen(Reader([], k), pre)), chunk) == Some(Seen(Reader([], k), pre + chunk))
  {
  }

  /** Reads of which none begins like an event or ACL data pass, whatever packet they are the pieces of. */
  lemma {:induction false} UnfollowedReads(k: Knowledge, chunks: seq<seq<byte>>)
    requires NonEmpty(chunks) && forall i | 0 <= i < |chunks| :: !IsFollowed(chunks[i][0])
    ensures ReadAll(Reader([], k), chunks) == Some(Seen(Reader([], k), Flatten(chunks)))
  {
    if chunks != [] {
      var before, chunk := chunks[..|chunks| - 1], chunks[|chunks| - 1];
      assert chunks == before + [chunk];
      UnfollowedReads(k, before);
      ReadLast(Some(Seen(Reader([], k), [])), before, chunk);
      PassesAlone(k, Flatten(before), chunk);
    }
  }

  lemma FollowedReads(k: Knowledge, p: seq<byte>, chunks: seq<seq<byte>>)
    requires Splits(p, chunks) && Followed(p)
    ensures ReadAll(Reader([], k), chunks) ==
            if Readable(p, chunks) then Some(Seen(Reader([], Learn(k, p)), Patched(p))) else None
  {
    var before, chunk := chunks[..|chunks| - 1], chunks[|chunks| - 1];
    assert chunks == before + [chunk];
    ReadLast(Some(Seen(Reader([], k), [])), before, chunk);
    ReadPrefix(k, p, before);
    NextRead(k, p, before, chunk);
  }

  /** The reads of a packet pass when the caller sees it patched and nothing is left under way. */
  predicate Passes(k: Knowledge, p: seq<byte>, chunks: seq<seq<byte>>) {
    ReadAll(Reader([], k), chunks) == Some(Seen(Reader([], Learn(k, p)), Patched(p)))
  }

  /**
   * When a packet passes the filter. An event or ACL data: exactly if the first read holds its header and, when
   * it is an inquiry event to be patched, its last read starts no later than byte 12; otherwise the filter
   * leaves its buffers. Any other type: if none of its reads begins like an event or ACL data.
   */
  lemma ReadTransparency(k: Knowledge, p: seq<byte>, chunks: seq<seq<byte>>)
    requires Splits(p, chunks)
    ensures Readable(p, chunks) ==> Passes(k, p, chunks)
    ensures Followed(p) && !Readable(p, chunks) ==> ReadAll(Reader([], k), chunks) == None
  {
    if Followed(p) {
      FollowedReads(k, p, chunks);
    } else if Readable(p, chunks) {
      UnfollowedReads(k, chunks);
      assert p[0] == chunks[0][0];
    }
  }

  // ----- packets of other types, of which each read counts as a packet -----

  function Lengths(chunks: seq<seq<byte>>): (ns: seq<nat>)
    ensures |ns| == |chunks|
  {
    seq(|chunks|, i requires 0 <= i < |chunks| => |chunks[i]|)
  }

  /** Every packet of this type that is read in pieces of these lengths passes. */
  ghost predicate AlwaysPasses(k: Knowledge, kind: byte, lengths: seq<nat>) {
    forall chunks | Lengths(chunks) == lengths && chunks != [] && chunks[0] != [] && chunks[0][0] == kind ::
      Passes(k, Flatten(chunks), chunks)
  }

  /** A piece that begins like an inquiry event of the greatest length, about one Peripheral. */
  function Decoy(n: nat): (d: seq<byte>)
    requires n > 0
    ensures |d| == n && d[0] == EVENT
  {
    seq(n, i requires 0 <= i < n =>
      if i == 0 then EVENT else if i == 1 then 0x22 else if i == 2 then 255 else if i == 3 then 1
      else if i == 13 then 0x05 else 0)
  }

  lemma DecoyBytes(n: nat)
    requires n > 0
    ensures n >= 3 ==> PacketSize(Decoy(n)) == 258
    ensures n >= 258 ==> IsPeripheral(Decoy(n)) && Decoy(n)[12] == 0
  {
  }

  /** The filter faults on it, keeps it as a packet under way, or patches it. */
  lemma DecoyFails(k: Knowledge, pre: seq<byte>, n: nat)
    requires n > 0
    ensures var r := ReadOn(Some(Seen(Reader([], k), pre)), Decoy(n));
            r.Some? ==> r.value.reader.context != [] || r.value.seen != pre + Decoy(n)
  {
    DecoyBytes(n);
    LongEventFails(k, pre, Decoy(n));
  }

  lemma LongEventFails(k: Knowledge, pre: seq<byte>, d: seq<byte>)
    requires d != [] && d[0] == EVENT && (HasHeader(d) ==> PacketSize(d) == 258)
    requires |d| >= 258 ==> IsPeripheral(d) && d[12] != 0x40
    ensures var r := ReadOn(Some(Seen(Reader([], k), pre)), d);
            r.Some? ==> r.value.reader.context != [] || r.value.seen != pre + d
  {
    assert [] + d == d;
    if |d| >= 258 {
      SeenDiffers(pre, d);
    }
  }

  lemma SeenDiffers(pre: seq<byte>, d: seq<byte>)
    requires IsPeripheral(d) && d[12] != 0x40
    ensures pre + Patched(d)[0..] != pre + d
  {
    assert Patched(d)[0..] == Patched(d);
    assert (pre + Patched(d))[|pre| + 12] == 0x40 && (pre + d)[|pre| + 12] == d[12];
  }

  /** Pieces of these lengths in which every byte is the same. */
  function Filler(kind: byte, lengths: seq<nat>): (chunks: seq<seq<byte>>)
    requires forall i | 0 <= i < |lengths| :: lengths[i] > 0
    ensures Lengths(chunks) == lengths && NonEmpty(chunks)
    ensures forall i | 0 <= i < |chunks| :: chunks[i][0] == kind
  {
    seq(|lengths|, i requires 0 <= i < |lengths| => seq(lengths[i], _ => kind))
  }

  /** A decoy as the last of several reads. */
  lemma DecoyEnds(k: Knowledge, before: seq<seq<byte>>, n: nat)
    requires before != [] && NonEmpty(before) && n > 0
    requires forall i | 0 <= i < |before| :: !IsFollowed(before[i][0])
    ensures !Passes(k, Flatten(before + [Decoy(n)]), before + [Decoy(n)])
  {
    UnfollowedReads(k, before);
    ReadLast(Some(Seen(Reader([], k), [])), before, Decoy(n));
    DecoyFails(k, Flatten(before), n);
    FirstByte(before);
    Unaltered(k, Flatten(before) + Decoy(n));
  }

  lemma Unaltered(k: Knowledge, p: seq<byte>)
    requires p != [] && p[0] != EVENT
    ensures Learn(k, p) == k && Patched(p) == p
  {
  }

  lemma DecoyLast(k: Knowledge, kind: byte, lengths: seq<nat>) returns (chunks: seq<seq<byte>>)
    requires !IsFollowed(kind) && |lengths| >= 2 && forall i | 0 <= i < |lengths| :: lengths[i] > 0
    ensures Lengths(chunks) == lengths && chunks[0] != [] && chunks[0][0] == kind
    ensures !Passes(k, Flatten(chunks), chunks)
  {
    var last := |lengths| - 1;
    var before := Filler(kind, lengths[..last]);
    assert |before| == |Lengths(before)| == last;
    DecoyEnds(k, before, lengths[last]);
    chunks := before + [Decoy(lengths[last])];
    assert forall i | 0 <= i < last :: Lengths(before)[i] == lengths[i];
  }

  /**
   * Exactly which ways of splitting a packet of another type are safe for every content: reading it whole. A
   * second read can begin like an event, and is then followed as one.
   */
  lemma UnfollowedExactly(k: Knowledge, kind: byte, lengths: seq<nat>)
    requires !IsFollowed(kind) && lengths != [] && forall i | 0 <= i < |lengths| :: lengths[i] > 0
    ensures AlwaysPasses(k, kind, lengths) <==> |lengths| == 1
  {
    if |lengths| == 1 {
      forall chunks | Lengths(chunks) == lengths && chunks != [] && chunks[0] != [] && chunks[0][0] == kind
        ensures Passes(k, Flatten(chunks), chunks)
      {
        assert |chunks| == 1;
        ReadTransparency(k, Flatten(chunks), chunks);
      }
    } else {
      var chunks := DecoyLast(k, kind, lengths);
    }
  }

  /** What becomes of a packet whose second read happens to look like an inquiry event about a Peripheral. */
  lemma ContinuationPatched(k: Knowledge, first: seq<byte>, rest: seq<byte>)
    requires first != [] && !IsFollowed(first[0])
    requires Followed(rest) && IsPeripheral(rest)
    ensures ReadAll(Reader([], k), [first, rest]) == Some(Seen(Reader([], k), first + rest[12 := 0x40]))
  {
    var start := Some(Seen(Reader([], k), []));
    PassesAlone(k, [], first);
    ReadLast(start, [], first);
    ReadLast(start, [first], rest);
    assert [] + first == first && [] + [first] == [first] && [first] + [rest] == [first, rest];
    assert [] + rest == rest && Patched(rest)[0..] == rest[12 := 0x40];
  }

  const INQUIRY_LIKE: seq<byte> := [4, 0x22, 13, 1, 1, 2, 3, 4, 5, 6, 0, 0, 9, 5, 0, 0]

  /** One packet of type 3 in two reads, neither of which crosses its end: the caller sees it changed. */
  lemma SynchronousPatched()
    ensures var r := ReadAll(Reader([], Nothing()), [[3], INQUIRY_LIKE]);
            r.Some? && r.value.seen != [3] + INQUIRY_LIKE && r.value.seen == [3] + INQUIRY_LIKE[12 := 0x40]
  {
    ContinuationPatched(Nothing(), [3], INQUIRY_LIKE);
    assert ([3] + INQUIRY_LIKE[12 := 0x40])[13] == 0x40 && ([3] + INQUIRY_LIKE)[13] == 9;
  }

  // ----- reads that bring more than one packet -----

  /**
   * A read that goes on behind a packet: all of it is filtered as that packet, and nothing of it is kept, even if
   * it holds the beginning of a packet whose rest is yet to come.
   */
  lemma ReadBeyond(k: Knowledge, p: seq<byte>, more: seq<byte>)
    requires Followed(p)
    ensures Read(Reader([], k), p + more) == Some(Seen(Reader([], Learn(k, p + more)), Patched(p + more)))
  {
    assert [] + (p + more) == p + more && PacketSize(p + more) == PacketSize(p);
    assert Patched(p + more)[0..] == Patched(p + more);
  }

  /** The bytes behind the packet pass as they are and teach nothing. */
  predicate FirstAlone(k: Knowledge, p: seq<byte>, more: seq<byte>) {
    Read(Reader([], k), p + more) == Some(Seen(Reader([], Learn(k, p)), Patched(p) + more))
  }

  /** The bytes heard of a Remote Name Request Complete event reach into the last of its name. */
  predicate SaysName(c: seq<byte>) {
    |c| >= 255 && c[..2] == [0x04, 0x07]
  }

  /** The bytes heard of a Command Complete event hold the answer to Read BD_ADDR. */
  predicate SaysAddress(c: seq<byte>) {
    |c| >= 13 && c[..2] == [0x04, 0x0E] && c[4..6] == [0x09, 0x10]
  }

  /**
   * No filter looks beyond the packet: it is not made to look like a Peripheral inquiry, a name or a local
   * address by what follows it, and its name, if it has one, ends inside it or with it.
   */
  predicate NoSpill(p: seq<byte>, more: seq<byte>) {
    && (SaysPeripheral(p + more) ==> SaysPeripheral(p) || (p + more)[12] == 0x40)
    && (SaysName(p + more) ==> SaysName(p) && (0 in p[10..] || more == [] || more[0] == 0))
    && (SaysAddress(p + more) ==> SaysAddress(p))
  }

  lemma SaysAlike(c: seq<byte>)
    ensures SaysPeripheral(c) <==> IsPeripheral(c)
    ensures SaysName(c) <==> IsName(c)
    ensures SaysAddress(c) <==> IsLocalAddress(c)
  {
    if |c| >= 6 {
      assert c[..2] == [c[0], c[1]] && c[4..6] == [c[4], c[5]];
    }
  }

  lemma {:induction false} CStringOf(a: seq<byte>, b: seq<byte>)
    ensures CString(a + b) == CString(a) <==> 0 in a || b == [] || b[0] == 0
    decreases |a|
  {
    if a == [] {
      assert a + b == b;
    } else {
      assert (a + b)[1..] == a[1..] + b;
      CStringOf(a[1..], b);
    }
  }

  lemma PatchSpill(p: seq<byte>, more: seq<byte>)
    ensures Patched(p + more) == Patched(p) + more <==>
            (IsPeripheral(p + more) ==> IsPeripheral(p) || (p + more)[12] == 0x40)
  {
    if IsPeripheral(p + more) && !IsPeripheral(p) {
      assert Patched(p + more)[12] == 0x40;
    }
  }

  lemma LearnSpill(k: Knowledge, p: seq<byte>, more: seq<byte>)
    requires NoSpill(p, more)
    ensures Learn(k, p + more) == Learn(k, p)
  {
    SaysAlike(p);
    SaysAlike(p + more);
    if IsName(p + more) {
      assert (p + more)[4..10] == p[4..10] && (p + more)[10..] == p[10..] + more;
      CStringOf(p[10..], more);
    } else if IsLocalAddress(p + more) {
      assert (p + more)[7..13] == p[7..13];
    }
  }

  /** With nothing learnt before, what follows the packet shows. */
  lemma SpillLearnt(p: seq<byte>, more: seq<byte>)
    requires Learn(Nothing(), p + more) == Learn(Nothing(), p)
    ensures IsName(p + more) ==> IsName(p) && (0 in p[10..] || more == [] || more[0] == 0)
    ensures IsLocalAddress(p + more) ==> IsLocalAddress(p)
  {
    if IsName(p + more) {
      var address, name := (p + more)[4..10], CString((p + more)[10..]);
      assert Learn(Nothing(), p + more).names == map[address := name];
      assert address in Learn(Nothing(), p).names;
      assert (p + more)[10..] == p[10..] + more && address == p[4..10];
      CStringOf(p[10..], more);
    } else if IsLocalAddress(p + more) {
      assert Learn(Nothing(), p + more).captured;
    }
  }

  /** Exactly when a read that goes on behind a packet treats it alone, whatever has been learnt before. */
  lemma FirstAloneExactly(p: seq<byte>, more: seq<byte>)
    requires Followed(p)
    ensures (forall k :: FirstAlone(k, p, more)) <==> NoSpill(p, more)
  {
    SaysAlike(p);
    SaysAlike(p + more);
    PatchSpill(p, more);
    if NoSpill(p, more) {
      forall k ensures FirstAlone(k, p, more) {
        ReadBeyond(k, p, more);
        LearnSpill(k, p, more);
      }
    }
    if forall k :: FirstAlone(k, p, more) {
      assert FirstAlone(Nothing(), p, more);
      ReadBeyond(Nothing(), p, more);
      SpillLearnt(p, more);
    }
  }

  // ----- a whole stream of packets -----

  datatype Delivery = Delivery(packet: seq<byte>, chunks: seq<seq<byte>>) {
    predicate Fine() {
      Splits(packet, chunks) && Readable(packet, chunks)
    }
  }

  function ChunksOf(ds: seq<Delivery>): seq<seq<byte>> {
    if ds == [] then [] else ChunksOf(ds[..|ds| - 1]) + ds[|ds| - 1].chunks
  }

  function PatchedStream(ds: seq<Delivery>): seq<byte> {
    if ds == [] then [] else PatchedStream(ds[..|ds| - 1]) + Patched(ds[|ds| - 1].packet)
  }

  /** What a list of packets teaches, one after the other. */
  function LearnAll(packets: seq<seq<byte>>): Knowledge {
    if packets == [] then Nothing() else Learn(LearnAll(packets[..|packets| - 1]), packets[|packets| - 1])
  }

  function PacketsOf(ds: seq<Delivery>): (ps: seq<seq<byte>>)
    ensures |ps| == |ds|
  {
    seq(|ds|, i requires 0 <= i < |ds| => ds[i].packet)
  }

  /**
   * Over a whole stream of packets, each split by reads the filter can cope with, the caller sees the device's
   * bytes with only byte 12 of single-response Peripheral inquiries patched, and what has been learnt does not
   * depend on the splitting.
   */
  lemma {:induction false} StreamTransparency(ds: seq<Delivery>)
    requires forall i | 0 <= i < |ds| :: ds[i].Fine()
    ensures ReadAll(Reader([], Nothing()), ChunksOf(ds)) ==
            Some(Seen(Reader([], LearnAll(PacketsOf(ds))), PatchedStream(ds)))
  {
    if ds != [] {
      var before, d := ds[..|ds| - 1], ds[|ds| - 1];
      StreamTransparency(before);
      assert PacketsOf(ds)[..|ds| - 1] == PacketsOf(before);
      ReadFromSplit(Some(Seen(Reader([], Nothing()), [])), ChunksOf(before), d.chunks);
      DeliveryAfter(LearnAll(PacketsOf(before)), PatchedStream(before), d);
    }
  }

  lemma DeliveryAfter(k: Knowledge, pre: seq<byte>, d: Delivery)
    requires d.Fine()
    ensures ReadFrom(Some(Seen(Reader([], k), pre)), d.chunks) ==
            Some(Seen(Reader([], Learn(k, d.packet)), pre + Patched(d.packet)))
  {
    ReadTransparency(k, d.packet, d.chunks);
    ReadFromPrepends(pre, Some(Seen(Reader([], k), [])), d.chunks);
    assert pre + [] == pre;
  }

  /**
   * In the middle of a stream, between the reads of a packet p: the filter has faulted exactly if the reads of p
   * are not in reach; otherwise the context is the part of p consumed, patched if it shows a Peripheral, the
   * caller has seen that behind the packets before it, and what has been learnt is what all of this teaches.
   */
  lemma MidStream(ds: seq<Delivery>, p: seq<byte>, chunks: seq<seq<byte>>)
    requires forall i | 0 <= i < |ds| :: ds[i].Fine()
    requires Followed(p) && chunks != [] && NonEmpty(chunks) && Flatten(chunks) < p
    ensures Flatten(chunks) != []
    ensures var part := Flatten(chunks);
            ReadAll(Reader([], Nothing()), ChunksOf(ds) + chunks) ==
            if InReach(part, chunks)
            then Some(Seen(Reader(Patched(part), LearnAll(PacketsOf(ds) + [part])), PatchedStream(ds) + Patched(part)))
            else None
  {
    var k, pre, part := LearnAll(PacketsOf(ds)), PatchedStream(ds), Flatten(chunks);
    FirstByte(chunks);
    StreamTransparency(ds);
    ReadFromSplit(Some(Seen(Reader([], Nothing()), [])), ChunksOf(ds), chunks);
    ReadPrefix(k, p, chunks);
    ReadFromPrepends(pre, Some(Seen(Reader([], k), [])), chunks);
    assert pre + [] == pre && (PacketsOf(ds) + [part])[..|ds|] == PacketsOf(ds);
  }

  // ----- what has been learnt, read off the packets alone -----

  /** The name in the latest Remote Name event about an address, whole or as far as it has been heard. */
  function LatestName(heard: seq<seq<byte>>, address: seq<byte>): Option<seq<byte>> {
    if heard == [] then None
    else
      var c := heard[|heard| - 1];
      if SaysName(c) && c[4..10] == address then Some(CString(c[10..]))
      else LatestName(heard[..|heard| - 1], address)
  }

  /** The address in the first Read BD_ADDR completion, or zeros. */
  function FirstLocalAddress(heard: seq<seq<byte>>): (a: seq<byte>)
    ensures |a| == 6
  {
    if heard == [] then Zeros(6)
    else
      var before, c := heard[..|heard| - 1], heard[|heard| - 1];
      if SaysAddress(c) && !Captured(before) then c[7..13] else FirstLocalAddress(before)
  }

  predicate Captured(heard: seq<seq<byte>>) {
    exists i | 0 <= i < |heard| :: SaysAddress(heard[i])
  }

  lemma {:induction false} LearnAllRecalls(heard: seq<seq<byte>>)
    ensures var k := LearnAll(heard);
            && (forall a :: LatestName(heard, a) == if a in k.names then Some(k.names[a]) else None)
            && k.local == FirstLocalAddress(heard) && (k.captured <==> Captured(heard))
  {
    if heard != [] {
      var before, c := heard[..|heard| - 1], heard[|heard| - 1];
      LearnAllRecalls(before);
      SaysAlike(c);
      assert heard == before + [c];
      assert Captured(heard) <==> Captured(before) || SaysAddress(c) by {
        assert forall i | 0 <= i < |before| :: heard[i] == before[i];
        assert heard[|heard| - 1] == c;
      }
    }
  }

  // ----- whole events -----

  /** The event with code 7 and at least 252 parameter bytes; the standard gives it 255. */
  predicate NameEvent(p: seq<byte>) {
    |p| >= 3 && p[0] == 0x04 && p[1] == 0x07 && p[2] >= 252 && p[2] == |p| - 3
  }

  /** The event with code 14 that answers command 0x1009; the standard gives it ten parameter bytes. */
  predicate AddressEvent(p: seq<byte>) {
    |p| >= 3 && p[0] == 0x04 && p[1] == 0x0E && p[2] >= 10 && p[2] == |p| - 3 && p[4] == 0x09 && p[5] == 0x10
  }

  /** What a whole packet says, by its own length byte. */
  lemma WholeSays(p: seq<byte>)
    requires p != [] && (Followed(p) || !IsFollowed(p[0]))
    ensures SaysName(p) <==> NameEvent(p)
    ensures SaysAddress(p) <==> AddressEvent(p)
  {
    SaysAlike(p);
    FollowedExactly(p);
  }

  /** A whole event with a name teaches it, and no other packet teaches any. */
  lemma NamesLearnt(k: Knowledge, p: seq<byte>)
    requires p != [] && (Followed(p) || !IsFollowed(p[0]))
    ensures |p| >= 3 && p[..3] == [0x04, 0x07, 0xFF] && |p| == 258 ==>
              Learn(k, p).names == k.names[p[4..10] := CString(p[10..])]
    ensures Learn(k, p).names == if NameEvent(p) then k.names[p[4..10] := CString(p[10..])] else k.names
  {
    SaysAlike(p);
    WholeSays(p);
  }

  /** The first whole answer to Read BD_ADDR teaches the local address, and no other packet does. */
  lemma AddressLearnt(k: Knowledge, p: seq<byte>)
    requires p != [] && (Followed(p) || !IsFollowed(p[0]))
    ensures var l := Learn(k, p);
            if AddressEvent(p) && !k.captured then l.local == p[7..13] && l.captured
            else l.local == k.local && l.captured == k.captured
  {
    SaysAlike(p);
    WholeSays(p);
  }

  /** Each is a whole packet, of whatever type. */
  predicate Whole(packets: seq<seq<byte>>) {
    forall i | 0 <= i < |packets| :: packets[i] != [] && (Followed(packets[i]) || !IsFollowed(packets[i][0]))
  }

  /** The name in the latest whole name event about an address. */
  function AnnouncedName(packets: seq<seq<byte>>, address: seq<byte>): Option<seq<byte>> {
    if packets == [] then None
    else
      var p := packets[|packets| - 1];
      if NameEvent(p) && p[4..10] == address then Some(CString(p[10..]))
      else AnnouncedName(packets[..|packets| - 1], address)
  }

  /** The address in the first whole address event, or zeros. */
  function AnnouncedAddress(packets: seq<seq<byte>>): (a: seq<byte>)
    ensures |a| == 6
  {
    if packets == [] then Zeros(6)
    else if AddressEvent(packets[0]) then packets[0][7..13]
    else AnnouncedAddress(packets[1..])
  }

  lemma {:induction false} AnnouncedIsLatest(packets: seq<seq<byte>>, address: seq<byte>)
    requires Whole(packets)
    ensures LatestName(packets, address) == AnnouncedName(packets, address)
  {
    if packets != [] {
      WholeSays(packets[|packets| - 1]);
      AnnouncedIsLatest(packets[..|packets| - 1], address);
    }
  }

  lemma {:induction false} AddressAppend(packets: seq<seq<byte>>, p: seq<byte>)
    ensures AnnouncedAddress(packets + [p]) ==
            if AddressEvent(p) && forall i | 0 <= i < |packets| :: !AddressEvent(packets[i]) then p[7..13]
            else AnnouncedAddress(packets)
    decreases |packets|
  {
    if packets == [] {
      assert ([] + [p])[1..] == [];
    } else {
      assert (packets + [p])[1..] == packets[1..] + [p];
      AddressAppend(packets[1..], p);
    }
  }

  lemma {:induction false} AnnouncedIsFirst(packets: seq<seq<byte>>)
    requires Whole(packets)
    ensures FirstLocalAddress(packets) == AnnouncedAddress(packets)
  {
    if packets != [] {
      var before, p := packets[..|packets| - 1], packets[|packets| - 1];
      AnnouncedIsFirst(before);
      AddressAppend(before, p);
      WholeSays(p);
      forall i | 0 <= i < |before| ensures SaysAddress(before[i]) <==> AddressEvent(before[i]) {
        WholeSays(before[i]);
      }
      assert packets == before + [p];
    }
  }
}
