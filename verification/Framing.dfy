/** The incremental reassembler of length-prefixed frames: Connection::Read and Connection::Parse. */
module Framing {
  import opened Bytes
  import opened Protocol

  /** The packet buffer and the number of bytes received into it so far. */
  datatype Parser = Parser(buffer: seq<byte>, position: nat) {
    predicate Valid() {
      |buffer| == CAPACITY && position <= CAPACITY
    }

    /** How many bytes Read asks for; not positive would mean a completed frame was never dispatched. */
    function Requested(): int
      requires Valid()
    {
      (if position < 4 then 4 else U32At(buffer, 0)) - position
    }

    /** A read may return any positive number of bytes up to the request that still fit the buffer. */
    predicate Accepts(chunk: seq<byte>)
      requires Valid()
    {
      1 <= |chunk| <= Requested() && position + |chunk| <= CAPACITY
    }

    function Filled(chunk: seq<byte>): (b: seq<byte>)
      requires Valid() && Accepts(chunk)
      ensures |b| == CAPACITY
    {
      Overlaid(buffer, position, chunk)
    }

    /** One iteration of Parse after a successful read: the next parser, and the packet dispatched if any. */
    function Receive(chunk: seq<byte>): (r: (Parser, seq<seq<byte>>))
      requires Valid() && Accepts(chunk)
    {
      var b := Filled(chunk);
      if position + |chunk| >= U32At(b, 0)
      then (Start(), [b])
      else (Parser(b, position + |chunk|), [])
    }
  }

  function Start(): (p: Parser)
    ensures p.Valid()
  {
    Parser(Zeros(CAPACITY), 0)
  }

  /** Where a parser is after some reads, and the packets it has dispatched. */
  datatype Progress = Progress(parser: Parser, dispatched: seq<seq<byte>>) {
    predicate Accepts(chunk: seq<byte>) {
      parser.Valid() && parser.Accepts(chunk)
    }

    function Read(chunk: seq<byte>): Progress
      requires Accepts(chunk)
    {
      var (next, out) := parser.Receive(chunk);
      Progress(next, dispatched + out)
    }
  }

  const FRESH := Progress(Start(), [])

  /** Every chunk is one that a read could have returned at that point. */
  predicate Legal(chunks: seq<seq<byte>>)
    decreases |chunks|, 0
  {
    chunks == [] || (Legal(chunks[..|chunks| - 1]) && Run(chunks[..|chunks| - 1]).Accepts(chunks[|chunks| - 1]))
  }

  /** A run of Parse over the chunks that the successive reads return. */
  function Run(chunks: seq<seq<byte>>): Progress
    requires Legal(chunks)
    decreases |chunks|, 1
  {
    if chunks == [] then FRESH else Run(chunks[..|chunks| - 1]).Read(chunks[|chunks| - 1])
  }

  lemma RunOnce(chunks: seq<seq<byte>>, chunk: seq<byte>)
    requires Legal(chunks) && Run(chunks).Accepts(chunk)
    ensures Legal(chunks + [chunk]) && Run(chunks + [chunk]) == Run(chunks).Read(chunk)
    ensures Flatten(chunks + [chunk]) == Flatten(chunks) + chunk
  {
    assert (chunks + [chunk])[..|chunks|] == chunks;
    FlattenAppend(chunks, [chunk]);
    assert Flatten([chunk]) == chunk + Flatten([]);
  }

  /** A frame whose Size field is its own length and that fits the packet buffer. */
  predicate IsFrame(f: seq<byte>) {
    4 <= |f| <= CAPACITY && U32At(f, 0) == |f|
  }

  /** The low byte of the Size field is what the parser compares after a one-byte read. */
  predicate Unambiguous(f: seq<byte>) {
    IsFrame(f) && |f| != 256 && |f| != 257
  }

  predicate AllFrames(frames: seq<seq<byte>>) {
    forall i | 0 <= i < |frames| :: IsFrame(frames[i])
  }

  predicate AllUnambiguous(frames: seq<seq<byte>>) {
    forall i | 0 <= i < |frames| :: Unambiguous(frames[i])
  }

  function PaddedAll(frames: seq<seq<byte>>): (ps: seq<seq<byte>>)
    requires AllFrames(frames)
    ensures |ps| == |frames|
    ensures forall i | 0 <= i < |frames| :: ps[i] == Padded(frames[i])
  {
    seq(|frames|, i requires 0 <= i < |frames| => Padded(frames[i]))
  }

  /**
   * The parser and the bytes not yet read are exactly the undelivered frames: what the buffer holds is a
   * proper prefix of the first one, followed by zeros.
   */
  predicate Represents(p: Parser, unread: seq<byte>, frames: seq<seq<byte>>) {
    && p.Valid() && AllUnambiguous(frames)
    && p.buffer[p.position..] == Zeros(CAPACITY - p.position)
    && p.buffer[..p.position] + unread == Flatten(frames)
    && (p.position == 0 || (frames != [] && p.position < |frames[0]|))
  }

  /** With frames outstanding the parser holds a proper prefix of the first. */
  lemma Buffered(p: Parser, unread: seq<byte>, frames: seq<seq<byte>>)
    requires Represents(p, unread, frames) && frames != []
    ensures p.position < |frames[0]| && p.buffer[..p.position] == frames[0][..p.position]
    ensures forall k | 0 <= k < p.position :: p.buffer[k] == frames[0][k]
    ensures forall k | p.position <= k < CAPACITY :: p.buffer[k] == 0
    ensures p.buffer[..p.position] + unread == frames[0] + Flatten(frames[1..])
  {
    var all := Flatten(frames);
    assert all == frames[0] + Flatten(frames[1..]);
    assert p.buffer[..p.position] == all[..p.position] == frames[0][..p.position];
    assert forall k | 0 <= k < p.position :: p.buffer[k] == p.buffer[..p.position][k] == frames[0][k];
    assert forall k | p.position <= k < CAPACITY :: p.buffer[k] == p.buffer[p.position..][k - p.position] == 0;
  }

  /** The words of a small size, and when one of its prefixes already looks complete. */
  lemma SizeBytes(f: seq<byte>)
    requires IsFrame(f)
    ensures f[2] == 0 && f[3] == 0
    ensures |f| == f[0] as int + 0x100 * f[1] as int
    ensures f[0] <= 1 <==> |f| == 256 || |f| == 257
  {
  }

  /** A request never reaches past the current frame, hence never past the packet buffer. */
  lemma RequestInFrame(p: Parser, unread: seq<byte>, frames: seq<seq<byte>>)
    requires Represents(p, unread, frames)
    ensures 1 <= p.Requested()
    ensures p.position + p.Requested() <= CAPACITY
    ensures frames != [] ==> p.position + p.Requested() <= |frames[0]|
  {
    if frames != [] {
      Buffered(p, unread, frames);
    }
  }

  /** The heart of the reassembler: a read either stays inside the first frame or completes exactly it. */
  lemma ReceiveStep(p: Parser, unread: seq<byte>, frames: seq<seq<byte>>, n: nat)
    requires Represents(p, unread, frames)
    requires 1 <= n <= |unread| && p.Accepts(unread[..n])
    ensures frames != []
    ensures var r := p.Receive(unread[..n]);
            if p.position + n == |frames[0]|
            then r == (Start(), [Padded(frames[0])]) && Represents(r.0, unread[n..], frames[1..])
            else r.1 == [] && Represents(r.0, unread[n..], frames)
  {
    var chunk := unread[..n];
    assert frames != [] by {
      assert |p.buffer[..p.position] + unread| == |Flatten(frames)|;
    }
    Buffered(p, unread, frames);
    SizeBytes(frames[0]);
    RequestInFrame(p, unread, frames);
    var f, got := frames[0], p.position + n;
    var b := p.Filled(chunk);
    Grown(p, unread, f, Flatten(frames[1..]), n);
    if got == |f| {
      assert b == Padded(f);
      assert Start().buffer[..0] + unread[n..] == Flatten(frames[1..]);
    }
  }

  /** The bytes read extend the prefix of the frame that the buffer holds; the rest of the buffer stays zero. */
  lemma Grown(p: Parser, unread: seq<byte>, f: seq<byte>, rest: seq<byte>, n: nat)
    requires p.Valid() && 1 <= n <= |unread| && p.Accepts(unread[..n]) && p.position + n <= |f|
    requires p.buffer[..p.position] + unread == f + rest
    requires p.buffer[p.position..] == Zeros(CAPACITY - p.position)
    ensures var (b, got) := (p.Filled(unread[..n]), p.position + n);
            && b[..got] == f[..got] && (forall k | 0 <= k < got :: b[k] == f[k])
            && (forall k | got <= k < CAPACITY :: b[k] == 0)
            && b[got..] == Zeros(CAPACITY - got) && b[..got] + unread[n..] == f + rest
            && (got == |f| ==> unread[n..] == rest)
  {
    var b, got := p.Filled(unread[..n]), p.position + n;
    var held := p.buffer[..p.position];
    assert unread == unread[..n] + unread[n..];
    assert b[..got] == held + unread[..n];
    assert b[..got] + unread[n..] == held + unread;
    assert b[..got] == (f + rest)[..got] == f[..got];
    assert forall k | got <= k < CAPACITY :: b[k] == p.buffer[p.position..][k - p.position];
    assert forall k | 0 <= k < got :: b[k] == b[..got][k];
    if got == |f| {
      assert unread[n..] == (b[..got] + unread[n..])[got..];
      assert rest == (f + rest)[got..];
    }
  }

  /** What a run over the stream of some frames has dispatched, and what it has still to dispatch. */
  predicate Delivers(at: Progress, unread: seq<byte>, frames: seq<seq<byte>>)
    requires AllFrames(frames)
  {
    var k := |at.dispatched|;
    k <= |frames| && at.dispatched == PaddedAll(frames[..k]) && Represents(at.parser, unread, frames[k..])
  }

  /** A read keeps the packets dispatched and the bytes outstanding in step with the frames. */
  lemma ReadDelivers(at: Progress, unread: seq<byte>, frames: seq<seq<byte>>, chunk: seq<byte>)
    requires AllFrames(frames) && Delivers(at, unread, frames)
    requires chunk <= unread && at.Accepts(chunk)
    ensures Delivers(at.Read(chunk), unread[|chunk|..], frames)
  {
    var k := |at.dispatched|;
    assert unread[..|chunk|] == chunk;
    ReceiveStep(at.parser, unread, frames[k..], |chunk|);
    assert frames[k..][1..] == frames[k + 1..];
    assert PaddedAll(frames[..k]) + [Padded(frames[k])] == PaddedAll(frames[..k + 1]);
    assert at.dispatched + [] == at.dispatched;
  }

  /**
   * For every stream of unambiguous frames and every way the reads split it, the packets dispatched are the
   * frames in order, each whole and zero-padded, and the parser holds the unfinished rest.
   */
  lemma {:induction false} RunDelivers(frames: seq<seq<byte>>, chunks: seq<seq<byte>>)
    requires AllUnambiguous(frames)
    requires Legal(chunks) && Flatten(chunks) <= Flatten(frames)
    ensures Delivers(Run(chunks), Flatten(frames)[|Flatten(chunks)|..], frames)
  {
    var all := Flatten(frames);
    if chunks == [] {
      StartRepresents(frames);
      assert frames[0..] == frames && all[0..] == all;
    } else {
      var before, chunk := chunks[..|chunks| - 1], chunks[|chunks| - 1];
      assert chunks == before + [chunk];
      RunOnce(before, chunk);
      RunDelivers(frames, before);
      NextChunk(Flatten(before), chunk, all);
      ReadDelivers(Run(before), all[|Flatten(before)|..], frames, chunk);
    }
  }

  /** A read is always asked for at least one byte and never for more than the packet buffer can take. */
  lemma RequestFits(at: Progress, unread: seq<byte>, frames: seq<seq<byte>>)
    requires AllFrames(frames) && Delivers(at, unread, frames)
    ensures at.parser.Valid() && 1 <= at.parser.Requested()
    ensures at.parser.position + at.parser.Requested() <= CAPACITY
  {
    RequestInFrame(at.parser, unread, frames[|at.dispatched|..]);
  }

  /** What has been dispatched, and the state of the parser once nothing is left to read. */
  lemma Summary(at: Progress, unread: seq<byte>, frames: seq<seq<byte>>)
    requires AllFrames(frames) && Delivers(at, unread, frames)
    ensures at.dispatched <= PaddedAll(frames)
    ensures unread == [] ==> at == Progress(Start(), PaddedAll(frames))
  {
  }

  lemma NextChunk(before: seq<byte>, chunk: seq<byte>, all: seq<byte>)
    requires before + chunk <= all
    ensures before <= all && chunk <= all[|before|..]
    ensures all[|before|..][|chunk|..] == all[|before + chunk|..]
  {
  }

  /** Frames written behind those outstanding. */
  lemma RepresentsMore(p: Parser, unread: seq<byte>, frames: seq<seq<byte>>, more: seq<seq<byte>>)
    requires Represents(p, unread, frames) && AllUnambiguous(more)
    ensures Represents(p, unread + Flatten(more), frames + more)
  {
    FlattenAppend(frames, more);
    Associative(p.buffer[..p.position], unread, Flatten(more));
    if p.position != 0 {
      assert (frames + more)[0] == frames[0];
    }
  }

  lemma StartRepresents(frames: seq<seq<byte>>)
    requires AllUnambiguous(frames)
    ensures Represents(Start(), Flatten(frames), frames)
  {
  }

  /** Delivery is faithful when only whole frames are dispatched, in the order sent. */
  ghost predicate FaithfulUnderEveryChunking(frames: seq<seq<byte>>)
    requires AllFrames(frames)
  {
    forall chunks | Legal(chunks) && Flatten(chunks) <= Flatten(frames) ::
      Run(chunks).dispatched <= PaddedAll(frames)
  }

  /** The two reads of a whole frame: its header, then the rest. */
  lemma HeadThenTail(f: seq<byte>)
    requires IsFrame(f)
    ensures var (s, head, tail) := (Start(), f[..4], f[4..]);
            && s.Accepts(head)
            && if tail == [] then s.Receive(head) == (s, [Padded(f)])
               else var p := Parser(head + Zeros(CAPACITY - 4), 4);
                    s.Receive(head) == (p, []) && p.Accepts(tail) && p.Receive(tail) == (s, [Padded(f)])
  {
    var s, head, tail := Start(), f[..4], f[4..];
    var b := s.Filled(head);
    assert b == head + Zeros(CAPACITY - 4) && U32At(b, 0) == |f|;
    if tail == [] {
      assert b == Padded(f);
    } else {
      assert Parser(b, 4).Filled(tail) == Padded(f);
    }
  }

  lemma ReadWhole(at: Progress, f: seq<byte>)
    requires at.parser == Start() && IsFrame(f)
    ensures at.Accepts(f[..4])
    ensures var next, done := at.Read(f[..4]), Progress(Start(), at.dispatched + [Padded(f)]);
            if f[4..] == [] then next == done else next.Accepts(f[4..]) && next.Read(f[4..]) == done
  {
    HeadThenTail(f);
    assert at.dispatched + [] == at.dispatched;
  }

  /** A frame of any length comes in whole when its four header bytes are read first. */
  lemma WholeFrame(chunks: seq<seq<byte>>, f: seq<byte>) returns (more: seq<seq<byte>>)
    requires Legal(chunks) && Run(chunks).parser == Start() && IsFrame(f)
    ensures Legal(more) && Flatten(more) == Flatten(chunks) + f
    ensures Run(more) == Progress(Start(), Run(chunks).dispatched + [Padded(f)])
  {
    ReadWhole(Run(chunks), f);
    if f[4..] == [] {
      assert f == f[..4];
      RunOnce(chunks, f);
      more := chunks + [f];
    } else {
      assert f == f[..4] + f[4..];
      RunTwice(chunks, f[..4], f[4..]);
      more := chunks + [f[..4]] + [f[4..]];
    }
  }

  lemma RunTwice(chunks: seq<seq<byte>>, a: seq<byte>, b: seq<byte>)
    requires Legal(chunks) && Run(chunks).Accepts(a) && Run(chunks).Read(a).Accepts(b)
    ensures Legal(chunks + [a] + [b]) && Run(chunks + [a] + [b]) == Run(chunks).Read(a).Read(b)
    ensures Flatten(chunks + [a] + [b]) == Flatten(chunks) + (a + b)
  {
    RunOnce(chunks, a);
    RunOnce(chunks + [a], b);
    Associative(Flatten(chunks), a, b);
  }

  /** Reads that bring any list of frames in whole, ambiguous or not. */
  lemma {:induction false} WholeRun(frames: seq<seq<byte>>) returns (chunks: seq<seq<byte>>)
    requires AllFrames(frames)
    ensures Legal(chunks) && Flatten(chunks) == Flatten(frames)
    ensures Run(chunks) == Progress(Start(), PaddedAll(frames))
  {
    if frames == [] {
      chunks := [];
    } else {
      var before, f := frames[..|frames| - 1], frames[|frames| - 1];
      chunks := WholeRun(before);
      chunks := WholeFrame(chunks, f);
      FlattenAppend(before, [f]);
      assert Flatten([f]) == f + Flatten([]);
      assert frames == before + [f] && PaddedAll(frames) == PaddedAll(before) + [Padded(f)];
    }
  }

  /** A one-byte read of a 256- or 257-byte frame dispatches that single byte as a packet. */
  lemma EarlyDispatch(f: seq<byte>)
    requires IsFrame(f) && !Unambiguous(f)
    ensures Start().Accepts(f[..1]) && Start().Receive(f[..1]) == (Start(), [Padded(f[..1])])
    ensures Padded(f[..1]) != Padded(f)
  {
    SizeBytes(f);
    assert Start().Filled(f[..1]) == Padded(f[..1]);
    assert Padded(f[..1])[1] == 0 && Padded(f)[1] == f[1] == 1;
  }

  lemma AmbiguityIsFatal(frames: seq<seq<byte>>, i: nat) returns (chunks: seq<seq<byte>>)
    requires AllFrames(frames) && i < |frames| && !Unambiguous(frames[i])
    ensures Legal(chunks) && Flatten(chunks) <= Flatten(frames)
    ensures !(Run(chunks).dispatched <= PaddedAll(frames))
  {
    var f := frames[i];
    var before := WholeRun(frames[..i]);
    EarlyDispatch(f);
    RunOnce(before, f[..1]);
    chunks := before + [f[..1]];
    assert Run(chunks).dispatched[i] == Padded(f[..1]);
    FirstByteNext(frames, i);
  }

  lemma FirstByteNext(frames: seq<seq<byte>>, i: nat)
    requires i < |frames| && frames[i] != []
    ensures Flatten(frames[..i]) + frames[i][..1] <= Flatten(frames)
  {
    assert frames == frames[..i] + frames[i..];
    FlattenAppend(frames[..i], frames[i..]);
    assert frames[i][..1] <= frames[i] <= Flatten(frames[i..]);
  }

  /**
   * Exact domain of the framing: delivery is faithful under every chunking if and only if no frame is 256 or
   * 257 bytes long.
   */
  lemma ExactFramingDomain(frames: seq<seq<byte>>)
    requires AllFrames(frames)
    ensures FaithfulUnderEveryChunking(frames) <==> AllUnambiguous(frames)
  {
    if AllUnambiguous(frames) {
      forall chunks | Legal(chunks) && Flatten(chunks) <= Flatten(frames)
        ensures Run(chunks).dispatched <= PaddedAll(frames)
      {
        RunDelivers(frames, chunks);
      }
    } else {
      var i :| 0 <= i < |frames| && !Unambiguous(frames[i]);
      var chunks := AmbiguityIsFatal(frames, i);
    }
  }

  function EncodeAll(ms: seq<Message>): (fs: seq<seq<byte>>)
    ensures |fs| == |ms|
    ensures forall i | 0 <= i < |ms| :: fs[i] == Encode(ms[i])
  {
    seq(|ms|, i requires 0 <= i < |ms| => Encode(ms[i]))
  }

  lemma EncodeAllAppend(ms: seq<Message>, more: seq<Message>)
    ensures EncodeAll(ms + more) == EncodeAll(ms) + EncodeAll(more)
  {
  }

  /** All four sizes of the protocol lie inside the unambiguous domain. */
  lemma EncodeUnambiguous(ms: seq<Message>)
    ensures AllUnambiguous(EncodeAll(ms))
  {
    forall i | 0 <= i < |ms| ensures Unambiguous(EncodeAll(ms)[i]) {
      EncodeHeader(ms[i]);
    }
  }

  /**
   * Framing round trip: however the reads split what the Send functions wrote, the messages handled are a
   * prefix of those sent; after the last byte they are all of them and the parser is back at its start.
   */
  lemma FramingRoundTrip(ms: seq<Message>, chunks: seq<seq<byte>>)
    requires Legal(chunks) && Flatten(chunks) <= Flatten(EncodeAll(ms))
    ensures var at := Run(chunks);
            && |at.dispatched| <= |ms|
            && (forall i | 0 <= i < |at.dispatched| ::
                  |at.dispatched[i]| == CAPACITY && Decode(at.dispatched[i]) == Some(ms[i]))
            && (Flatten(chunks) == Flatten(EncodeAll(ms)) ==> |at.dispatched| == |ms| && at.parser == Start())
  {
    var frames := EncodeAll(ms);
    EncodeUnambiguous(ms);
    RunDelivers(frames, chunks);
    var at := Run(chunks);
    Summary(at, Flatten(frames)[|Flatten(chunks)|..], frames);
    forall i | 0 <= i < |at.dispatched|
      ensures |at.dispatched[i]| == CAPACITY && Decode(at.dispatched[i]) == Some(ms[i])
    {
      DecodeEncode(ms[i]);
    }
  }
}
