/** The packets exchanged between backend and frontend and their packed layout. */
module Protocol {
  import opened Bytes

  const CAPACITY: nat := 276
  const GENERIC_SIZE: nat := 12
  const LOCAL_HANDLE: uint32 := 0xFFFF_FFFF

  type VendorName = s: seq<byte> | |s| == 256 witness Zeros(256)

  /** The 18 floats of an input state, each kept as its 32-bit pattern. */
  type StateWords = s: seq<uint32> | |s| == 18 witness seq(18, _ => 0)

  datatype Message =
    | Connect(handle: uint32, vendor: VendorName, present: uint32, analog: uint32)
    | Disconnect(handle: uint32)
    | InputState(handle: uint32, state: StateWords)
    | SetPlayerIndex(handle: uint32, index: int32)
    | PausePressed(handle: uint32)

  function WordsBytes(ws: seq<uint32>): (b: seq<byte>)
    ensures |b| == 4 * |ws|
  {
    if ws == [] then [] else U32Bytes(ws[0]) + WordsBytes(ws[1..])
  }

  function WordsAt(b: seq<byte>, i: nat, count: nat): (ws: seq<uint32>)
    requires i + 4 * count <= |b|
    ensures |ws| == count
    decreases count
  {
    if count == 0 then [] else [U32At(b, i)] + WordsAt(b, i + 4, count - 1)
  }

  function TypeCode(m: Message): uint32 {
    match m
    case Connect(_, _, _, _) => 0
    case Disconnect(_) => 1
    case InputState(_, _) => 2
    case SetPlayerIndex(_, _) => 3
    case PausePressed(_) => 4
  }

  function Payload(m: Message): seq<byte> {
    match m
    case Connect(_, vendor, present, analog) => vendor + U32Bytes(present) + U32Bytes(analog)
    case InputState(_, state) => WordsBytes(state)
    case SetPlayerIndex(_, index) => U32Bytes(ToUnsigned(index))
    case Disconnect(_) => []
    case PausePressed(_) => []
  }

  function Size(m: Message): nat {
    match m
    case Connect(_, _, _, _) => GENERIC_SIZE + 264
    case InputState(_, _) => GENERIC_SIZE + 72
    case SetPlayerIndex(_, _) => GENERIC_SIZE + 4
    case Disconnect(_) => GENERIC_SIZE
    case PausePressed(_) => GENERIC_SIZE
  }

  /** The bytes that the Send functions hand to write: Size, Type, Handle, then the union member. */
  function Encode(m: Message): (b: seq<byte>)
    ensures |b| == Size(m)
  {
    U32Bytes(Size(m)) + U32Bytes(TypeCode(m)) + U32Bytes(m.handle) + Payload(m)
  }

  /** What HandlePacket sees in the packet buffer; it switches on Type and never looks at Size. */
  function Decode(packet: seq<byte>): Option<Message>
    requires |packet| == CAPACITY
  {
    var handle := U32At(packet, 8);
    match U32At(packet, 4)
    case 0 => Some(Connect(handle, packet[12..268], U32At(packet, 268), U32At(packet, 272)))
    case 1 => Some(Disconnect(handle))
    case 2 => Some(InputState(handle, WordsAt(packet, 12, 18)))
    case 3 => Some(SetPlayerIndex(handle, ToSigned(U32At(packet, 12))))
    case 4 => Some(PausePressed(handle))
    case _ => None
  }

  function Padded(frame: seq<byte>): (p: seq<byte>)
    requires |frame| <= CAPACITY
    ensures |p| == CAPACITY
  {
    frame + Zeros(CAPACITY - |frame|)
  }

  lemma {:induction false} WordsRoundTrip(b: seq<byte>, i: nat, ws: seq<uint32>)
    requires i + 4 * |ws| <= |b| && b[i..i + 4 * |ws|] == WordsBytes(ws)
    ensures WordsAt(b, i, |ws|) == ws
    decreases |ws|
  {
    if ws != [] {
      var all := b[i..i + 4 * |ws|];
      assert b[i..i + 4] == all[..4] == U32Bytes(ws[0]);
      U32InContext(b, i, ws[0]);
      assert b[i + 4..i + 4 + 4 * |ws[1..]|] == all[4..] == WordsBytes(ws[1..]);
      WordsRoundTrip(b, i + 4, ws[1..]);
    }
  }

  /** Three words and a payload, each where it was put. */
  lemma Placed(a: seq<byte>, b: seq<byte>, c: seq<byte>, load: seq<byte>, rest: seq<byte>)
    requires |a| == 4 && |b| == 4 && |c| == 4
    ensures var p := a + b + c + load + rest;
            p[0..4] == a && p[4..8] == b && p[8..12] == c && p[12..12 + |load|] == load
  {
  }

  lemma SizeStays(e: seq<byte>, rest: seq<byte>)
    requires |e| >= 4
    ensures U32At(e + rest, 0) == U32At(e, 0)
  {
  }

  lemma EncodeHeader(m: Message)
    ensures var p := Padded(Encode(m));
            && U32At(p, 0) == Size(m) && U32At(p, 4) == TypeCode(m) && U32At(p, 8) == m.handle
            && p[12..Size(m)] == Payload(m)
    ensures U32At(Encode(m), 0) == Size(m)
  {
    var e := Encode(m);
    HeaderPlaced(Size(m), TypeCode(m), m.handle, Payload(m), Zeros(CAPACITY - |e|));
    SizeStays(e, Zeros(CAPACITY - |e|));
  }

  lemma HeaderPlaced(size: uint32, kind: uint32, handle: uint32, load: seq<byte>, rest: seq<byte>)
    ensures var p := U32Bytes(size) + U32Bytes(kind) + U32Bytes(handle) + load + rest;
            && U32At(p, 0) == size && U32At(p, 4) == kind && U32At(p, 8) == handle && p[12..12 + |load|] == load
  {
    var p := U32Bytes(size) + U32Bytes(kind) + U32Bytes(handle) + load + rest;
    Placed(U32Bytes(size), U32Bytes(kind), U32Bytes(handle), load, rest);
    U32InContext(p, 0, size);
    U32InContext(p, 4, kind);
    U32InContext(p, 8, handle);
  }

  lemma LoadPlaced(vendor: VendorName, b: seq<byte>, c: seq<byte>)
    requires |b| == 4 && |c| == 4
    ensures var load := vendor + b + c; load[..256] == vendor && load[256..260] == b && load[260..264] == c
  {
  }

  lemma SliceOfSlice(p: seq<byte>, from: nat, to: nat, i: nat, j: nat)
    requires from <= to <= |p| && i <= j <= to - from
    ensures p[from..to][i..j] == p[from + i..from + j]
  {
    var whole, part := p[from..to], p[from + i..from + j];
    assert forall k | i <= k < j :: whole[k] == p[from + k];
    assert forall k | 0 <= k < j - i :: whole[i..j][k] == whole[i + k] && part[k] == p[from + (i + k)];
  }

  lemma DecodeConnect(p: seq<byte>, vendor: VendorName, present: uint32, analog: uint32)
    requires |p| == CAPACITY && p[12..276] == vendor + U32Bytes(present) + U32Bytes(analog)
    ensures p[12..268] == vendor && U32At(p, 268) == present && U32At(p, 272) == analog
  {
    var load := p[12..276];
    LoadPlaced(vendor, U32Bytes(present), U32Bytes(analog));
    SliceOfSlice(p, 12, 276, 0, 256);
    SliceOfSlice(p, 12, 276, 256, 260);
    SliceOfSlice(p, 12, 276, 260, 264);
    U32InContext(p, 268, present);
    U32InContext(p, 272, analog);
  }

  /** Every message survives the packed layout: type, handle and the whole payload. */
  lemma DecodeEncode(m: Message)
    ensures Decode(Padded(Encode(m))) == Some(m)
  {
    var p := Padded(Encode(m));
    EncodeHeader(m);
    match m
    case Connect(_, vendor, present, analog) =>
      DecodeConnect(p, vendor, present, analog);
    case InputState(_, state) =>
      WordsRoundTrip(p, 12, state);
    case SetPlayerIndex(_, index) =>
      U32InContext(p, 12, ToUnsigned(index));
    case Disconnect(_) =>
    case PausePressed(_) =>
  }

  /** A Connect packet holds the vendor's name, then the controls there are, then those of them that are analog. */
  lemma ConnectPlaced(handle: uint32, vendor: VendorName, present: uint32, analog: uint32)
    ensures var p := Padded(Encode(Connect(handle, vendor, present, analog)));
            p[12..268] == vendor && U32At(p, 268) == present && U32At(p, 272) == analog
  {
    EncodeHeader(Connect(handle, vendor, present, analog));
    DecodeConnect(Padded(Encode(Connect(handle, vendor, present, analog))), vendor, present, analog);
  }

  /** The first eight bytes of each packet: its size and its type. */
  lemma FirstBytes(m: Message)
    ensures Encode(m)[..8] ==
            match m {
              case Connect(_, _, _, _) => [0x14, 0x01, 0, 0, 0, 0, 0, 0]
              case Disconnect(_) => [0x0C, 0, 0, 0, 1, 0, 0, 0]
              case InputState(_, _) => [0x54, 0, 0, 0, 2, 0, 0, 0]
              case SetPlayerIndex(_, _) => [0x10, 0, 0, 0, 3, 0, 0, 0]
              case PausePressed(_) => [0x0C, 0, 0, 0, 4, 0, 0, 0]
            }
  {
    assert Encode(m)[..8] == U32Bytes(Size(m)) + U32Bytes(TypeCode(m));
  }

  lemma {:induction false} WordPlaced(ws: seq<uint32>, i: nat)
    requires i < |ws|
    ensures WordsBytes(ws)[4 * i..4 * i + 4] == U32Bytes(ws[i])
  {
    if i > 0 {
      WordPlaced(ws[1..], i - 1);
      var bytes, rest := WordsBytes(ws), WordsBytes(ws[1..]);
      assert bytes == U32Bytes(ws[0]) + rest;
      assert bytes[4 * i..4 * i + 4] == rest[4 * (i - 1)..4 * (i - 1) + 4];
    }
  }

  /** The floats of a state stand one after the other from offset 12, in their own order. */
  lemma StatePlaced(handle: uint32, state: StateWords, i: nat)
    requires i < 18
    ensures U32At(Padded(Encode(InputState(handle, state))), 12 + 4 * i) == state[i]
  {
    var m := InputState(handle, state);
    var p := Padded(Encode(m));
    EncodeHeader(m);
    WordPlaced(state, i);
    SliceOfSlice(p, 12, 84, 4 * i, 4 * i + 4);
    U32InContext(p, 12 + 4 * i, state[i]);
  }
}
