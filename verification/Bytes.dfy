/** Machine integers and byte strings shared by the wire protocol and the HCI filter. */
module Bytes {
  type byte = x: int | 0 <= x < 0x100
  type uint32 = x: int | 0 <= x < 0x1_0000_0000
  type int32 = x: int | -0x8000_0000 <= x < 0x8000_0000

  datatype Option<+T> = None | Some(value: T)

  lemma SplitLast<T>(s: seq<T>)
    requires s != []
    ensures s == s[..|s| - 1] + [s[|s| - 1]]
  {
  }

  function Zeros(n: nat): (z: seq<byte>)
    ensures |z| == n
  {
    seq(n, _ => 0)
  }

  /** b with data written over it from offset at. */
  function Overlaid(b: seq<byte>, at: nat, data: seq<byte>): (r: seq<byte>)
    requires at + |data| <= |b|
    ensures |r| == |b|
  {
    b[..at] + data + b[at + |data|..]
  }

  /** The unsigned 32-bit little-endian word stored at offset i. */
  function U32At(b: seq<byte>, i: nat): uint32
    requires i + 4 <= |b|
  {
    var word: int := b[i] as int + 0x100 * b[i + 1] as int + 0x1_0000 * b[i + 2] as int + 0x100_0000 * b[i + 3] as int;
    word
  }

  function U32Bytes(v: uint32): (b: seq<byte>)
    ensures |b| == 4
  {
    [v % 0x100, v / 0x100 % 0x100, v / 0x1_0000 % 0x100, v / 0x100_0000]
  }

  lemma U32RoundTrip(v: uint32)
    ensures U32At(U32Bytes(v), 0) == v
  {
    assert v / 0x1_0000 == v / 0x100 / 0x100;
    assert v / 0x100_0000 == v / 0x1_0000 / 0x100;
  }

  /** A word is read back from wherever its four bytes were placed. */
  lemma U32InContext(b: seq<byte>, i: nat, v: uint32)
    requires i + 4 <= |b| && b[i..i + 4] == U32Bytes(v)
    ensures U32At(b, i) == v
  {
    U32RoundTrip(v);
    var word := b[i..i + 4];
    assert b[i] == word[0] && b[i + 1] == word[1] && b[i + 2] == word[2] && b[i + 3] == word[3];
  }

  /** Two's complement reinterpretation of a signed word, and back. */
  function ToUnsigned(v: int32): (u: uint32)
    ensures (u - v) % 0x1_0000_0000 == 0
  {
    if v < 0 then v + 0x1_0000_0000 else v
  }

  function ToSigned(v: uint32): int32 {
    if v < 0x8000_0000 then v else v - 0x1_0000_0000
  }

  lemma Associative(a: seq<byte>, b: seq<byte>, c: seq<byte>)
    ensures a + (b + c) == (a + b) + c
  {
  }

  function Flatten(parts: seq<seq<byte>>): seq<byte> {
    if parts == [] then [] else parts[0] + Flatten(parts[1..])
  }

  lemma {:induction false} FlattenAppend(a: seq<seq<byte>>, b: seq<seq<byte>>)
    ensures Flatten(a + b) == Flatten(a) + Flatten(b)
  {
    if a == [] {
      assert a + b == b;
    } else {
      assert (a + b)[1..] == a[1..] + b;
      FlattenAppend(a[1..], b);
    }
  }
}
