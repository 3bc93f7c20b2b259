/** The documented promise about inquiry events, and the events it is kept for. */
module HciPromises {
  import opened Bytes
  import opened HciFilters

  /** Inquiry Result with RSSI, and Extended Inquiry Result. */
  const RSSI_INQUIRY: byte := 0x22
  const EXTENDED_INQUIRY: byte := 0x2F

  /** A whole event with fourteen bytes for each response, or an extended one with a single response. */
  predicate Inquiry(p: seq<byte>) {
    && Followed(p) && p[0] == 0x04 && |p| > 4
    && (p[1] == RSSI_INQUIRY ==> p[3] >= 1 && |p| == 4 + 14 * (p[3] as int))
    && (p[1] == EXTENDED_INQUIRY ==> p[3] == 1 && |p| == 258)
    && (p[1] == RSSI_INQUIRY || p[1] == EXTENDED_INQUIRY)
  }

  /** Where the class of device of response i stands: behind n addresses and two bytes for each response. */
  function ClassAt(n: nat, i: nat): nat {
    4 + 8 * n + 3 * i
  }

  lemma ClassInside(p: seq<byte>, i: nat)
    requires Inquiry(p) && i < p[3]
    ensures ClassAt(p[3], i) + 3 <= |p|
  {
  }

  /** The major class of response i. */
  predicate ListsPeripheral(p: seq<byte>, i: nat)
    requires Inquiry(p) && i < p[3]
  {
    ClassInside(p, i);
    p[ClassAt(p[3], i) + 1] % 0x20 == 0x05
  }

  /** The minor class, behind two format bits. */
  predicate IsKeyboard(b: byte) {
    b / 4 == 0x10
  }

  /** Every Peripheral that the event lists is a keyboard in the bytes seen. */
  predicate ShowsKeyboards(p: seq<byte>, seen: seq<byte>)
    requires Inquiry(p) && |seen| == |p|
  {
    forall i: nat | i < p[3] && ListsPeripheral(p, i) :: SeenAsKeyboard(p, seen, i)
  }

  predicate SeenAsKeyboard(p: seq<byte>, seen: seq<byte>, i: nat)
    requires Inquiry(p) && |seen| == |p| && i < p[3]
  {
    ClassInside(p, i);
    IsKeyboard(seen[ClassAt(p[3], i)])
  }

  /** A single response is patched exactly if it is about a Peripheral, several never are. */
  lemma SingleResponse(p: seq<byte>)
    requires Inquiry(p)
    ensures IsPeripheral(p) <==> p[3] == 1 && ListsPeripheral(p, 0)
  {
  }

  lemma SingleKeyboard(p: seq<byte>)
    requires Inquiry(p) && p[3] == 1
    ensures ShowsKeyboards(p, Patched(p))
  {
    SingleResponse(p);
    forall i: nat | i < p[3] && ListsPeripheral(p, i) ensures SeenAsKeyboard(p, Patched(p), i) {
      assert i == 0;
    }
  }

  /**
   * What the caller sees of an inquiry event shows every listed Peripheral as a keyboard exactly if the event has
   * a single response or the device said so itself.
   */
  lemma KeyboardPromise(k: Knowledge, p: seq<byte>, chunks: seq<seq<byte>>)
    requires Inquiry(p) && Splits(p, chunks) && Readable(p, chunks)
    ensures ReadAll(Reader([], k), chunks) == Some(Seen(Reader([], k), Patched(p)))
    ensures ShowsKeyboards(p, Patched(p)) <==> p[3] == 1 || ShowsKeyboards(p, p)
  {
    ReadTransparency(k, p, chunks);
    SingleResponse(p);
    if p[3] == 1 {
      SingleKeyboard(p);
    }
  }

  /** All events with this many responses keep the promise. */
  ghost predicate PromiseKept(n: byte) {
    forall p | Inquiry(p) && p[3] == n :: ShowsKeyboards(p, Patched(p))
  }

  /** An event whose responses are all about a Peripheral of no minor class. */
  function PlainPeripherals(n: nat): (p: seq<byte>)
    requires 1 <= n <= 18
    ensures Inquiry(p) && p[3] == n && forall i: nat | i < n :: ListsPeripheral(p, i) && !SeenAsKeyboard(p, p, i)
  {
    var p := seq(4 + 14 * n, j requires 0 <= j < 4 + 14 * n =>
      if j == 0 then EVENT else if j == 1 then RSSI_INQUIRY else if j == 2 then 1 + 14 * n else if j == 3 then n
      else if 4 + 8 * n <= j < 4 + 11 * n && (j - 4 - 8 * n) % 3 == 1 then 0x05 else 0);
    p
  }

  /** Exactly when the promise holds for every content: with a single response. */
  lemma PromiseKeptExactly(n: byte)
    requires 1 <= n <= 18
    ensures PromiseKept(n) <==> n == 1
  {
    if n == 1 {
      forall p | Inquiry(p) && p[3] == n ensures ShowsKeyboards(p, Patched(p)) {
        SingleKeyboard(p);
      }
    } else {
      var p := PlainPeripherals(n);
      SingleResponse(p);
      assert ListsPeripheral(p, 0) && !SeenAsKeyboard(p, Patched(p), 0);
    }
  }

  const TWO_PERIPHERALS: seq<byte> :=
    [4, 0x22, 29, 2, 1, 2, 3, 4, 5, 6, 7, 8, 9, 10, 11, 12, 0, 0, 0, 0, 8, 5, 0, 8, 5, 0, 0, 0, 0, 0, 0, 0]

  lemma TwoListed()
    ensures Inquiry(TWO_PERIPHERALS)
    ensures ListsPeripheral(TWO_PERIPHERALS, 0) && ListsPeripheral(TWO_PERIPHERALS, 1)
    ensures !SeenAsKeyboard(TWO_PERIPHERALS, TWO_PERIPHERALS, 0)
  {
  }

  /** An inquiry event read whole. */
  lemma ReadWhole(k: Knowledge, p: seq<byte>)
    requires Inquiry(p)
    ensures ReadAll(Reader([], k), [p]) == Some(Seen(Reader([], k), Patched(p)))
  {
    assert Flatten([p]) == p + Flatten([]);
    ReadTransparency(k, p, [p]);
  }

  lemma ManyUnpatched(k: Knowledge, p: seq<byte>)
    requires Inquiry(p) && p[3] != 1
    ensures ReadAll(Reader([], k), [p]) == Some(Seen(Reader([], k), p))
  {
    ReadWhole(k, p);
  }

  /** An event about two Peripherals, read whole: the caller sees it unaltered, and neither is a keyboard. */
  lemma TwoPeripheralsUnpatched()
    ensures Inquiry(TWO_PERIPHERALS) && TWO_PERIPHERALS[3] == 2
    ensures ListsPeripheral(TWO_PERIPHERALS, 0) && ListsPeripheral(TWO_PERIPHERALS, 1)
    ensures ReadAll(Reader([], Nothing()), [TWO_PERIPHERALS]) == Some(Seen(Reader([], Nothing()), TWO_PERIPHERALS))
    ensures !ShowsKeyboards(TWO_PERIPHERALS, TWO_PERIPHERALS)
  {
    TwoListed();
    ManyUnpatched(Nothing(), TWO_PERIPHERALS);
    SingleResponse(TWO_PERIPHERALS);
  }
}
