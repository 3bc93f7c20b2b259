/** The six bytes a Classic Controller reports: two sticks packed across three bytes, and a button word. */
module ClassicReports {
  import opened HidReports

  function BigEndianShort(hi: bv8, lo: bv8): bv16 {
    ((hi as bv16) << 8) | lo as bv16
  }

  function ClassicButtons(msg: HidBytes): bv16
    requires |msg| >= 6
  {
    ButtonWord(msg[4], msg[5])
  }

  /** Pressed buttons are zero bits, and bit 8 is unused. */
  function ButtonWord(hi: bv8, lo: bv8): bv16 {
    Complemented(BigEndianShort(hi, lo))
  }

  function Complemented(w: bv16): bv16 {
    !w & 0xFEFF
  }

  /** The first byte is the upper half of the word. */
  lemma BigEndianHalves(hi: bv8, lo: bv8)
    ensures BigEndianShort(hi, lo) >> 8 == hi as bv16 && BigEndianShort(hi, lo) & 0x00FF == lo as bv16
  {
  }

  /** The raw axis values, six bits on the left stick and five on the right. */
  function ClassicAxes(msg: HidBytes): (raws: seq<bv8>)
    requires |msg| >= 6
    ensures |raws| == 4
  {
    [msg[0] & 0x3F, msg[1] & 0x3F, RightX(msg[0], msg[1], msg[2]), msg[2] & 0x1F]
  }

  function RightX(b0: bv8, b1: bv8, b2: bv8): bv8 {
    ((b0 & 0xC0) >> 3) | ((b1 & 0xC0) >> 5) | ((b2 & 0x80) >> 7)
  }

  /** The layout the expansion uses: trigger bits are extra, pressed buttons are zero bits. */
  function Packed(lx: bv8, ly: bv8, rx: bv8, ry: bv8, triggers: bv8, extra: bv8, hi: bv8, lo: bv8): HidBytes {
    [Byte0(lx, rx), Byte1(ly, rx), Byte2(ry, rx, triggers), extra, !hi, !lo]
  }

  function Byte0(lx: bv8, rx: bv8): bv8 {
    ((rx & 0x18) << 3) | lx
  }

  function Byte1(ly: bv8, rx: bv8): bv8 {
    ((rx & 0x06) << 5) | ly
  }

  function Byte2(ry: bv8, rx: bv8, triggers: bv8): bv8 {
    ((rx & 0x01) << 7) | ((triggers & 0x03) << 5) | ry
  }

  /** Complementing twice: the bits that were pressed come back, bit 8 cleared. */
  lemma ButtonsDecode(hi: bv8, lo: bv8)
    ensures ButtonWord(!hi, !lo) == BigEndianShort(hi & 0xFE, lo)
  {
  }

  lemma AxesDecode(lx: bv8, ly: bv8, rx: bv8, ry: bv8, triggers: bv8, extra: bv8, hi: bv8, lo: bv8)
    requires lx < 64 && ly < 64 && rx < 32 && ry < 32
    ensures ClassicAxes(Packed(lx, ly, rx, ry, triggers, extra, hi, lo)) == [lx, ly, rx, ry]
  {
  }

  /** Decoding inverts packing: the four stick values come back, and the buttons without the unused bit 8. */
  lemma ClassicDecodesPacked(lx: bv8, ly: bv8, rx: bv8, ry: bv8, triggers: bv8, extra: bv8, hi: bv8, lo: bv8)
    requires lx < 64 && ly < 64 && rx < 32 && ry < 32
    ensures ClassicAxes(Packed(lx, ly, rx, ry, triggers, extra, hi, lo)) == [lx, ly, rx, ry]
    ensures ClassicButtons(Packed(lx, ly, rx, ry, triggers, extra, hi, lo)) == BigEndianShort(hi & 0xFE, lo)
  {
    AxesDecode(lx, ly, rx, ry, triggers, extra, hi, lo);
    ButtonsDecode(hi, lo);
  }
}
