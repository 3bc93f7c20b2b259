/** What HID input and output reports are made of. */
module HidReports {
  type HidBytes = seq<bv8>

  /** The buffer of the HID manager that input reports arrive in. */
  type Report = r: HidBytes | |r| == 2048 witness seq(2048, _ => 0)

  /** The LED of a player on the Nintendo controllers. */
  function LedBit(index: int): bv8
    requires 0 <= index < 4
  {
    if index == 0 then 0x10 else if index == 1 then 0x20 else if index == 2 then 0x40 else 0x80
  }

  /** The LEDs are in the upper half of the byte. */
  lemma LedBitUpper(index: int)
    requires 0 <= index < 4
    ensures LedBit(index) & 0xF0 == LedBit(index)
  {
  }
}
