/** Bytes, byte strings and the integer widths the program relies on. */
module Bytes {
  type byte = x: int | 0 <= x < 256
  type Key = seq<byte>

  const TWO_TO_32 := 0x1_0000_0000
  const TWO_TO_64 := 0x1_0000_0000_0000_0000
}
