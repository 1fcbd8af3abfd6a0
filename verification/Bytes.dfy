/** Bytes, and the widths of words, as every module uses them. */
module Bytes {
  newtype byte = x: int | 0 <= x < 256

  const TWO32: nat := 0x1_0000_0000
  const TWO64: nat := 0x1_0000_0000_0000_0000
}
