/** Types every other module uses. */
module Basics {
  datatype Option<+T> = None | Some(value: T)

  newtype byte = x: int | 0 <= x < 256

  type Bytes = seq<byte>

  type int64 = x: int | -0x8000_0000_0000_0000 <= x < 0x8000_0000_0000_0000

  predicate IsHex(c: byte) {
    0x30 <= c <= 0x39 || 0x61 <= c <= 0x66 || 0x41 <= c <= 0x46
  }

  /** What a hexadecimal digit of either case stands for. */
  function HexValue(c: byte): nat
    requires IsHex(c)
  {
    if c <= 0x39 then c as nat - 0x30 else if c <= 0x46 then c as nat - 0x37 else c as nat - 0x57
  }
}
