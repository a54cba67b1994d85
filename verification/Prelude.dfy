/** Value types shared by the modules of the model. */
module Prelude {
  datatype Option<+T> = None | Some(value: T)

  // The machine integers of the program; wrap-around is always written out.
  type u8 = x: int | 0 <= x < 0x100
  type u16 = x: int | 0 <= x < 0x1_0000
  type u32 = x: int | 0 <= x < 0x1_0000_0000
  type u64 = x: int | 0 <= x < 0x1_0000_0000_0000_0000

  type Bytes = seq<u8>

  /** `u16::wrapping_sub`: the cyclic distance from b up to a. */
  function WrappingSub16(a: u16, b: u16): u16 {
    (a - b) % 0x1_0000
  }

  function Min(a: int, b: int): int {
    if a <= b then a else b
  }

  lemma Associative(a: Bytes, b: Bytes, c: Bytes)
    ensures (a + b) + c == a + (b + c)
  {
  }
}
