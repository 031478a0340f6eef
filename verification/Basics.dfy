/** Word sizes and the optional value, shared by all components. */
module Basics {

  const U32 := 0x1_0000_0000
  const U64 := 0x1_0000_0000_0000_0000

  /** UINT32_MAX, which stands for no wake-up. */
  const NEVER := 0xFFFF_FFFF

  datatype Option<+T> = None | Some(value: T)

  /** The number of values of size_t: 2^32 or 2^64. */
  predicate IsWord(w: nat) { w == U32 || w == U64 }
}
