/** Fixed-width words of the source, kept as bounded integers so that wrap-around is written out. */
module MachineWords {

  const TWO32: nat := 0x1_0000_0000
  const TWO64: nat := 0x1_0000_0000_0000_0000

  type U32 = x: nat | x < 0x1_0000_0000
  type U64 = x: nat | x < 0x1_0000_0000_0000_0000

  /** All-ones words: the source's INVALID_UINT32 and INVALID_UINT64 / INVALID_TIME. */
  const INVALID_U32: U32 := TWO32 - 1
  const INVALID_U64: U64 := TWO64 - 1

  /** Unsigned 64-bit subtraction, which wraps below zero. */
  function Sub64(a: U64, b: U64): (r: U64)
    ensures a == Add64(b, r)
  {
    if b <= a then a - b else a - b + TWO64
  }

  /** Unsigned 64-bit addition, which wraps at 2^64. */
  function Add64(a: U64, b: U64): (r: U64) {
    if a + b < TWO64 then a + b else a + b - TWO64
  }

  datatype Option<+T> = None | Some(value: T)
}
