/** What several components share: bytes, 32-bit registers, optional results, and the entries of free lists. */
module Basics {
  datatype Option<+T> = None | Some(value: T)

  type byte = x: int | 0 <= x < 256

  const WORD: nat := 0x1_0000_0000

  function Max(a: int, b: int): int { if a > b then a else b }

  function Min(a: int, b: int): int { if a < b then a else b }

  /** A value as a signed 32-bit register holds it. */
  function Signed(v: int): int {
    if v % WORD < WORD / 2 then v % WORD else v % WORD - WORD
  }
}

module FreeLists {
  const MEMMAN_FREES: nat := 4090

  /** A free block. */
  datatype FreeInfo = FreeInfo(addr: nat, size: nat)
}
