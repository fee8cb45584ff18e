/** Integers as the program computes with them. */
module Arithmetic {
  function Min(a: int, b: int): int { if a < b then a else b }

  function Max(a: int, b: int): int { if a > b then a else b }

  const TWO_63 := 0x8000_0000_0000_0000

  /** What a sum or difference becomes in 64 bits. */
  function Wrap64(d: int): int { (d + TWO_63) % (2 * TWO_63) - TWO_63 }
}
