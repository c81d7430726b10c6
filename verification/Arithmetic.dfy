/** Arithmetic that several components share. */
module Arithmetic {

  /** The number of values of 16- and 32-bit integers. */
  const RANGE16: nat := 0x1_0000
  const RANGE32: nat := 0x1_0000_0000

  function Min(a: nat, b: nat): nat { if a < b then a else b }

  lemma Distribute(a: nat, b: nat, c: nat)
    ensures (a + b) * c == a * c + b * c
  {
  }

  lemma Associate(a: nat, b: nat, c: nat)
    ensures (a * b) * c == a * (b * c)
  {
  }
}
