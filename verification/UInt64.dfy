/** Go's unsigned 64-bit arithmetic: addition and subtraction wrap around at 2^64. */
module UInt64 {

  const POW64: nat := 0x1_0000_0000_0000_0000

  type uint64 = n: nat | n < POW64

  /** `a + b` on uint64. */
  function Add(a: uint64, b: uint64): uint64 {
    if a + b < POW64 then a + b else a + b - POW64
  }

  /** `a - b` on uint64. */
  function Sub(a: uint64, b: uint64): uint64 {
    if b <= a then a - b else a + POW64 - b
  }

  /** `^a` on uint64. */
  function Complement(a: uint64): uint64 {
    POW64 - 1 - a
  }

  /** The wrapped operations are arithmetic modulo 2^64. */
  lemma WrapIsModular(a: uint64, b: uint64)
    ensures Add(a, b) == (a + b) % POW64
    ensures Sub(a, b) == (a - b) % POW64
  {}

  /** `v + ^(n - 1)`, the idiom Free uses to subtract: it is subtraction for every n, zero included. */
  function SubByComplement(v: uint64, n: uint64): (r: uint64)
    ensures r == Sub(v, n)
  {
    Add(v, Complement(Sub(n, 1)))
  }
}
