/** Fixed-width unsigned integers of the interpreter (Go's `byte` and `uint16`),
    kept as bounded integers with the wrap-around of Go's arithmetic written out. */
module Bytes {

  type byte = x: int | 0 <= x < 0x100
  type u16 = x: int | 0 <= x < 0x1_0000
  type nibble = x: int | 0 <= x < 0x10

  /** Go's `uint8` addition: the sum modulo 256. */
  function Add8(a: byte, b: byte): byte
  {
    (a + b) % 0x100
  }

  /** Go's `uint8` subtraction: the difference modulo 256 (Dafny's `%` is never negative). */
  function Sub8(a: byte, b: byte): byte
  {
    (a - b) % 0x100
  }

  /** Go's `uint16` addition of a non-negative amount: the sum modulo 65536. */
  function Add16(a: u16, b: nat): u16
  {
    (a + b) % 0x1_0000
  }

  function Or8(a: byte, b: byte): byte
  {
    ((a as bv8) | (b as bv8)) as int
  }

  function And8(a: byte, b: byte): byte
  {
    ((a as bv8) & (b as bv8)) as int
  }

  function Xor8(a: byte, b: byte): byte
  {
    ((a as bv8) ^ (b as bv8)) as int
  }

  /** `And8` is the bitwise and of the two bytes. */
  lemma AndBits(a: byte, m: byte)
    ensures And8(a, m) as bv8 == (a as bv8) & (m as bv8)
  {
    BitsRoundTrip((a as bv8) & (m as bv8));
  }

  /** Masking keeps only bits of the mask. */
  lemma AndKeepsMaskBits(a: byte, m: byte)
    ensures (And8(a, m) as bv8) & !(m as bv8) == 0
  {
    AndBits(a, m);
    MaskedBits(a as bv8, m as bv8);
  }

  lemma MaskedBits(x: bv8, y: bv8)
    ensures (x & y) & !y == 0
  {
  }

  lemma BitsRoundTrip(x: bv8)
    ensures (x as int) as bv8 == x
  {
  }

  /** Whether bit number `bit` of `b`, counted from the most significant bit, is set:
      Go's `b & (1 << (7 - bit)) > 0`. */
  predicate BitSet(b: byte, bit: int)
    requires 0 <= bit < 8
  {
    (b as bv8) & ((0x80 as bv8) >> bit) != 0
  }

  function Min(a: int, b: int): int
  {
    if a <= b then a else b
  }
}
