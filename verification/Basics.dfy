/** What several parts use: a value that may be missing, bytes, int, and the size of an ext2 block. */
module Basics {

  datatype Option<T> = None | Some(value: T)

  type byte = x: nat | x < 256

  const BLOCKSIZE := 1024

  const INT_MAX := 0x7FFF_FFFF

  // Conversion to int.
  function AsInt(v: int): int {
    var r := v % 0x1_0000_0000;
    if r > INT_MAX then r - 0x1_0000_0000 else r
  }

  // It is the number of 32 bits, with sign, that is congruent.
  lemma AsIntLaw(v: int)
    ensures -0x8000_0000 <= AsInt(v) <= 0x7FFF_FFFF
    ensures exists k: int :: AsInt(v) == v + k * 0x1_0000_0000
  {
    var k := v / 0x1_0000_0000;
    assert AsInt(v) == v + (if v % 0x1_0000_0000 > INT_MAX then -k - 1 else -k) * 0x1_0000_0000;
  }
}
