/** Go's fixed-width integers: conversions and sums wrap around. */
module Integers {
  import opened Lex

  const MAX_INT32: int := 0x7FFF_FFFF

  predicate IsInt32(x: int) {
    -0x8000_0000 <= x <= MAX_INT32
  }

  /** Conversion to int32, and int32 addition. */
  function Wrap32(x: int): int {
    (x + 0x8000_0000) % 0x1_0000_0000 - 0x8000_0000
  }

  /** Products and sums of 64-bit ints. */
  function Wrap64(x: int): int {
    (x + 0x8000_0000_0000_0000) % 0x1_0000_0000_0000_0000 - 0x8000_0000_0000_0000
  }

  /** `ptr.Deref` with zero as the default. */
  function Deref(x: Option<int>): int {
    if x.Some? then x.value else 0
  }

  lemma Wrap32Fits(x: int)
    requires IsInt32(x)
    ensures Wrap32(x) == x
  {}

  lemma Wrap64Fits(x: int)
    requires -0x8000_0000_0000_0000 <= x < 0x8000_0000_0000_0000
    ensures Wrap64(x) == x
  {}

  /** Wrapping adds a multiple of 2^32 or 2^64 that brings the number into the range of the type. */
  lemma WrapsToRange(x: int) returns (k: int, l: int)
    ensures Wrap32(x) == x + k * 0x1_0000_0000 && -0x8000_0000 <= Wrap32(x) <= 0x7FFF_FFFF
    ensures Wrap64(x) == x + l * 0x1_0000_0000_0000_0000
    ensures -0x8000_0000_0000_0000 <= Wrap64(x) <= 0x7FFF_FFFF_FFFF_FFFF
    ensures IsInt32(x) <==> Wrap32(x) == x
  {
    k := -((x + 0x8000_0000) / 0x1_0000_0000);
    l := -((x + 0x8000_0000_0000_0000) / 0x1_0000_0000_0000_0000);
  }

  lemma WrapAbsorbs(x: int, y: int)
    ensures Wrap32(Wrap32(x) + y) == Wrap32(x + y) && IsInt32(Wrap32(x))
  {
    var q := (x + 0x8000_0000) / 0x1_0000_0000;
    assert Wrap32(x) == x - q * 0x1_0000_0000;
    ModShift(x + y + 0x8000_0000, -q);
  }

  lemma ModShift(a: int, q: int)
    ensures (a + q * 0x1_0000_0000) % 0x1_0000_0000 == a % 0x1_0000_0000
  {}
}
