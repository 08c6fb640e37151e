/**
 * Floating-point values are kept as their raw IEEE 754 bit patterns: they
 * are copied and compared, never computed with. Comparison follows the
 * standard's `==`: a NaN equals nothing, and +0 equals -0.
 */
module Floats {
  type F32 = bv32

  const ZERO: F32 := 0x0000_0000
  const ONE: F32 := 0x3F80_0000
  const NEG_ONE: F32 := 0xBF80_0000

  predicate IsNaN(x: F32)
  {
    x & 0x7F80_0000 == 0x7F80_0000 && x & 0x007F_FFFF != 0
  }

  predicate IsZero(x: F32)
  {
    x & 0x7FFF_FFFF == 0
  }

  /** The `==` of two floats. */
  predicate FloatEq(x: F32, y: F32)
  {
    !IsNaN(x) && !IsNaN(y) && (x == y || (IsZero(x) && IsZero(y)))
  }

  /** `==` is symmetric, holds of every non-NaN value with itself, and only identifies the two zeros beyond equal bits. */
  lemma FloatEqProperties(x: F32, y: F32)
    ensures FloatEq(x, y) <==> FloatEq(y, x)
    ensures FloatEq(x, x) <==> !IsNaN(x)
    ensures FloatEq(x, y) && x != y ==> IsZero(x) && IsZero(y)
    ensures FloatEq(ZERO, 0x8000_0000) && !IsNaN(ONE) && !IsNaN(NEG_ONE)
  {
  }

  /**
   * The place of a float on the number line: its bits as an unsigned
   * number when the sign bit is clear, the negated magnitude when it is
   * set. Both zeros sit at 0; a NaN gets a place that `<` never uses.
   */
  function OrderKey(x: F32): int
  {
    var bits := x as int;
    if bits >= 0x8000_0000 then 0x8000_0000 - bits else bits
  }

  /** The `<` of two floats: false whenever a NaN is involved. */
  predicate FloatLess(x: F32, y: F32)
  {
    !IsNaN(x) && !IsNaN(y) && OrderKey(x) < OrderKey(y)
  }

  lemma BitsRoundTrip(x: F32)
    ensures (x as int) as F32 == x
  {
  }

  /** Different bits are different numbers. */
  lemma BitsInjective(x: F32, y: F32)
    ensures x as int == y as int ==> x == y
  {
    BitsRoundTrip(x);
    BitsRoundTrip(y);
  }

  lemma ZeroBits(x: F32)
    ensures IsZero(x) <==> (x as int == 0 || x as int == 0x8000_0000)
  {
  }

  /** Equal places mean equal bits or the two zeros. */
  lemma SamePlace(x: F32, y: F32)
    ensures OrderKey(x) == OrderKey(y) <==> (x == y || (IsZero(x) && IsZero(y)))
  {
    ZeroBits(x);
    ZeroBits(y);
    BitsInjective(x, y);
  }

  /** Two non-NaN floats sit at the same place exactly when they are `==`; so of `<`, `>` and `==` exactly one holds. */
  lemma OrderKeyMatchesEq(x: F32, y: F32)
    requires !IsNaN(x) && !IsNaN(y)
    ensures OrderKey(x) == OrderKey(y) <==> FloatEq(x, y)
    ensures FloatLess(x, y) || FloatLess(y, x) || FloatEq(x, y)
    ensures FloatEq(x, y) ==> !FloatLess(x, y) && !FloatLess(y, x)
  {
    SamePlace(x, y);
    var same := x == y || (IsZero(x) && IsZero(y));
    assert FloatEq(x, y) == same;
    assert FloatLess(x, y) == (OrderKey(x) < OrderKey(y));
    assert FloatLess(y, x) == (OrderKey(y) < OrderKey(x));
  }

  /** A NaN is neither below nor above anything. */
  lemma NaNUnordered(x: F32, y: F32)
    requires IsNaN(x)
    ensures !FloatLess(x, y) && !FloatLess(y, x)
  {
  }
}
