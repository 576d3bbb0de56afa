/** Java's 64-bit `long` and the narrowing conversion that keeps only its low-order bits. */
module JavaLong {

  const MinLong: int := -0x8000_0000_0000_0000
  const MaxLong: int := 0x7FFF_FFFF_FFFF_FFFF
  /** 2^64: the modulus of two's-complement `long` arithmetic */
  const TwoTo64: int := 0x1_0000_0000_0000_0000

  type Long = x: int | MinLong <= x <= MaxLong

  predicate InLongRange(x: int) {
    MinLong <= x <= MaxLong
  }

  /**
   * The low-order 64 bits of `x`, read as a two's-complement `long`: what
   * `BigInteger.longValue()` and `BigDecimal.longValue()` return for a value
   * too big to fit.
   */
  function LowBits64(x: int): (r: Long)
    ensures (x - r) % TwoTo64 == 0
    ensures InLongRange(x) ==> r == x
  {
    var m := x % TwoTo64;
    if m <= MaxLong then m else m - TwoTo64
  }

  /** Just past `Long.MAX_VALUE` the low-order bits read as a negative number. */
  lemma LowBits64AboveMax(x: int)
    requires MaxLong < x < TwoTo64
    ensures LowBits64(x) == x - TwoTo64
  {
    assert x % TwoTo64 == x;
  }

  /** Just below `Long.MIN_VALUE` the low-order bits read as a positive number. */
  lemma LowBits64BelowMin(x: int)
    requires -TwoTo64 <= x < MinLong
    ensures LowBits64(x) == x + TwoTo64
  {
    assert x % TwoTo64 == x + TwoTo64;
  }
}
