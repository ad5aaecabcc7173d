/** Java's 64-bit `long`: its range and the two's-complement wrap-around of `+` and `-`. */
module JavaLong {
  /** Number of distinct `long` values. */
  const TWO_64: int := 0x1_0000_0000_0000_0000
  /** `Long.MIN_VALUE` and `Long.MAX_VALUE`. */
  const LONG_MIN: int := -0x8000_0000_0000_0000
  const LONG_MAX: int := 0x7FFF_FFFF_FFFF_FFFF

  /** A value a Java `long` can hold: every id, amount and balance of the service. */
  type Long = x: int | LONG_MIN <= x <= LONG_MAX

  /** The `long` that Java's arithmetic yields when the exact result is `x`:
      the one value of the range that differs from `x` by a multiple of 2^64. */
  function Wrap(x: int): (r: Long)
    ensures LONG_MIN <= x <= LONG_MAX ==> r == x
    ensures (x - r) % TWO_64 == 0
  {
    var q := (x - LONG_MIN) / TWO_64;
    assert x - LONG_MIN == q * TWO_64 + (x - LONG_MIN) % TWO_64;
    (x - LONG_MIN) % TWO_64 + LONG_MIN
  }
}
