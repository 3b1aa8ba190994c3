/**
 * Java's boxed numbers as they flow through the library: a coefficient or a
 * bound is an `Integer` or a `Double` (a `Float` is widened exactly, so it is
 * a `Double` here).  `equals` on boxed numbers never identifies an `Integer`
 * with a `Double`, which the datatype's own equality reproduces.
 */
module Numbers {

  datatype Number = IntNum(i: int) | RealNum(r: real)

  /** `Number.doubleValue()`. */
  function DoubleValue(n: Number): (r: real)
    ensures n.RealNum? ==> r == n.r
    ensures n.IntNum? ==> r == n.i as real
  {
    match n
    case IntNum(i) => i as real
    case RealNum(x) => x
  }

  /** Java `equals` between two boxed numbers: same box and same value. */
  predicate JavaEquals(a: Number, b: Number) {
    match a
    case IntNum(i) => b.IntNum? && b.i == i
    case RealNum(x) => b.RealNum? && b.r == x
  }

  lemma JavaEqualsIsEquality(a: Number, b: Number)
    ensures JavaEquals(a, b) <==> a == b
  {
  }

  /** An `Integer` and a `Double` with the same value are not `equals`. */
  lemma IntegerIsNotDouble(i: int)
    ensures !JavaEquals(IntNum(i), RealNum(i as real))
    ensures DoubleValue(IntNum(i)) == DoubleValue(RealNum(i as real))
  {
  }

  const INT_MIN: int := -0x8000_0000
  const INT_MAX: int := 0x7FFF_FFFF

  /** Truncation toward zero (the integer part of `x`). */
  function Truncate(x: real): (r: int)
    ensures 0.0 <= x ==> r as real <= x < r as real + 1.0
    ensures x < 0.0 ==> r as real - 1.0 < x <= r as real
  {
    if 0.0 <= x then x.Floor else -((-x).Floor)
  }

  /**
   * The Java narrowing cast `(int) x` from `double`: truncation toward zero,
   * saturating at the bounds of `int` (NaN is not a real and is left out).
   */
  function IntCast(x: real): (r: int)
    ensures INT_MIN <= r <= INT_MAX
    ensures INT_MIN as real <= x <= INT_MAX as real ==> r == Truncate(x)
    ensures x >= INT_MAX as real ==> r == INT_MAX
    ensures x <= INT_MIN as real ==> r == INT_MIN
  {
    if x >= INT_MAX as real then INT_MAX
    else if x <= INT_MIN as real then INT_MIN
    else Truncate(x)
  }

  /** Reduction to a 32-bit two's-complement `int`, as Java's `int` arithmetic wraps. */
  function Wrap32(x: int): (r: int)
    ensures INT_MIN <= r <= INT_MAX
    ensures (r - x) % 0x1_0000_0000 == 0
    ensures INT_MIN <= x <= INT_MAX ==> r == x
  {
    var m := (x - INT_MIN) % 0x1_0000_0000;
    m + INT_MIN
  }
}
