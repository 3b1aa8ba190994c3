/**
 * `Bound`: an immutable pair of a lower and an upper bound, null meaning
 * unbounded.  The legacy `Bound` of the `ilp` tree is the same value pair
 * with the same `equals` and `hashCode`, so both trees share this module.
 */
module Bounds {
  import opened Wrappers
  import opened Numbers

  datatype Bound = Bound(lower: Option<Number>, upper: Option<Number>)

  /** One side of `equals`: null equals only null, otherwise `Number.equals`. */
  predicate SideEquals(a: Option<Number>, b: Option<Number>) {
    if a.None? then b.None? else b.Some? && JavaEquals(a.value, b.value)
  }

  /** `equals` on two bounds: both sides compare equal. */
  predicate BoundEquals(a: Bound, b: Bound) {
    SideEquals(a.lower, b.lower) && SideEquals(a.upper, b.upper)
  }

  /** `equals` is componentwise value equality; in particular it is reflexive. */
  lemma BoundEqualsIsEquality(a: Bound, b: Bound)
    ensures BoundEquals(a, b) <==> a == b
  {
    if a.lower.Some? && b.lower.Some? {
      JavaEqualsIsEquality(a.lower.value, b.lower.value);
    }
    if a.upper.Some? && b.upper.Some? {
      JavaEqualsIsEquality(a.upper.value, b.upper.value);
    }
  }

  /** A bound with a null side never equals one where that side is set. */
  lemma NullEqualsOnlyNull(a: Bound, x: Number)
    ensures !BoundEquals(a.(lower := None), a.(lower := Some(x)))
    ensures !BoundEquals(a.(upper := None), a.(upper := Some(x)))
  {
  }

  /**
   * `hashCode`: `31 * (31 * 1 + h(lower)) + h(upper)` in 32-bit arithmetic,
   * a null side hashing to 0; `Number.hashCode` is given.
   */
  function HashCode(b: Bound, numberHash: Number -> int): (h: int)
    ensures INT_MIN <= h <= INT_MAX
  {
    var lower := if b.lower.None? then 0 else numberHash(b.lower.value);
    var upper := if b.upper.None? then 0 else numberHash(b.upper.value);
    var result := Wrap32(31 * 1 + lower);
    Wrap32(31 * result + upper)
  }

  /** Equal bounds have equal hash codes. */
  lemma EqualBoundsHashEqually(a: Bound, b: Bound, numberHash: Number -> int)
    requires BoundEquals(a, b)
    ensures HashCode(a, numberHash) == HashCode(b, numberHash)
  {
    BoundEqualsIsEquality(a, b);
  }
}
