/**
 * The null <-> infinity convention of the CBC and OR-Tools wrappers: a
 * missing lower bound is written as -infinity and a missing upper bound as
 * +infinity, and a stored bound equal to that value reads back as missing.
 */
module Sentinels {
  import opened Wrappers
  import opened Numbers

  /** `lb != null ? lb.doubleValue() : -infinity`. */
  function WriteLower(lb: Option<Number>, inf: real): (x: real)
    ensures lb.None? ==> x == -inf
    ensures lb.Some? ==> x == DoubleValue(lb.value)
  {
    if lb.None? then -inf else DoubleValue(lb.value)
  }

  /** `ub != null ? ub.doubleValue() : infinity`. */
  function WriteUpper(ub: Option<Number>, inf: real): (x: real)
    ensures ub.None? ==> x == inf
    ensures ub.Some? ==> x == DoubleValue(ub.value)
  {
    if ub.None? then inf else DoubleValue(ub.value)
  }

  /** The lower-bound getters: `-infinity` reads back as null. */
  function ReadLower(x: real, inf: real): (r: Option<real>)
    ensures r.None? <==> x == -inf
    ensures r.Some? ==> r.value == x
  {
    if x == -inf then None else Some(x)
  }

  /** The upper-bound getters: `infinity` reads back as null. */
  function ReadUpper(x: real, inf: real): (r: Option<real>)
    ensures r.None? <==> x == inf
    ensures r.Some? ==> r.value == x
  {
    if x == inf then None else Some(x)
  }

  /**
   * What a lower bound reads back as once written: null stays null, any
   * other value is kept unless it is the sentinel itself.
   */
  function NormalLower(lb: Option<Number>, inf: real): (r: Option<real>)
    ensures r == ReadLower(WriteLower(lb, inf), inf)
    ensures lb.None? ==> r.None?
    ensures lb.Some? && DoubleValue(lb.value) != -inf ==> r == Some(DoubleValue(lb.value))
  {
    if lb.None? then None else ReadLower(DoubleValue(lb.value), inf)
  }

  /** What an upper bound reads back as once written. */
  function NormalUpper(ub: Option<Number>, inf: real): (r: Option<real>)
    ensures r == ReadUpper(WriteUpper(ub, inf), inf)
    ensures ub.None? ==> r.None?
    ensures ub.Some? && DoubleValue(ub.value) != inf ==> r == Some(DoubleValue(ub.value))
  {
    if ub.None? then None else ReadUpper(DoubleValue(ub.value), inf)
  }
}
