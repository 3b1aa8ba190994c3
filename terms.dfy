/**
 * `ConcreteTerm`: an immutable pair of a coefficient and a variable.  The
 * coefficient is stored as the `Double` value of the given number, so terms
 * built from `Integer` 1 and `Double` 1.0 compare equal.
 */
module Terms {
  import opened Wrappers
  import opened Numbers

  /** A term over variables of type `V`; the coefficient is the stored `Double`. */
  datatype Term<V> = Term(coefficient: real, variable: V)

  /** `new ConcreteTerm(coefficient, variable)`. */
  function NewTerm<V>(coefficient: Option<Number>, variable: Option<V>): (r: Result<Term<V>>)
    ensures r.Err? <==> coefficient.None? || variable.None?
    ensures r.Err? ==> r.error == NullPointer
    ensures r.Ok? ==>
      r.value.coefficient == DoubleValue(coefficient.value) && r.value.variable == variable.value
  {
    if coefficient.None? || variable.None? then Err(NullPointer)
    else Ok(Term(DoubleValue(coefficient.value), variable.value))
  }

  /** `equals`: the same coefficient and the same variable. */
  predicate TermEquals<V(==)>(a: Term<V>, b: Term<V>) {
    a.coefficient == b.coefficient && a.variable == b.variable
  }

  lemma TermEqualsIsEquality<V>(a: Term<V>, b: Term<V>)
    ensures TermEquals(a, b) <==> a == b
  {
  }

  /** Integer 1 and Double 1.0 over one variable give equal terms. */
  lemma IntegerAndDoubleCoefficientsAgree<V>(i: int, v: V)
    ensures NewTerm(Some(IntNum(i)), Some(v)) == NewTerm(Some(RealNum(i as real)), Some(v))
    ensures NewTerm(Some(IntNum(i)), Some(v)).Ok?
  {
  }

  /**
   * `hashCode`: `31 * (31 + hash(coefficient)) + hash(variable)` in 32-bit
   * arithmetic.  `Double.hashCode` and the variable's `hashCode` are given.
   */
  function HashCode<V>(t: Term<V>, doubleHash: real -> int, variableHash: V -> int): (h: int)
    ensures INT_MIN <= h <= INT_MAX
  {
    var result := Wrap32(31 * 1 + doubleHash(t.coefficient));
    Wrap32(31 * result + variableHash(t.variable))
  }

  /** Equal terms have equal hash codes. */
  lemma EqualTermsHashEqually<V>(a: Term<V>, b: Term<V>, dh: real -> int, vh: V -> int)
    requires TermEquals(a, b)
    ensures HashCode(a, dh, vh) == HashCode(b, dh, vh)
  {
  }
}
