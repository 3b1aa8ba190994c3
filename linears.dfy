/**
 * `Linears.compute` (and the legacy `Variables.computeWithSnapshot`, the same
 * loop): the value of a linear under a snapshot of variable values, summed
 * term by term from zero.  A variable the snapshot lacks reads as null, and
 * unboxing it throws.
 */
module Linears {
  import opened Wrappers
  import opened Terms

  /** Every variable of `ts` has a value in `values`. */
  predicate Covers<V>(ts: seq<Term<V>>, values: map<V, real>) {
    forall k :: 0 <= k < |ts| ==> ts[k].variable in values
  }

  /** The sum of coefficient times value, accumulated left to right. */
  function Sum<V>(ts: seq<Term<V>>, values: map<V, real>): real
    requires Covers(ts, values)
  {
    if ts == [] then 0.0
    else
      var last := ts[|ts| - 1];
      Sum(ts[..|ts| - 1], values) + last.coefficient * values[last.variable]
  }

  /** The value of a concatenation is the sum of the values of its parts. */
  lemma {:induction false} SumConcat<V>(a: seq<Term<V>>, b: seq<Term<V>>, values: map<V, real>)
    requires Covers(a, values) && Covers(b, values)
    ensures Covers(a + b, values)
    ensures Sum(a + b, values) == Sum(a, values) + Sum(b, values)
    decreases |b|
  {
    assert Covers(a + b, values) by {
      forall k | 0 <= k < |a + b|
        ensures (a + b)[k].variable in values
      {
        if k < |a| {
          assert (a + b)[k] == a[k];
        } else {
          assert (a + b)[k] == b[k - |a|];
        }
      }
    }
    if b == [] {
      assert a + b == a;
    } else {
      var init := b[..|b| - 1];
      assert Covers(init, values) by {
        forall k | 0 <= k < |init|
          ensures init[k].variable in values
        {
          assert init[k] == b[k];
        }
      }
      SumConcat(a, init, values);
      assert (a + b)[..|a + b| - 1] == a + init;
      assert (a + b)[|a + b| - 1] == b[|b| - 1];
    }
  }

  /** The order of the terms does not change the value: swapping two neighbours keeps it. */
  lemma SumSwap<V>(a: seq<Term<V>>, x: Term<V>, y: Term<V>, b: seq<Term<V>>, values: map<V, real>)
    requires Covers(a, values) && Covers(b, values) && x.variable in values && y.variable in values
    ensures Covers(a + [x, y] + b, values) && Covers(a + [y, x] + b, values)
    ensures Sum(a + [x, y] + b, values) == Sum(a + [y, x] + b, values)
  {
    assert Sum([x, y], values) == Sum([y, x], values) by {
      assert [x, y][..1] == [x];
      assert [y, x][..1] == [y];
      assert [x][..0] == [] && [y][..0] == [];
    }
    SumConcat(a, [x, y], values);
    SumConcat(a + [x, y], b, values);
    SumConcat(a, [y, x], values);
    SumConcat(a + [y, x], b, values);
  }

  /** `compute(linear, snapshot)`: throws as soon as a term's variable has no value. */
  method Compute<V>(linear: seq<Term<V>>, snapshot: Option<map<V, real>>) returns (r: Result<real>)
    ensures linear == [] ==> r == Ok(0.0)
    ensures r.Ok? <==> linear == [] || (snapshot.Some? && Covers(linear, snapshot.value))
    ensures r.Err? ==> r.error == NullPointer
    ensures r.Ok? && snapshot.Some? ==> r.value == Sum(linear, snapshot.value)
  {
    var value := 0.0;
    var i := 0;
    while i < |linear|
      invariant 0 <= i <= |linear|
      invariant snapshot.Some? ==> Covers(linear[..i], snapshot.value)
      invariant i > 0 ==> snapshot.Some?
      invariant snapshot.Some? ==> value == Sum(linear[..i], snapshot.value)
      invariant snapshot.None? ==> value == 0.0
    {
      var term := linear[i];
      if snapshot.None? || term.variable !in snapshot.value {
        return Err(NullPointer);
      }
      assert linear[..i + 1][..i] == linear[..i];
      value := value + term.coefficient * snapshot.value[term.variable];
      i := i + 1;
    }
    assert linear[..|linear|] == linear;
    return Ok(value);
  }
}
