/**
 * The backend-independent part of `AbstractLinearProblem`: the linear
 * checks, the `createLinear`/`createTerm` builders and `isMIP`.  The default
 * `addConstraint`, `addIntegerVariable` and `addBinaryVariable` act on a
 * concrete problem and are modelled in each backend that inherits them.
 */
module LinearBuilders {
  import opened Wrappers
  import opened Numbers
  import opened Types
  import opened Terms
  import opened LinearExpr

  /** `checkVariable`: a null variable passes; a disposed one is rejected. */
  function CheckVariable<V>(variable: Option<V>, disposed: set<V>): (r: Result<()>)
    ensures r.Err? <==> variable.Some? && variable.value in disposed
    ensures r.Err? ==> r.error == IllegalArgument
  {
    if variable.Some? && variable.value in disposed then Err(IllegalArgument) else Ok(())
  }

  /**
   * `checkLinear`: null and empty linears pass; otherwise each term's
   * variable is checked in turn.  `disposed` holds the variables that report
   * `isDisposed()`.
   */
  function CheckLinear<V>(linear: Option<seq<Term<V>>>, disposed: set<V>): (r: Result<()>)
    ensures r.Err? <==>
      linear.Some? && exists i :: 0 <= i < |linear.value| && linear.value[i].variable in disposed
    ensures r.Err? ==> r.error == IllegalArgument
  {
    if linear.None? || |linear.value| == 0 then Ok(())
    else CheckTerms(linear.value, disposed)
  }

  function CheckTerms<V>(terms: seq<Term<V>>, disposed: set<V>): (r: Result<()>)
    ensures r.Err? <==> exists i :: 0 <= i < |terms| && terms[i].variable in disposed
    ensures r.Err? ==> r.error == IllegalArgument
  {
    if terms == [] then Ok(())
    else if CheckVariable(Some(terms[0].variable), disposed).Err? then Err(IllegalArgument)
    else
      var rest := CheckTerms(terms[1..], disposed);
      assert forall i :: 1 <= i < |terms| ==> terms[i] == terms[1..][i - 1];
      rest
  }

  /** The variables a linear refers to. */
  function VariablesOf<V>(terms: seq<Term<V>>): set<V> {
    set t | t in terms :: t.variable
  }

  /** A linear passes `checkLinear` exactly when it refers to no disposed variable. */
  lemma CheckLinearOnVariables<V>(linear: Option<seq<Term<V>>>, disposed: set<V>)
    ensures CheckLinear(linear, disposed).Ok? <==>
      linear.None? || VariablesOf(linear.value) !! disposed
  {
    if linear.Some? {
      if CheckLinear(linear, disposed).Err? {
        var i :| 0 <= i < |linear.value| && linear.value[i].variable in disposed;
        assert linear.value[i].variable in VariablesOf(linear.value);
      } else {
        forall v | v in VariablesOf(linear.value) ensures v !in disposed {
          var t :| t in linear.value && t.variable == v;
          var i :| 0 <= i < |linear.value| && linear.value[i] == t;
        }
      }
    }
  }

  /**
   * `isMIP` of `AbstractLinearProblem`: scans the variables' types and stops
   * at the first REAL one.  `types` lists `getType()` of each variable.
   */
  function IsMIP(types: seq<VarType>): (r: bool)
    ensures r <==> forall i :: 0 <= i < |types| ==> types[i] != REAL
    ensures types == [] ==> r
  {
    if types == [] then true
    else if types[0] == REAL then false
    else
      var rest := IsMIP(types[1..]);
      assert forall i :: 1 <= i < |types| ==> types[i] == types[1..][i - 1];
      rest
  }

  /** `createLinear(List, List)` keeps a pair iff both are non-null and the coefficient is not zero. */
  predicate Kept<V>(coefficient: Option<Number>, variable: Option<V>) {
    coefficient.Some? && DoubleValue(coefficient.value) != 0.0 && variable.Some?
  }

  /** The terms `createLinear(List, List)` adds, in input order. */
  function KeptTerms<V>(coefficients: seq<Option<Number>>, variables: seq<Option<V>>): (r: seq<Term<V>>)
    requires |coefficients| == |variables|
    decreases |coefficients|
  {
    if coefficients == [] then []
    else
      var rest := KeptTerms(coefficients[1..], variables[1..]);
      if Kept(coefficients[0], variables[0])
      then [Term(DoubleValue(coefficients[0].value), variables[0].value)] + rest
      else rest
  }

  /** The terms left after `add`-ing each of `ts` in turn to a linear holding `start`. */
  function AddAll<V(==)>(start: Option<seq<Term<V>>>, ts: seq<Term<V>>): Option<seq<Term<V>>>
    decreases |ts|
  {
    if ts == [] then start
    else AddAll(Some(Inserted(if start.None? then [] else start.value, ts[0])), ts[1..])
  }

  /** A kept term comes from a kept input pair at some position, and every kept pair yields one. */
  lemma {:induction false} KeptTermsSpec<V>(coefficients: seq<Option<Number>>, variables: seq<Option<V>>)
    requires |coefficients| == |variables|
    ensures forall t :: t in KeptTerms(coefficients, variables) <==>
      exists i :: 0 <= i < |coefficients| && Kept(coefficients[i], variables[i]) &&
        t == Term(DoubleValue(coefficients[i].value), variables[i].value)
    ensures forall t :: t in KeptTerms(coefficients, variables) ==> t.coefficient != 0.0
    decreases |coefficients|
  {
    if coefficients != [] {
      KeptTermsSpec(coefficients[1..], variables[1..]);
      forall t
        ensures t in KeptTerms(coefficients, variables) <==>
          exists i :: 0 <= i < |coefficients| && Kept(coefficients[i], variables[i]) &&
            t == Term(DoubleValue(coefficients[i].value), variables[i].value)
      {
        if t in KeptTerms(coefficients[1..], variables[1..]) {
          var j :| 0 <= j < |coefficients[1..]| && Kept(coefficients[1..][j], variables[1..][j]) &&
            t == Term(DoubleValue(coefficients[1..][j].value), variables[1..][j].value);
          assert coefficients[j + 1] == coefficients[1..][j];
          assert variables[j + 1] == variables[1..][j];
        }
        if exists i :: 0 <= i < |coefficients| && Kept(coefficients[i], variables[i]) &&
            t == Term(DoubleValue(coefficients[i].value), variables[i].value)
        {
          var i :| 0 <= i < |coefficients| && Kept(coefficients[i], variables[i]) &&
            t == Term(DoubleValue(coefficients[i].value), variables[i].value);
          if i > 0 {
            assert coefficients[1..][i - 1] == coefficients[i];
            assert variables[1..][i - 1] == variables[i];
          }
        }
      }
    }
  }

  /** Adding terms one by one to a fresh linear leaves their set, without duplicates, in first-seen order. */
  lemma {:induction false} AddAllSpec<V>(start: Option<seq<Term<V>>>, ts: seq<Term<V>>)
    requires start.Some? ==> Distinct(start.value)
    ensures AddAll(start, ts).None? <==> start.None? && ts == []
    ensures AddAll(start, ts).Some? ==> Distinct(AddAll(start, ts).value)
    ensures AddAll(start, ts).Some? ==>
      Elems(AddAll(start, ts).value) == Elems(if start.None? then [] else start.value) + Elems(ts)
    decreases |ts|
  {
    if ts != [] {
      var s := if start.None? then [] else start.value;
      InsertedSpec(s, ts[0]);
      AddAllSpec(Some(Inserted(s, ts[0])), ts[1..]);
      assert Elems(ts) == {ts[0]} + Elems(ts[1..]);
    }
  }

  lemma AddAllStep<V>(start: Option<seq<Term<V>>>, ts: seq<Term<V>>, t: Term<V>)
    ensures AddAll(start, ts + [t]) ==
      Some(Inserted(if AddAll(start, ts).None? then [] else AddAll(start, ts).value, t))
    decreases |ts|
  {
    if ts != [] {
      assert (ts + [t])[1..] == ts[1..] + [t];
      AddAllStep(Some(Inserted(if start.None? then [] else start.value, ts[0])), ts[1..], t);
    }
  }

  lemma KeptTermsStep<V>(coefficients: seq<Option<Number>>, variables: seq<Option<V>>, i: nat)
    requires |coefficients| == |variables| && i < |coefficients|
    ensures KeptTerms(coefficients[..i + 1], variables[..i + 1]) ==
      KeptTerms(coefficients[..i], variables[..i]) +
      (if Kept(coefficients[i], variables[i])
       then [Term(DoubleValue(coefficients[i].value), variables[i].value)] else [])
    decreases i
  {
    if i > 0 {
      assert coefficients[..i + 1][1..] == coefficients[1..][..i];
      assert variables[..i + 1][1..] == variables[1..][..i];
      assert coefficients[..i][1..] == coefficients[1..][..i - 1];
      assert variables[..i][1..] == variables[1..][..i - 1];
      KeptTermsStep(coefficients[1..], variables[1..], i - 1);
    }
  }

  /**
   * `createLinear(List, List)`: null lists and a length mismatch are
   * rejected; the pairs kept are added to a fresh linear in input order.
   */
  method CreateLinearFromLists<V>(coefficients: Option<seq<Option<Number>>>, variables: Option<seq<Option<V>>>)
    returns (r: Result<ConcreteLinear<V>>)
    ensures coefficients.None? || variables.None? ==> r == Err(NullPointer)
    ensures coefficients.Some? && variables.Some? && |coefficients.value| != |variables.value| ==>
      r == Err(IllegalArgument)
    ensures coefficients.Some? && variables.Some? && |coefficients.value| == |variables.value| ==>
      r.Ok? && fresh(r.value) && r.value.Valid() &&
      r.value.terms == AddAll(None, KeptTerms(coefficients.value, variables.value))
  {
    if coefficients.None? || variables.None? {
      return Err(NullPointer);
    }
    var cs := coefficients.value;
    var vs := variables.value;
    if |cs| != |vs| {
      return Err(IllegalArgument);
    }
    var linear := new ConcreteLinear<V>();
    var i := 0;
    while i < |cs|
      invariant 0 <= i <= |cs|
      invariant fresh(linear) && linear.Valid()
      invariant linear.terms == AddAll(None, KeptTerms(cs[..i], vs[..i]))
    {
      var coef := cs[i];
      var v := vs[i];
      KeptTermsStep(cs, vs, i);
      if coef.Some? && DoubleValue(coef.value) != 0.0 && v.Some? {
        var term := NewTerm(coef, v);
        AddAllStep(None, KeptTerms(cs[..i], vs[..i]), term.value);
        assert KeptTerms(cs[..i + 1], vs[..i + 1]) == KeptTerms(cs[..i], vs[..i]) + [term.value];
        linear.Add(term.value);
      } else {
        assert KeptTerms(cs[..i + 1], vs[..i + 1]) == KeptTerms(cs[..i], vs[..i]);
      }
      i := i + 1;
    }
    assert cs[..i] == cs && vs[..i] == vs;
    return Ok(linear);
  }

  /** What `createLinear(List, List)` holds: the kept pairs' terms, and nothing when none is kept. */
  lemma CreatedLinearContents<V>(coefficients: seq<Option<Number>>, variables: seq<Option<V>>)
    requires |coefficients| == |variables|
    ensures AddAll(None, KeptTerms(coefficients, variables)).None? <==>
      forall i :: 0 <= i < |coefficients| ==> !Kept(coefficients[i], variables[i])
    ensures AddAll(None, KeptTerms(coefficients, variables)).Some? ==>
      Elems(AddAll(None, KeptTerms(coefficients, variables)).value) ==
      Elems(KeptTerms(coefficients, variables))
  {
    var kept := KeptTerms(coefficients, variables);
    AddAllSpec(None, kept);
    KeptTermsSpec(coefficients, variables);
    if exists i :: 0 <= i < |coefficients| && Kept(coefficients[i], variables[i]) {
      var i :| 0 <= i < |coefficients| && Kept(coefficients[i], variables[i]);
      assert Term(DoubleValue(coefficients[i].value), variables[i].value) in kept;
    }
  }

  /** `createLinear(Number, Variable)`: nulls are rejected; the result holds exactly that term, zero or not. */
  method CreateLinearSingle<V>(coefficient: Option<Number>, variable: Option<V>) returns (r: Result<ConcreteLinear<V>>)
    ensures coefficient.None? || variable.None? ==> r == Err(NullPointer)
    ensures coefficient.Some? && variable.Some? ==>
      r.Ok? && fresh(r.value) && r.value.Valid() &&
      r.value.terms == Some([Term(DoubleValue(coefficient.value), variable.value)])
  {
    if coefficient.None? || variable.None? {
      return Err(NullPointer);
    }
    var linear := new ConcreteLinear<V>();
    var term := NewTerm(coefficient, variable);
    linear.Add(term.value);
    assert Inserted([], term.value) == [term.value];
    return Ok(linear);
  }

  /**
   * `createLinear(int[], Variable[])`: box each primitive into an `Integer`
   * and delegate; a null array is rejected by the boxing loop or by `Arrays.asList`.
   */
  method CreateLinearFromInts<V>(coefficients: Option<seq<int>>, variables: Option<seq<Option<V>>>)
    returns (r: Result<ConcreteLinear<V>>)
    ensures coefficients.None? || variables.None? ==> r == Err(NullPointer)
    ensures coefficients.Some? && variables.Some? && |coefficients.value| != |variables.value| ==>
      r == Err(IllegalArgument)
    ensures coefficients.Some? && variables.Some? && |coefficients.value| == |variables.value| ==>
      r.Ok? && fresh(r.value) && r.value.Valid() &&
      r.value.terms == AddAll(None, KeptTerms(Boxed(coefficients.value), variables.value))
  {
    if coefficients.None? {
      return Err(NullPointer);
    }
    var list := Box(coefficients.value);
    r := CreateLinearFromLists(Some(list), variables);
  }

  /** `createLinear(double[], Variable[])` and `createLinear(float[], Variable[])`, boxing into `Double`. */
  method CreateLinearFromDoubles<V>(coefficients: Option<seq<real>>, variables: Option<seq<Option<V>>>)
    returns (r: Result<ConcreteLinear<V>>)
    ensures coefficients.None? || variables.None? ==> r == Err(NullPointer)
    ensures coefficients.Some? && variables.Some? && |coefficients.value| != |variables.value| ==>
      r == Err(IllegalArgument)
    ensures coefficients.Some? && variables.Some? && |coefficients.value| == |variables.value| ==>
      r.Ok? && fresh(r.value) && r.value.Valid() &&
      r.value.terms == AddAll(None, KeptTerms(BoxedReals(coefficients.value), variables.value))
  {
    if coefficients.None? {
      return Err(NullPointer);
    }
    var list := BoxReals(coefficients.value);
    r := CreateLinearFromLists(Some(list), variables);
  }

  /** The boxed list of an `int[]`. */
  function Boxed(a: seq<int>): (r: seq<Option<Number>>)
    ensures |r| == |a|
    ensures forall i :: 0 <= i < |a| ==> r[i] == Some(IntNum(a[i]))
  {
    seq(|a|, i requires 0 <= i < |a| => Some(IntNum(a[i])))
  }

  /** The boxed list of a `double[]`. */
  function BoxedReals(a: seq<real>): (r: seq<Option<Number>>)
    ensures |r| == |a|
    ensures forall i :: 0 <= i < |a| ==> r[i] == Some(RealNum(a[i]))
  {
    seq(|a|, i requires 0 <= i < |a| => Some(RealNum(a[i])))
  }

  /** The boxing loop `list[i] = Integer.valueOf(coefficients[i])`. */
  method Box(a: seq<int>) returns (list: seq<Option<Number>>)
    ensures list == Boxed(a)
  {
    list := [];
    var i := 0;
    while i < |a|
      invariant 0 <= i <= |a|
      invariant list == Boxed(a[..i])
    {
      list := list + [Some(IntNum(a[i]))];
      i := i + 1;
    }
    assert a[..i] == a;
  }

  /** The boxing loop `list[i] = Double.valueOf(coefficients[i])`. */
  method BoxReals(a: seq<real>) returns (list: seq<Option<Number>>)
    ensures list == BoxedReals(a)
  {
    list := [];
    var i := 0;
    while i < |a|
      invariant 0 <= i <= |a|
      invariant list == BoxedReals(a[..i])
    {
      list := list + [Some(RealNum(a[i]))];
      i := i + 1;
    }
    assert a[..i] == a;
  }

  /**
   * What the `getLinear` and `getObjectiveLinear` loops of CBC and OR-Tools
   * build from one coefficient per variable, over the first `n` variables:
   * one term per non-zero coefficient, with the variable at that index.
   */
  function CoefTerms<V>(coefs: seq<real>, vars: seq<V>, n: nat): (ts: seq<Term<V>>)
    requires n <= |coefs| && n <= |vars|
    ensures forall k :: 0 <= k < |ts| ==> ts[k].variable in vars[..n]
  {
    if n == 0 then []
    else
      var prev := CoefTerms(coefs, vars, n - 1);
      assert vars[..n - 1] <= vars[..n];
      prev + (if coefs[n - 1] != 0.0 then [Term(coefs[n - 1], vars[n - 1])] else [])
  }

  /** The terms are exactly the non-zero coefficients of the first `n` variables with those variables. */
  lemma {:induction false} CoefTermsElems<V>(coefs: seq<real>, vars: seq<V>, n: nat, t: Term<V>)
    requires n <= |coefs| && n <= |vars|
    ensures t in CoefTerms(coefs, vars, n) <==>
      exists j :: 0 <= j < n && coefs[j] != 0.0 && t == Term(coefs[j], vars[j])
  {
    if n > 0 {
      CoefTermsElems(coefs, vars, n - 1, t);
    }
  }

  /** No term at all exactly when each of the first `n` coefficients is zero. */
  lemma CoefTermsEmpty<V>(coefs: seq<real>, vars: seq<V>, n: nat)
    requires n <= |coefs| && n <= |vars|
    ensures CoefTerms(coefs, vars, n) == [] <==> forall j :: 0 <= j < n ==> coefs[j] == 0.0
  {
    var ts := CoefTerms(coefs, vars, n);
    if ts != [] {
      CoefTermsElems(coefs, vars, n, ts[0]);
    } else {
      forall j | 0 <= j < n
        ensures coefs[j] == 0.0
      {
        CoefTermsElems(coefs, vars, n, Term(coefs[j], vars[j]));
      }
    }
  }

  /** The terms a loop over a nullable linear visits: none for null. */
  function LinearTerms<V>(linear: Option<seq<Term<V>>>): (ts: seq<Term<V>>)
    ensures linear.Some? ==> ts == linear.value
    ensures linear.None? ==> ts == []
  {
    if linear.None? then [] else linear.value
  }
}
