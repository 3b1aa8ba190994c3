/**
 * The OR-Tools backend: `ORLinearProblem`, `ORVariable` and `ORConstraint`.
 * Each variable and constraint wraps a native handle that it owns for its
 * whole life, so the handle's native state is kept in the wrapper's `v` or
 * `c` field, and coefficient maps are keyed by the wrapper.  Nothing is
 * renumbered: removing an entity only drops it from the list and releases
 * its handle.  Disposing of the problem releases every handle.
 */
module ORTools {
  import opened Wrappers
  import opened Numbers
  import opened Types
  import opened ILPErrors
  import opened Terms
  import opened LinearExpr
  import LB = LinearBuilders
  import N = ORNative
  import opened Sentinels

  /** `List.indexOf`: the first position of `x`, or -1. */
  function IndexOf<T(==)>(s: seq<T>, x: T): (i: int)
    ensures i < 0 <==> x !in s
    ensures i < 0 ==> i == -1
    ensures 0 <= i ==> i < |s| && s[i] == x && x !in s[..i]
  {
    if s == [] then -1
    else if s[0] == x then 0
    else
      var j := IndexOf(s[1..], x);
      assert forall k :: 0 <= k < |s[1..]| ==> s[1..][k] == s[k + 1];
      if j < 0 then -1
      else
        assert s[1..][..j] == s[1..j + 1];
        j + 1
  }

  /** What `setCoefficient` and `getCoefficient` receive for a variable: its handle, null once released. */
  function KeyOf(x: Variable): (k: Option<Variable>)
    reads x
    ensures k.None? <==> x.v.None?
    ensures k.Some? ==> k.value == x
  {
    if x.v.None? then None else Some(x)
  }

  /** The `setCoefficient` calls a loop over `ts` makes, one per term. */
  function WritesOf(ts: seq<Term<Variable>>): (ws: seq<N.Write<Variable>>)
    reads set k | 0 <= k < |ts| :: ts[k].variable
    ensures |ws| == |ts|
    ensures forall k :: 0 <= k < |ts| ==> ws[k] == N.Write(KeyOf(ts[k].variable), ts[k].coefficient)
  {
    seq(|ts|, k requires 0 <= k < |ts| reads set i | 0 <= i < |ts| :: ts[i].variable =>
      N.Write(KeyOf(ts[k].variable), ts[k].coefficient))
  }

  /** The coefficient `getCoefficient` reads for each variable of `vars`, in list order. */
  function Coefs(m: map<Variable, real>, vars: seq<Variable>): (c: seq<real>)
    reads set k | 0 <= k < |vars| :: vars[k]
    ensures |c| == |vars|
    ensures forall j :: 0 <= j < |vars| ==> c[j] == N.Coefficient(m, KeyOf(vars[j]))
  {
    seq(|vars|, j requires 0 <= j < |vars| reads set i | 0 <= i < |vars| :: vars[i] =>
      N.Coefficient(m, KeyOf(vars[j])))
  }

  /** The terms `setObjectiveLinear` writes: those with a non-zero coefficient, in order. */
  function NonZero<V>(ts: seq<Term<V>>): (r: seq<Term<V>>)
    ensures |r| <= |ts|
    decreases |ts|
  {
    if ts == [] then []
    else if ts[|ts| - 1].coefficient != 0.0 then NonZero(ts[..|ts| - 1]) + [ts[|ts| - 1]]
    else NonZero(ts[..|ts| - 1])
  }

  /** `NonZero` keeps exactly the non-zero terms. */
  lemma {:induction false} NonZeroElems<V>(ts: seq<Term<V>>, t: Term<V>)
    ensures t in NonZero(ts) <==> t in ts && t.coefficient != 0.0
    decreases |ts|
  {
    if ts != [] {
      var init := ts[..|ts| - 1];
      NonZeroElems(init, t);
      assert ts == init + [ts[|ts| - 1]];
    }
  }

  /** `NonZero` keeps the variables of the terms distinct when they were. */
  lemma {:induction false} NonZeroDistinct<V>(ts: seq<Term<V>>)
    requires forall a, b :: 0 <= a < b < |ts| ==> ts[a].variable != ts[b].variable
    ensures forall a, b :: 0 <= a < b < |NonZero(ts)| ==> NonZero(ts)[a].variable != NonZero(ts)[b].variable
    decreases |ts|
  {
    if ts != [] {
      var init := ts[..|ts| - 1];
      assert forall a :: 0 <= a < |init| ==> init[a] == ts[a];
      NonZeroDistinct(init);
      forall t | t in NonZero(init)
        ensures t.variable != ts[|ts| - 1].variable
      {
        NonZeroElems(init, t);
        var a :| 0 <= a < |init| && init[a] == t;
      }
    }
  }

  /** The objective loop: every non-zero term written in turn. */
  method WriteObjective(m: map<Variable, real>, ts: seq<Term<Variable>>) returns (q: map<Variable, real>)
    ensures q == N.Applied(m, WritesOf(NonZero(ts)))
  {
    q := m;
    for i := 0 to |ts|
      invariant q == N.Applied(m, WritesOf(NonZero(ts[..i])))
    {
      var coef := ts[i].coefficient;
      ObjectiveStep(m, ts, i);
      if coef != 0.0 {
        q := N.SetCoefficient(q, KeyOf(ts[i].variable), coef);
      }
    }
    assert ts[..|ts|] == ts;
  }

  /** One turn of the objective loop: a zero term writes nothing, a non-zero one is written last. */
  lemma ObjectiveStep(m: map<Variable, real>, ts: seq<Term<Variable>>, i: int)
    requires 0 <= i < |ts|
    ensures ts[i].coefficient == 0.0 ==>
      N.Applied(m, WritesOf(NonZero(ts[..i + 1]))) == N.Applied(m, WritesOf(NonZero(ts[..i])))
    ensures ts[i].coefficient != 0.0 ==>
      N.Applied(m, WritesOf(NonZero(ts[..i + 1]))) ==
        N.SetCoefficient(N.Applied(m, WritesOf(NonZero(ts[..i]))), KeyOf(ts[i].variable), ts[i].coefficient)
  {
    assert ts[..i + 1][..i] == ts[..i];
    if ts[i].coefficient != 0.0 {
      var w := N.Write(KeyOf(ts[i].variable), ts[i].coefficient);
      AppliedSnoc(m, WritesOf(NonZero(ts[..i])), w);
      assert WritesOf(NonZero(ts[..i + 1])) == WritesOf(NonZero(ts[..i])) + [w];
    }
  }

  /** The `setLinear` loop: every term written in turn, zero or not. */
  method WriteRow(m: map<Variable, real>, ts: seq<Term<Variable>>) returns (q: map<Variable, real>)
    ensures q == N.Applied(m, WritesOf(ts))
  {
    q := m;
    var i := 0;
    while i < |ts|
      invariant 0 <= i <= |ts|
      invariant q == N.Applied(m, WritesOf(ts[..i]))
    {
      AppliedSnoc(m, WritesOf(ts[..i]), N.Write(KeyOf(ts[i].variable), ts[i].coefficient));
      assert WritesOf(ts[..i + 1]) == WritesOf(ts[..i]) + [N.Write(KeyOf(ts[i].variable), ts[i].coefficient)];
      q := N.SetCoefficient(q, KeyOf(ts[i].variable), ts[i].coefficient);
      i := i + 1;
    }
    assert ts[..i] == ts;
  }

  /** One more write after a run of writes. */
  lemma {:induction false} AppliedSnoc(m: map<Variable, real>, ws: seq<N.Write<Variable>>, w: N.Write<Variable>)
    ensures N.Applied(m, ws + [w]) == N.SetCoefficient(N.Applied(m, ws), w.key, w.coef)
    decreases |ws|
  {
    if ws == [] {
      assert [w][1..] == [];
    } else {
      assert (ws + [w])[1..] == ws[1..] + [w];
      AppliedSnoc(N.SetCoefficient(m, ws[0].key, ws[0].coef), ws[1..], w);
    }
  }

  /** The handles are live and the variables distinct: the setting of both round trips below. */
  ghost predicate Owned(ts: seq<Term<Variable>>, vars: seq<Variable>)
    reads set k | 0 <= k < |vars| :: vars[k]
  {
    (forall j :: 0 <= j < |vars| ==> vars[j].v.Some?) &&
    (forall a, b :: 0 <= a < b < |vars| ==> vars[a] != vars[b]) &&
    (forall k :: 0 <= k < |ts| ==> ts[k].variable in vars) &&
    (forall a, b :: 0 <= a < b < |ts| ==> ts[a].variable != ts[b].variable)
  }

  /** A non-zero term written into an empty map is read back at its variable. */
  lemma WrittenTermReadBack(ts: seq<Term<Variable>>, vars: seq<Variable>, k: int)
    requires Owned(ts, vars)
    requires 0 <= k < |ts| && ts[k].coefficient != 0.0
    ensures ts[k] in LB.CoefTerms(Coefs(N.Applied(map[], WritesOf(ts)), vars), vars, |vars|)
  {
    var ws := WritesOf(ts);
    var w := N.Applied(map[], ws);
    var j :| 0 <= j < |vars| && vars[j] == ts[k].variable;
    assert forall a, b :: 0 <= a < b < |ws| ==> ws[a].key != ws[b].key;
    N.LastWriteDistinct(ws, k);
    N.AppliedSpec(map[], ws, vars[j]);
    LB.CoefTermsElems(Coefs(w, vars), vars, |vars|, ts[k]);
  }

  /** A term read back after writing into an empty map is a non-zero term of the linear. */
  lemma ReadBackTermWritten(ts: seq<Term<Variable>>, vars: seq<Variable>, j: int)
    requires Owned(ts, vars)
    requires 0 <= j < |vars| && Coefs(N.Applied(map[], WritesOf(ts)), vars)[j] != 0.0
    ensures Term(Coefs(N.Applied(map[], WritesOf(ts)), vars)[j], vars[j]) in ts
  {
    var ws := WritesOf(ts);
    N.AppliedSpec(map[], ws, vars[j]);
    assert N.LastWrite(ws, vars[j]).Some?;
    var k :| 0 <= k < |ws| && ws[k].key == Some(vars[j]);
    assert forall a, b :: 0 <= a < b < |ws| ==> ws[a].key != ws[b].key;
    N.LastWriteDistinct(ws, k);
    assert ts[k] == Term(Coefs(N.Applied(map[], ws), vars)[j], vars[j]);
  }

  /**
   * Reading a written constraint back: over distinct live variables, the
   * terms `getLinear` rebuilds after `setLinear(ts)` are exactly the terms of
   * `ts` with a non-zero coefficient.
   */
  lemma LinearRoundTrip(ts: seq<Term<Variable>>, vars: seq<Variable>, t: Term<Variable>)
    requires Owned(ts, vars)
    ensures t in LB.CoefTerms(Coefs(N.Applied(map[], WritesOf(ts)), vars), vars, |vars|) <==>
      t in ts && t.coefficient != 0.0
  {
    var c := Coefs(N.Applied(map[], WritesOf(ts)), vars);
    LB.CoefTermsElems(c, vars, |vars|, t);
    if t in ts && t.coefficient != 0.0 {
      var k :| 0 <= k < |ts| && ts[k] == t;
      WrittenTermReadBack(ts, vars, k);
    }
    if t in LB.CoefTerms(c, vars, |vars|) {
      var j :| 0 <= j < |vars| && c[j] != 0.0 && t == Term(c[j], vars[j]);
      ReadBackTermWritten(ts, vars, j);
    }
  }

  /**
   * Reading a written objective back: `getObjectiveLinear` after
   * `setObjectiveLinear(ts)` rebuilds exactly the non-zero terms of `ts`.
   */
  lemma ObjectiveRoundTrip(ts: seq<Term<Variable>>, vars: seq<Variable>, t: Term<Variable>)
    requires Owned(ts, vars)
    ensures t in LB.CoefTerms(Coefs(N.Applied(map[], WritesOf(NonZero(ts))), vars), vars, |vars|) <==>
      t in ts && t.coefficient != 0.0
  {
    var nz := NonZero(ts);
    NonZeroDistinct(ts);
    forall k | 0 <= k < |nz|
      ensures nz[k].variable in vars
    {
      NonZeroElems(ts, nz[k]);
      var a :| 0 <= a < |ts| && ts[a] == nz[k];
    }
    LinearRoundTrip(nz, vars, t);
    NonZeroElems(ts, t);
  }

  /** The native variable `addVariable` creates for a type. */
  function NewVar(name: string, t: VarType): (h: N.Var)
    ensures t == BOOL ==> h == N.MakeBoolVar(name)
    ensures t != BOOL ==> h == N.MakeVar(-N.INFINITY, N.INFINITY, t == INTEGER, name)
  {
    if t == BOOL then N.MakeBoolVar(name) else N.MakeVar(-N.INFINITY, N.INFINITY, t == INTEGER, name)
  }

  /** The type `getType` reports: REAL when continuous, BOOL when integer within [0,1], else INTEGER. */
  function TypeOf(h: N.Var): (t: VarType)
    ensures t == REAL <==> !h.integer
    ensures t == BOOL <==> h.integer && h.lb == 0.0 && h.ub == 1.0
  {
    if !h.integer then REAL
    else if h.lb == 0.0 && h.ub == 1.0 then BOOL
    else INTEGER
  }

  /** A variable created with a type reads back as that type. */
  lemma NewVariableType(name: string, t: VarType)
    ensures TypeOf(NewVar(name, t)) == t
  {
    assert N.INFINITY > 1.0;
  }

  class Problem {
    /** The native solver; `None` once disposed. */
    var lp: Option<N.Solver<Variable>>
    var variables: seq<Variable>
    var constraints: seq<Constraint>
    /** Assigned by the solver and nulled by the variable setters and `setLinear`. */
    var status: Option<Status>

    ghost predicate Valid()
      reads this, variables, constraints
    {
      (forall i :: 0 <= i < |variables| ==>
         variables[i].home == this &&
         (if lp.Some? then variables[i].parent == this && variables[i].v.Some?
          else variables[i].parent == null && variables[i].v.None?)) &&
      (forall i :: 0 <= i < |constraints| ==>
         constraints[i].home == this &&
         (if lp.Some? then constraints[i].parent == this && constraints[i].c.Some?
          else constraints[i].parent == null && constraints[i].c.None?)) &&
      (forall i, j :: 0 <= i < j < |variables| ==> variables[i] != variables[j]) &&
      (forall i, j :: 0 <= i < j < |constraints| ==> constraints[i] != constraints[j])
    }

    /** `new ORLinearProblem(new MPSolver(name, type))`. */
    constructor(solverName: string)
      ensures Valid()
      ensures lp == Some(N.Create(solverName)) && variables == [] && constraints == [] && status == None
    {
      lp := Some(N.Create(solverName));
      variables := [];
      constraints := [];
      status := None;
    }

    /** `isDisposed`: the native solver is gone. */
    function IsDisposed(): bool
      reads this
    {
      lp.None?
    }

    /** `checkProblem`. */
    function CheckProblem(): (r: Result<()>)
      reads this
      ensures r.Err? <==> IsDisposed()
      ensures r.Err? ==> r.error == Disposed()
    {
      if lp.None? then Err(Disposed()) else Ok(())
    }

    /** `getStatus`: no status reads as UNKNOWN. */
    function GetStatus(): (r: Result<Status>)
      reads this
      ensures r.Err? <==> IsDisposed()
      ensures r.Err? ==> r.error == Disposed()
      ensures r.Ok? && status.None? ==> r.value == UNKNOWN
      ensures r.Ok? && status.Some? ==> r.value == status.value
    {
      var c := CheckProblem();
      if c.Err? then Err(c.error)
      else if status.None? then Ok(UNKNOWN)
      else Ok(status.value)
    }

    /** `checkSolution`: the status, read through `getStatus`, must be FEASIBLE or OPTIMAL. */
    function CheckSolution(): (r: Result<()>)
      reads this
      ensures IsDisposed() ==> r == Err(Disposed())
      ensures r.Ok? <==> !IsDisposed() && status.Some? && SolutionAvailable(status.value)
      ensures !IsDisposed() && r.Err? ==> r.error == WithMessage("solution not available")
    {
      var s := GetStatus();
      if s.Err? then Err(s.error)
      else if !SolutionAvailable(s.value) then Err(WithMessage("solution not available"))
      else Ok(())
    }

    /**
     * `dispose`: unless already disposed, the native solver is deleted and
     * every constraint and variable loses its handle and its parent, so each
     * of them reports `isDisposed`.  The lists themselves are kept.
     */
    method Dispose()
      requires Valid()
      modifies this, variables, constraints
      ensures Valid() && IsDisposed()
      ensures variables == old(variables) && constraints == old(constraints) && status == old(status)
      ensures old(lp).None? ==> unchanged(variables) && unchanged(constraints)
      ensures forall i :: 0 <= i < |variables| ==> variables[i].IsDisposed()
      ensures forall i :: 0 <= i < |constraints| ==> constraints[i].IsDisposed()
    {
      if lp.None? {
        return;
      }
      lp := None;
      ReleaseConstraints();
      ReleaseVariables();
    }

    /** The first loop of `dispose`. */
    method ReleaseConstraints()
      modifies constraints
      ensures forall i :: 0 <= i < |constraints| ==> constraints[i].c.None? && constraints[i].parent == null
    {
      var i := 0;
      while i < |constraints|
        invariant 0 <= i <= |constraints|
        invariant forall k :: 0 <= k < i ==> constraints[k].c.None? && constraints[k].parent == null
      {
        constraints[i].c := None;
        constraints[i].parent := null;
        i := i + 1;
      }
    }

    /** The second loop of `dispose`. */
    method ReleaseVariables()
      modifies variables
      ensures forall i :: 0 <= i < |variables| ==> variables[i].v.None? && variables[i].parent == null
    {
      var i := 0;
      while i < |variables|
        invariant 0 <= i <= |variables|
        invariant forall k :: 0 <= k < i ==> variables[k].v.None? && variables[k].parent == null
      {
        variables[i].v := None;
        variables[i].parent := null;
        i := i + 1;
      }
    }

    /** `getName`: the native solver's name. */
    function GetName(): (r: Result<string>)
      reads this
      ensures r.Err? <==> IsDisposed()
      ensures r.Ok? ==> r.value == lp.value.name
    {
      var c := CheckProblem();
      if c.Err? then Err(c.error) else Ok(lp.value.name)
    }

    /**
     * `getObjectiveDirection`: MINIMIZE when minimising, MAXIMIZE when
     * maximising.  The native objective is always one of the two, so the
     * "Unknown direction." error is never reached.
     */
    function GetObjectiveDirection(): (r: Result<int>)
      reads this
      ensures r.Err? <==> IsDisposed()
      ensures r.Err? ==> r.error == Disposed()
      ensures r.Ok? ==> (r.value == MAXIMIZE <==> lp.value.maximize)
      ensures r.Ok? ==> (r.value == MINIMIZE <==> !lp.value.maximize)
    {
      var c := CheckProblem();
      if c.Err? then Err(c.error)
      else if !lp.value.maximize then Ok(MINIMIZE)
      else Ok(MAXIMIZE)
    }

    /** `setObjectiveDirection`: MAXIMIZE or MINIMIZE; any other code is an illegal argument. */
    method SetObjectiveDirection(direction: int) returns (r: Result<()>)
      requires Valid()
      modifies this`lp
      ensures Valid()
      ensures old(lp).None? ==> r == Err(Disposed()) && lp == old(lp)
      ensures old(lp).Some? && direction != MAXIMIZE && direction != MINIMIZE ==>
        r == Err(IllegalArgument) && lp == old(lp)
      ensures old(lp).Some? && (direction == MAXIMIZE || direction == MINIMIZE) ==>
        r == Ok(()) && lp == Some(old(lp.value).(maximize := direction == MAXIMIZE))
      ensures r.Ok? ==> GetObjectiveDirection() == Ok(direction)
    {
      var c := CheckProblem();
      if c.Err? {
        return Err(c.error);
      }
      if direction == MAXIMIZE {
        lp := Some(lp.value.(maximize := true));
      } else if direction == MINIMIZE {
        lp := Some(lp.value.(maximize := false));
      } else {
        return Err(IllegalArgument);
      }
      return Ok(());
    }

    /** `getObjectiveName`: not supported by the backend, always empty. */
    function GetObjectiveName(): (r: Result<string>)
      reads this
      ensures r.Err? <==> IsDisposed()
      ensures r.Ok? ==> r.value == ""
    {
      var c := CheckProblem();
      if c.Err? then Err(c.error) else Ok("")
    }

    /** `getObjectiveValue`: the native objective value, whatever the status. */
    function GetObjectiveValue(): (r: Result<real>)
      reads this
      ensures r.Err? <==> IsDisposed()
      ensures r.Err? ==> r.error == Disposed()
      ensures r.Ok? ==> r.value == lp.value.objectiveValue
    {
      var c := CheckProblem();
      if c.Err? then Err(c.error) else Ok(lp.value.objectiveValue)
    }

    /** The terms `getObjectiveLinear` builds: the non-zero objective coefficients in variable-list order. */
    function ObjectiveTerms(): seq<Term<Variable>>
      requires lp.Some?
      reads this, variables
    {
      LB.CoefTerms(Coefs(lp.value.obj, variables), variables, |variables|)
    }

    /** `getObjectiveLinear`: one term per variable with a non-zero objective coefficient, or null if none. */
    method GetObjectiveLinear() returns (r: Result<Option<ConcreteLinear<Variable>>>)
      requires Valid()
      ensures IsDisposed() ==> r == Err(Disposed())
      ensures !IsDisposed() && ObjectiveTerms() == [] ==> r == Ok(None)
      ensures !IsDisposed() && ObjectiveTerms() != [] ==>
        r.Ok? && r.value.Some? && fresh(r.value.value) && r.value.value.Valid() &&
        r.value.value.terms == Some(ObjectiveTerms())
    {
      var c := CheckProblem();
      if c.Err? {
        return Err(c.error);
      }
      var linear := new ConcreteLinear<Variable>();
      FillTerms(lp.value.obj, linear);
      var size := linear.Size();
      if size == 0 {
        return Ok(None);
      }
      return Ok(Some(linear));
    }

    /** The loop of `getObjectiveLinear` and `getLinear`: the variables in list order, non-zero coefficients kept. */
    method FillTerms(m: map<Variable, real>, linear: ConcreteLinear<Variable>)
      requires forall i, j :: 0 <= i < j < |variables| ==> variables[i] != variables[j]
      requires linear.Valid() && linear.terms == None
      modifies linear
      ensures linear.Valid() && linear.Elements() == LB.CoefTerms(Coefs(m, variables), variables, |variables|)
      ensures linear.terms.Some? <==> linear.Elements() != []
    {
      for i := 0 to |variables|
        invariant linear.Valid()
        invariant linear.Elements() == LB.CoefTerms(Coefs(m, variables), variables, i)
        invariant linear.terms.Some? <==> linear.Elements() != []
      {
        FillStep(m, i, linear);
      }
    }

    /** One turn of `FillTerms`: the term of variable `i`, if its coefficient is not 0. */
    method FillStep(m: map<Variable, real>, i: int, linear: ConcreteLinear<Variable>)
      requires forall k, l :: 0 <= k < l < |variables| ==> variables[k] != variables[l]
      requires 0 <= i < |variables|
      requires linear.Valid() && linear.Elements() == LB.CoefTerms(Coefs(m, variables), variables, i)
      requires linear.terms.Some? <==> linear.Elements() != []
      modifies linear
      ensures linear.Valid() && linear.Elements() == LB.CoefTerms(Coefs(m, variables), variables, i + 1)
      ensures linear.terms.Some? <==> linear.Elements() != []
    {
      var x := variables[i];
      var coef := N.Coefficient(m, KeyOf(x));
      if coef != 0.0 {
        assert Term(coef, x) !in linear.Elements() by {
          assert x !in variables[..i];
        }
        linear.Add(Term(coef, x));
      }
    }

    /**
     * `setObjectiveLinear`: the objective is cleared, then each non-zero
     * term's coefficient is written at its variable's handle.  The terms are
     * not checked: a released handle is null and its write is ignored.
     */
    method SetObjectiveLinear(linear: Option<seq<Term<Variable>>>) returns (r: Result<()>)
      requires Valid()
      modifies this`lp
      ensures Valid()
      ensures old(lp).None? ==> r == Err(Disposed()) && lp == old(lp)
      ensures old(lp).Some? ==> (r == Ok(()) &&
        lp == Some(N.ClearObjective(old(lp.value)).(obj := N.Applied(map[], WritesOf(NonZero(LB.LinearTerms(linear)))))))
    {
      var c := CheckProblem();
      if c.Err? {
        return Err(c.error);
      }
      lp := Some(N.ClearObjective(lp.value));
      if linear.Some? && |linear.value| > 0 {
        var obj := WriteObjective(lp.value.obj, linear.value);
        lp := Some(lp.value.(obj := obj));
      } else {
        assert NonZero(LB.LinearTerms(linear)) == [];
      }
      return Ok(());
    }

    /**
     * `addVariable(name, type)`: a BOOL variable is an integer variable
     * bounded by [0,1]; any other is unbounded, integer iff INTEGER.  The
     * problem is not checked first: a disposed one fails on its null solver.
     * A null name is refused by the native call.
     */
    method AddVariable(name: Option<string>, t: VarType) returns (r: Result<Variable>)
      requires Valid()
      modifies this
      ensures Valid()
      ensures old(lp).None? || name.None? ==> r == Err(NullPointer) && unchanged(this)
      ensures old(lp).Some? && name.Some? ==>
        r.Ok? && fresh(r.value) && variables == old(variables) + [r.value] &&
        constraints == old(constraints) && lp == old(lp) && status == old(status)
      ensures r.Ok? ==> r.value.home == this && r.value.Valid() && r.value.Live()
      ensures r.Ok? ==> r.value.v == Some(NewVar(name.value, t))
      ensures r.Ok? ==> r.value.GetType() == Ok(t) && r.value.GetName() == Ok(name.value)
      ensures r.Ok? ==> r.value.GetLowerBound() == Ok(if t == BOOL then Some(0.0) else None)
      ensures r.Ok? ==> r.value.GetUpperBound() == Ok(if t == BOOL then Some(1.0) else None)
    {
      if lp.None? || name.None? {
        return Err(NullPointer);
      }
      var x := new Variable(this);
      x.parent := this;
      x.v := Some(NewVar(name.value, t));
      variables := variables + [x];
      NewVariableType(name.value, t);
      return Ok(x);
    }

    /**
     * `addConstraint(name)`: a new unbounded, empty constraint, named `name`,
     * or unnamed (the empty name) for null.
     */
    method AddConstraint(name: Option<string>) returns (r: Result<Constraint>)
      requires Valid()
      modifies this
      ensures Valid()
      ensures old(lp).None? ==> r == Err(Disposed()) && unchanged(this)
      ensures old(lp).Some? ==>
        r.Ok? && fresh(r.value) && constraints == old(constraints) + [r.value] &&
        variables == old(variables) && lp == old(lp) && status == old(status)
      ensures r.Ok? ==> r.value.home == this && r.value.Valid() && r.value.Live()
      ensures r.Ok? ==> r.value.GetName() == Ok(if name.None? then "" else name.value)
      ensures r.Ok? ==> r.value.GetLowerBound() == Ok(None) && r.value.GetUpperBound() == Ok(None)
      ensures r.Ok? ==> r.value.c.value.coefs == map[]
    {
      var c := CheckProblem();
      if c.Err? {
        return Err(c.error);
      }
      var k := new Constraint(this);
      k.parent := this;
      k.c := Some(N.MakeConstraint(if name.None? then "" else name.value));
      constraints := constraints + [k];
      return Ok(k);
    }

    /**
     * `removeVariable(var)`: an absent variable is a runtime error.
     * Otherwise its handle is released, it leaves the list and loses its
     * handle and parent; no other variable changes.
     */
    method RemoveVariable(x: Variable) returns (r: Result<()>)
      requires Valid()
      modifies this, x
      ensures Valid()
      ensures x !in old(variables) ==> r == Err(Runtime) && unchanged(this) && unchanged(x)
      ensures x in old(variables) && old(x.v).None? ==> r == Err(NullPointer) && unchanged(this) && unchanged(x)
      ensures x in old(variables) && old(x.v).Some? ==>
        r == Ok(()) && x.v.None? && x.parent == null &&
        variables == old(variables)[..old(IndexOf(variables, x))] + old(variables)[old(IndexOf(variables, x)) + 1..] &&
        x !in variables && constraints == old(constraints) && lp == old(lp) && status == old(status)
    {
      var index := IndexOf(variables, x);
      if index < 0 {
        return Err(Runtime);
      }
      if x.v.None? {
        return Err(NullPointer);
      }
      ghost var before := variables;
      variables := variables[..index] + variables[index + 1..];
      x.v := None;
      x.parent := null;
      assert forall i :: 0 <= i < |variables| ==> variables[i] == before[if i < index then i else i + 1];
      return Ok(());
    }

    /**
     * `removeConstraint(constraint)`: an absent constraint is a runtime
     * error.  Otherwise it leaves the list and loses its handle and parent.
     */
    method RemoveConstraint(k: Constraint) returns (r: Result<()>)
      requires Valid()
      modifies this, k
      ensures Valid()
      ensures k !in old(constraints) ==> r == Err(Runtime) && unchanged(this) && unchanged(k)
      ensures k in old(constraints) && old(k.c).None? ==> r == Err(NullPointer) && unchanged(this) && unchanged(k)
      ensures k in old(constraints) && old(k.c).Some? ==>
        r == Ok(()) && k.c.None? && k.parent == null &&
        constraints == old(constraints)[..old(IndexOf(constraints, k))] + old(constraints)[old(IndexOf(constraints, k)) + 1..] &&
        k !in constraints && variables == old(variables) && lp == old(lp) && status == old(status)
    {
      var index := IndexOf(constraints, k);
      if index < 0 {
        return Err(Runtime);
      }
      if k.c.None? {
        return Err(NullPointer);
      }
      ghost var before := constraints;
      constraints := constraints[..index] + constraints[index + 1..];
      k.c := None;
      k.parent := null;
      assert forall i :: 0 <= i < |constraints| ==> constraints[i] == before[if i < index then i else i + 1];
      return Ok(());
    }
  }

  class Variable {
    /** The native variable this wrapper owns; `None` once released. */
    var v: Option<N.Var>
    var parent: Problem?
    /** The problem this variable was created for. */
    ghost const home: Problem

    /** A variable not yet registered: `addVariable` sets `parent` and `v`. */
    constructor(home: Problem)
      ensures this.home == home && parent == null && v == None
    {
      this.home := home;
      parent := null;
      v := None;
    }

    ghost predicate Valid()
      reads this, home, home.variables, home.constraints
    {
      home.Valid() &&
      (parent != null ==> parent == home) &&
      (this !in home.variables ==> parent == null && v.None?)
    }

    /** `isDisposed`: no handle or no parent. */
    function IsDisposed(): bool
      reads this
    {
      v.None? || parent == null
    }

    /** Live: registered in a problem that is not disposed. */
    ghost predicate Live()
      reads this, home
    {
      !IsDisposed() && home.lp.Some?
    }

    /** `checkVariable`. */
    function CheckVariable(): (r: Result<()>)
      requires Valid()
      reads this, home, home.variables, home.constraints
      ensures r.Ok? <==> Live()
      ensures r.Err? ==> r.error == Disposed()
    {
      if IsDisposed() then Err(Disposed()) else parent.CheckProblem()
    }

    /** `getLowerBound`: `-infinity` reads as null. */
    function GetLowerBound(): (r: Result<Option<real>>)
      requires Valid()
      reads this, home, home.variables, home.constraints
      ensures r.Ok? <==> Live()
      ensures r.Err? ==> r.error == Disposed()
      ensures r.Ok? ==> r.value == ReadLower(v.value.lb, N.INFINITY)
    {
      var c := CheckVariable();
      if c.Err? then Err(c.error) else Ok(ReadLower(v.value.lb, N.INFINITY))
    }

    /** `getUpperBound`: `infinity` reads as null. */
    function GetUpperBound(): (r: Result<Option<real>>)
      requires Valid()
      reads this, home, home.variables, home.constraints
      ensures r.Ok? <==> Live()
      ensures r.Err? ==> r.error == Disposed()
      ensures r.Ok? ==> r.value == ReadUpper(v.value.ub, N.INFINITY)
    {
      var c := CheckVariable();
      if c.Err? then Err(c.error) else Ok(ReadUpper(v.value.ub, N.INFINITY))
    }

    function GetName(): (r: Result<string>)
      requires Valid()
      reads this, home, home.variables, home.constraints
      ensures r.Ok? <==> Live()
      ensures r.Err? ==> r.error == Disposed()
      ensures r.Ok? ==> r.value == v.value.name
    {
      var c := CheckVariable();
      if c.Err? then Err(c.error) else Ok(v.value.name)
    }

    /** `getType`: REAL when continuous, BOOL when integer and bounded by exactly [0,1], INTEGER otherwise. */
    function GetType(): (r: Result<VarType>)
      requires Valid()
      reads this, home, home.variables, home.constraints
      ensures r.Ok? <==> Live()
      ensures r.Err? ==> r.error == Disposed()
      ensures r.Ok? ==> (r.value == REAL <==> !v.value.integer)
      ensures r.Ok? ==> (r.value == BOOL <==> v.value.integer && v.value.lb == 0.0 && v.value.ub == 1.0)
    {
      var c := CheckVariable();
      if c.Err? then Err(c.error) else Ok(TypeOf(v.value))
    }

    /** `getValue`: the solution value, once the problem has a FEASIBLE or OPTIMAL status. */
    function GetValue(): (r: Result<real>)
      requires Valid()
      reads this, home, home.variables, home.constraints
      ensures !Live() ==> r == Err(Disposed())
      ensures Live() && home.CheckSolution().Err? ==> r == Err(home.CheckSolution().error)
      ensures Live() && home.CheckSolution().Ok? ==> r == Ok(v.value.solutionValue)
    {
      var c := CheckVariable();
      if c.Err? then Err(c.error)
      else
        var s := parent.CheckSolution();
        if s.Err? then Err(s.error) else Ok(v.value.solutionValue)
    }

    /** `setLowerBound(bound)`: null written as `-infinity`; the problem status is nulled. */
    method SetLowerBound(lb: Option<Number>) returns (r: Result<()>)
      requires Valid()
      modifies this`v, home`status
      ensures Valid()
      ensures r.Ok? <==> old(Live())
      ensures r.Err? ==> r.error == Disposed() && unchanged(this) && unchanged(home)
      ensures r.Ok? ==> v == Some(old(v.value).(lb := WriteLower(lb, N.INFINITY))) && home.status == None
      ensures r.Ok? ==> GetLowerBound() == Ok(NormalLower(lb, N.INFINITY)) && GetUpperBound() == old(GetUpperBound())
      ensures r.Ok? ==> home.GetStatus() == Ok(UNKNOWN)
    {
      var c := CheckVariable();
      if c.Err? {
        return Err(c.error);
      }
      v := Some(v.value.(lb := WriteLower(lb, N.INFINITY)));
      parent.status := None;
      return Ok(());
    }

    /** `setUpperBound(bound)`: null written as `infinity`; the problem status is nulled. */
    method SetUpperBound(ub: Option<Number>) returns (r: Result<()>)
      requires Valid()
      modifies this`v, home`status
      ensures Valid()
      ensures r.Ok? <==> old(Live())
      ensures r.Err? ==> r.error == Disposed() && unchanged(this) && unchanged(home)
      ensures r.Ok? ==> v == Some(old(v.value).(ub := WriteUpper(ub, N.INFINITY))) && home.status == None
      ensures r.Ok? ==> GetUpperBound() == Ok(NormalUpper(ub, N.INFINITY)) && GetLowerBound() == old(GetLowerBound())
      ensures r.Ok? ==> home.GetStatus() == Ok(UNKNOWN)
    {
      var c := CheckVariable();
      if c.Err? {
        return Err(c.error);
      }
      v := Some(v.value.(ub := WriteUpper(ub, N.INFINITY)));
      parent.status := None;
      return Ok(());
    }

    /** `dispose`: removes the variable from its problem, unless already disposed. */
    method Dispose() returns (r: Result<()>)
      requires Valid()
      modifies home, this
      ensures Valid()
      ensures r == Ok(()) && IsDisposed()
      ensures old(IsDisposed()) ==> unchanged(home) && unchanged(this)
      ensures !old(IsDisposed()) ==>
        home.variables == old(home.variables)[..old(IndexOf(home.variables, this))] +
                          old(home.variables)[old(IndexOf(home.variables, this)) + 1..] &&
        this !in home.variables && home.constraints == old(home.constraints) &&
        home.lp == old(home.lp) && home.status == old(home.status)
    {
      if IsDisposed() {
        return Ok(());
      }
      r := parent.RemoveVariable(this);
    }
  }

  class Constraint {
    /** The native constraint this wrapper owns; `None` once released. */
    var c: Option<N.Con<Variable>>
    var parent: Problem?
    ghost const home: Problem

    /** A constraint not yet registered: `addConstraint` sets `parent` and `c`. */
    constructor(home: Problem)
      ensures this.home == home && parent == null && c == None
    {
      this.home := home;
      parent := null;
      c := None;
    }

    ghost predicate Valid()
      reads this, home, home.variables, home.constraints
    {
      home.Valid() &&
      (parent != null ==> parent == home) &&
      (this !in home.constraints ==> parent == null && c.None?)
    }

    /** `isDisposed`: no handle or no parent. */
    function IsDisposed(): bool
      reads this
    {
      c.None? || parent == null
    }

    ghost predicate Live()
      reads this, home
    {
      !IsDisposed() && home.lp.Some?
    }

    /** `checkConstraint`. */
    function CheckConstraint(): (r: Result<()>)
      requires Valid()
      reads this, home, home.variables, home.constraints
      ensures r.Ok? <==> Live()
      ensures r.Err? ==> r.error == Disposed()
    {
      if IsDisposed() then Err(Disposed()) else parent.CheckProblem()
    }

    /** `getLowerBound`: `-infinity` reads as null. */
    function GetLowerBound(): (r: Result<Option<real>>)
      requires Valid()
      reads this, home, home.variables, home.constraints
      ensures r.Ok? <==> Live()
      ensures r.Err? ==> r.error == Disposed()
      ensures r.Ok? ==> r.value == ReadLower(c.value.lb, N.INFINITY)
    {
      var k := CheckConstraint();
      if k.Err? then Err(k.error) else Ok(ReadLower(c.value.lb, N.INFINITY))
    }

    /** `getUpperBound`: `infinity` reads as null. */
    function GetUpperBound(): (r: Result<Option<real>>)
      requires Valid()
      reads this, home, home.variables, home.constraints
      ensures r.Ok? <==> Live()
      ensures r.Err? ==> r.error == Disposed()
      ensures r.Ok? ==> r.value == ReadUpper(c.value.ub, N.INFINITY)
    {
      var k := CheckConstraint();
      if k.Err? then Err(k.error) else Ok(ReadUpper(c.value.ub, N.INFINITY))
    }

    function GetName(): (r: Result<string>)
      requires Valid()
      reads this, home, home.variables, home.constraints
      ensures r.Ok? <==> Live()
      ensures r.Err? ==> r.error == Disposed()
      ensures r.Ok? ==> r.value == c.value.name
    {
      var k := CheckConstraint();
      if k.Err? then Err(k.error) else Ok(c.value.name)
    }

    /** `getValue`: the dual value, with no check on the status. */
    function GetValue(): (r: Result<real>)
      requires Valid()
      reads this, home, home.variables, home.constraints
      ensures r.Ok? <==> Live()
      ensures r.Err? ==> r.error == Disposed()
      ensures r.Ok? ==> r.value == c.value.dualValue
    {
      var k := CheckConstraint();
      if k.Err? then Err(k.error) else Ok(c.value.dualValue)
    }

    /** `setLowerBound(bound)`: null written as `-infinity`; the status is left as it was. */
    method SetLowerBound(lb: Option<Number>) returns (r: Result<()>)
      requires Valid()
      modifies this`c
      ensures Valid()
      ensures r.Ok? <==> old(Live())
      ensures r.Err? ==> r.error == Disposed() && unchanged(this)
      ensures r.Ok? ==> c == Some(old(c.value).(lb := WriteLower(lb, N.INFINITY)))
      ensures r.Ok? ==> GetLowerBound() == Ok(NormalLower(lb, N.INFINITY)) && GetUpperBound() == old(GetUpperBound())
      ensures home.GetStatus() == old(home.GetStatus())
    {
      var k := CheckConstraint();
      if k.Err? {
        return Err(k.error);
      }
      c := Some(c.value.(lb := WriteLower(lb, N.INFINITY)));
      return Ok(());
    }

    /** `setUpperBound(bound)`: null written as `infinity`; the status is left as it was. */
    method SetUpperBound(ub: Option<Number>) returns (r: Result<()>)
      requires Valid()
      modifies this`c
      ensures Valid()
      ensures r.Ok? <==> old(Live())
      ensures r.Err? ==> r.error == Disposed() && unchanged(this)
      ensures r.Ok? ==> c == Some(old(c.value).(ub := WriteUpper(ub, N.INFINITY)))
      ensures r.Ok? ==> GetUpperBound() == Ok(NormalUpper(ub, N.INFINITY)) && GetLowerBound() == old(GetLowerBound())
      ensures home.GetStatus() == old(home.GetStatus())
    {
      var k := CheckConstraint();
      if k.Err? {
        return Err(k.error);
      }
      c := Some(c.value.(ub := WriteUpper(ub, N.INFINITY)));
      return Ok(());
    }

    /**
     * `setLinear(linear)`: every coefficient is cleared and the status
     * nulled, then each term's coefficient is written at its variable's
     * handle.  The terms are not checked; a null linear fails in the loop,
     * after the clearing.
     */
    method SetLinear(linear: Option<seq<Term<Variable>>>) returns (r: Result<()>)
      requires Valid()
      modifies this`c, home`status
      ensures Valid()
      ensures !old(Live()) ==> r == Err(Disposed()) && unchanged(this) && unchanged(home)
      ensures old(Live()) ==> (c.Some? && home.status == None &&
        c.value.name == old(c.value.name) && c.value.lb == old(c.value.lb) && c.value.ub == old(c.value.ub))
      ensures old(Live()) && linear.None? ==> r == Err(NullPointer) && c.value.coefs == map[]
      ensures old(Live()) && linear.Some? ==> r == Ok(()) && c.value.coefs == N.Applied(map[], WritesOf(linear.value))
    {
      var k := CheckConstraint();
      if k.Err? {
        return Err(k.error);
      }
      c := Some(c.value.(coefs := map[]));
      parent.status := None;
      if linear.None? {
        return Err(NullPointer);
      }
      var coefs := WriteRow(map[], linear.value);
      c := Some(c.value.(coefs := coefs));
      return Ok(());
    }

    /** The terms `getLinear` builds: the non-zero coefficients in variable-list order. */
    ghost function LinearOf(): seq<Term<Variable>>
      requires c.Some?
      reads this, home, home.variables
    {
      LB.CoefTerms(Coefs(c.value.coefs, home.variables), home.variables, |home.variables|)
    }

    /** `getLinear`: a fresh linear of the non-zero coefficients, in variable-list order; never null. */
    method GetLinear() returns (r: Result<ConcreteLinear<Variable>>)
      requires Valid()
      ensures r.Ok? <==> Live()
      ensures r.Err? ==> r.error == Disposed()
      ensures r.Ok? ==> fresh(r.value) && r.value.Valid() && r.value.Elements() == LinearOf()
    {
      var k := CheckConstraint();
      if k.Err? {
        return Err(k.error);
      }
      var linear := new ConcreteLinear<Variable>();
      parent.FillTerms(c.value.coefs, linear);
      return Ok(linear);
    }

    /** `isEmpty`: `getLinear().size() == 0`, that is, no variable of the list has a non-zero coefficient. */
    method IsEmpty() returns (r: Result<bool>)
      requires Valid()
      ensures r.Ok? <==> Live()
      ensures r.Err? ==> r.error == Disposed()
      ensures r.Ok? ==> (r.value <==> forall j :: 0 <= j < |home.variables| ==> Coefs(c.value.coefs, home.variables)[j] == 0.0)
    {
      var g := GetLinear();
      if g.Err? {
        return Err(g.error);
      }
      var n := g.value.Size();
      LB.CoefTermsEmpty(Coefs(c.value.coefs, home.variables), home.variables, |home.variables|);
      return Ok(n == 0);
    }

    /** `dispose`: removes the constraint from its problem, unless already disposed. */
    method Dispose() returns (r: Result<()>)
      requires Valid()
      modifies home, this
      ensures Valid()
      ensures r == Ok(()) && IsDisposed()
      ensures old(IsDisposed()) ==> unchanged(home) && unchanged(this)
      ensures !old(IsDisposed()) ==>
        home.constraints == old(home.constraints)[..old(IndexOf(home.constraints, this))] +
                            old(home.constraints)[old(IndexOf(home.constraints, this)) + 1..] &&
        this !in home.constraints && home.variables == old(home.variables) &&
        home.lp == old(home.lp) && home.status == old(home.status)
    {
      if IsDisposed() {
        return Ok(());
      }
      r := parent.RemoveConstraint(this);
    }
  }
}
