/**
 * The GLPK backend of the legacy `ilp` tree (`com.patrikdufresne.ilp.impl`):
 * `GLPKLinearProblem`, `GLPKVariable` and `GLPKConstraint`.
 *
 * It keeps the column and row numbering of the newer backend but has no
 * name registry; instead every change marks the problem dirty, and the
 * problem caches its MIP flag, its status and the primal and dual
 * feasibility flags until a solve clears them.  A variable of an integer
 * type reports its bounds and its MIP value as `Integer`s, truncated by
 * Java's `(int)` cast.
 */
module LegacyGLPK {
  import opened Wrappers
  import opened Numbers
  import opened Types
  import opened ILPErrors
  import opened Terms
  import opened LinearExpr
  import LB = LinearBuilders
  import N = GLPKNative
  import opened GLPKBounds
  import opened GLPKRows
  import GLPK

  /** `status(code)`: the status a GLPK solution code stands for. */
  function StatusOf(code: int): (s: Status)
    ensures s == OPTIMAL <==> code == N.GLP_OPT
    ensures s == FEASIBLE <==> code == N.GLP_FEAS
    ensures s == INFEASIBLE <==> code == N.GLP_INFEAS || code == N.GLP_NOFEAS
    ensures s == UNBOUNDED <==> code == N.GLP_UNBND
    ensures s == UNKNOWN <==> code !in {N.GLP_FEAS, N.GLP_INFEAS, N.GLP_NOFEAS, N.GLP_OPT, N.GLP_UNBND}
  {
    if code == N.GLP_UNDEF then UNKNOWN
    else if code == N.GLP_FEAS then FEASIBLE
    else if code == N.GLP_INFEAS then INFEASIBLE
    else if code == N.GLP_NOFEAS then INFEASIBLE
    else if code == N.GLP_OPT then OPTIMAL
    else if code == N.GLP_UNBND then UNBOUNDED
    else UNKNOWN
  }

  /** A solution can be read exactly when GLPK reports it feasible or optimal. */
  lemma SolutionCodes(code: int)
    ensures SolutionAvailable(StatusOf(code)) <==> code == N.GLP_FEAS || code == N.GLP_OPT
  {
  }

  /** `value(type, x)`: an `Integer` cast from `x` for BOOL and INTEGER, a `Double` for REAL. */
  function Value(t: VarType, x: real): (n: Number)
    ensures t == REAL ==> n == RealNum(x)
    ensures t != REAL ==> n == IntNum(IntCast(x))
  {
    match t
    case REAL => RealNum(x)
    case _ => IntNum(IntCast(x))
  }

  /**
   * An integer variable reports a whole value within the range of `int`
   * exactly, and a fractional one truncated toward zero, so that its
   * `doubleValue()` is not the value GLPK holds.
   */
  lemma ValueOfWhole(t: VarType, x: real)
    requires t != REAL && INT_MIN as real <= x <= INT_MAX as real
    ensures DoubleValue(Value(t, x)) == x <==> x.Floor as real == x
    ensures Value(t, x).i == Truncate(x)
  {
    TruncateWhole(x);
  }

  /** Truncation toward zero leaves `x` unchanged exactly when `x` is whole. */
  lemma TruncateWhole(x: real)
    ensures Truncate(x) as real == x <==> x.Floor as real == x
  {
    if x < 0.0 {
      var n := Truncate(x);
      if x.Floor as real == x {
        var k := x.Floor;
        assert -x == (-k) as real;
        assert (-x).Floor == -k;
      }
      if n as real == x {
        assert (n as real).Floor == n;
      }
    }
  }

  /** A nullable bound as `getLowerBound`/`getUpperBound` box it for a variable of type `t`. */
  function Valued(t: VarType, x: Option<real>): (r: Option<Number>)
    ensures r.None? <==> x.None?
    ensures r.Some? ==> r.value == Value(t, x.value)
  {
    if x.None? then None else Some(Value(t, x.value))
  }

  /** The type `getType` reports for a column. */
  function ColType(c: N.Col): VarType {
    TypeOf(N.KindOf(c))
  }

  /** The matrix elements `setLinear` passes to GLPK: each term's column number and coefficient. */
  function ElemsOf(ts: seq<Term<Variable>>): (es: seq<N.Elem>)
    reads set k | 0 <= k < |ts| :: ts[k].variable
    ensures |es| == |ts|
    ensures forall k :: 0 <= k < |ts| ==> es[k] == N.Elem(ts[k].variable.col, ts[k].coefficient)
  {
    seq(|ts|, k requires 0 <= k < |ts| reads set i | 0 <= i < |ts| :: ts[i].variable => N.Elem(ts[k].variable.col, ts[k].coefficient))
  }

  /** A term of problem `vars`: its variable sits at its own column. */
  ghost predicate HasColumnIn(t: Term<Variable>, vars: seq<Variable>)
    reads t.variable
  {
    1 <= t.variable.col <= |vars| && vars[t.variable.col - 1] == t.variable
  }

  /**
   * `setLinear` of terms over distinct variables of the problem is accepted
   * by GLPK, and `getLinear` then rebuilds exactly the terms with a non-zero
   * coefficient.
   */
  lemma RowRoundTrip(ts: seq<Term<Variable>>, vars: seq<Variable>)
    requires forall k :: 0 <= k < |ts| ==> HasColumnIn(ts[k], vars)
    requires DistinctVariables(ts)
    ensures N.MatRowAccepted(ElemsOf(ts), |vars|)
    ensures N.RowWf(N.NonZero(ElemsOf(ts)), |vars|)
    ensures RowTerms(N.NonZero(ElemsOf(ts)), vars) == NonZeroTerms(ts)
  {
    PlacedRowRoundTrip(ts, ElemsOf(ts), vars);
  }

  /**
   * `setObjectiveLinear` of terms over distinct variables of the problem,
   * then `getObjectiveLinear`, yields the same set of terms, less those with
   * a zero coefficient.
   */
  lemma ObjectiveRoundTrip(p: N.Prob, vars: seq<Variable>, ts: seq<Term<Variable>>)
    requires N.Wf(p) && |p.cols| == |vars|
    requires forall k :: 0 <= k < |ts| ==> HasColumnIn(ts[k], vars)
    requires DistinctVariables(ts)
    ensures !WriteCoefs(ZeroedUpTo(p, |p.cols|), ElemsOf(ts)).failed
    ensures Elems(ObjTerms(WriteCoefs(ZeroedUpTo(p, |p.cols|), ElemsOf(ts)).prob.cols, vars, |vars|))
         == Elems(NonZeroTerms(ts))
  {
    PlacedObjectiveRoundTrip(p, ts, ElemsOf(ts), vars);
  }

  /** The loop of `setLinear` that collects each term's column number and coefficient. */
  method BuildElems(ts: seq<Term<Variable>>) returns (es: seq<N.Elem>)
    ensures es == ElemsOf(ts)
  {
    es := [];
    var i := 0;
    while i < |ts|
      invariant 0 <= i <= |ts| && |es| == i
      invariant forall k :: 0 <= k < i ==> es[k] == N.Elem(ts[k].variable.col, ts[k].coefficient)
    {
      es := es + [N.Elem(ts[i].variable.col, ts[i].coefficient)];
      i := i + 1;
    }
  }

  /** The variables of `ts` that report `isDisposed()`. */
  function DisposedIn(ts: seq<Term<Variable>>): set<Variable>
    reads set k | 0 <= k < |ts| :: ts[k].variable
  {
    set k | 0 <= k < |ts| && ts[k].variable.IsDisposed() :: ts[k].variable
  }

  /** The loop of `getLinear`: one term per row element, its variable found with `getCol`. */
  method FillLinear(p: Problem, es: seq<N.Elem>, linear: ConcreteLinear<Variable>)
    requires p.Valid() && N.RowWf(es, |p.variables|) && es != []
    requires linear.Valid() && linear.terms == None
    modifies linear
    ensures linear.Valid() && linear.terms == Some(RowTerms(es, p.variables))
  {
    assert Distinct(p.variables) by {
      forall a, b | 0 <= a < b < |p.variables| ensures p.variables[a] != p.variables[b] {
        assert p.variables[a].col != p.variables[b].col;
      }
    }
    assert p.hasVariableList by {
      assert 1 <= es[0].col <= |p.variables|;
    }
    var i := 0;
    while i < |es|
      invariant 0 <= i <= |es|
      invariant linear.Valid()
      invariant i == 0 ==> linear.terms == None
      invariant i > 0 ==> linear.terms == Some(RowTerms(es[..i], p.variables))
    {
      var v := p.GetCol(es[i].col);
      RowTermsSnoc(es, p.variables, i);
      RowTermFresh(es, p.variables, i);
      linear.Add(Term(es[i].val, v.value));
      i := i + 1;
    }
    assert es[..|es|] == es;
  }

  class Problem {
    /** The native problem; `None` once disposed. */
    var lp: Option<N.Prob>
    var variables: seq<Variable>
    /** Whether the variable list exists: it is created by the first `addCol`. */
    var hasVariableList: bool
    var constraints: seq<Constraint>
    /** Set by every change, reset by `clear()` once a solve found a solution. */
    var dirty: bool
    /** The cached `isMIP()`; null until computed. */
    var mip: Option<bool>
    /** The cached `getStatus()`; null until computed, and again once a solve starts. */
    var status: Option<Status>
    /** The cached `isPrimalFeasible()` and `isDualFeasible()`. */
    var primalFeasible: Option<bool>
    var dualFeasible: Option<bool>

    ghost predicate Valid()
      reads this, variables, constraints
    {
      (forall i :: 0 <= i < |variables| ==>
         variables[i].parent == this && variables[i].home == this && variables[i].col == i + 1) &&
      (!hasVariableList ==> variables == []) &&
      (forall i :: 0 <= i < |constraints| ==>
         constraints[i].parent == this && constraints[i].home == this && constraints[i].row == i + 1) &&
      (lp.Some? ==> N.Wf(lp.value) && |lp.value.cols| == |variables| && |lp.value.rows| == |constraints|)
    }

    /** `new GLPKLinearProblem()`: an empty native problem, nothing cached. */
    constructor()
      ensures Valid()
      ensures lp == Some(N.Create()) && variables == [] && constraints == [] && !dirty
      ensures !hasVariableList
      ensures mip == None && status == None && primalFeasible == None && dualFeasible == None
    {
      lp := Some(N.Create());
      variables := [];
      hasVariableList := false;
      constraints := [];
      dirty := false;
      mip := None;
      status := None;
      primalFeasible := None;
      dualFeasible := None;
    }

    function IsDisposed(): bool
      reads this
    {
      lp.None?
    }

    /** `checkProblem`. */
    function CheckProblem(): (r: Result<()>)
      reads this
      ensures r.Err? <==> lp.None?
      ensures r.Err? ==> r.error == Disposed()
    {
      if lp.None? then Err(Disposed()) else Ok(())
    }

    /** What `isMIP()` answers: the cached flag if any, else whether every column is integer. */
    ghost function MIPFlag(): bool
      requires lp.Some?
      reads this
    {
      if mip.Some? then mip.value else LB.IsMIP(ColTypes(lp.value))
    }

    /** What `getStatus()` answers: the cached status if any, else the status of the MIP or simplex code. */
    ghost function StatusNow(): Status
      requires lp.Some?
      reads this
    {
      if status.Some? then status.value
      else StatusOf(if MIPFlag() then lp.value.mipStatus else lp.value.lpStatus)
    }

    /** What `isPrimalFeasible()` answers. */
    ghost function PrimalNow(): bool
      requires lp.Some?
      reads this
    {
      if primalFeasible.Some? then primalFeasible.value else lp.value.primStat == N.GLP_FEAS
    }

    /** What `isDualFeasible()` answers. */
    ghost function DualNow(): bool
      requires lp.Some?
      reads this
    {
      if dualFeasible.Some? then dualFeasible.value else lp.value.dualStat == N.GLP_FEAS
    }

    /** `clear()`: the problem is no longer dirty. */
    method Clear()
      modifies this`dirty
      ensures !dirty
    {
      dirty := false;
    }

    /**
     * `isMIP()`: the cached flag, or else every variable's type is asked in
     * turn and the answer cached.  Only adding a column and `setType(REAL)`
     * drop the cache, so it can disagree with the columns.
     */
    method IsMIP() returns (r: Result<bool>)
      requires Valid()
      modifies this`mip
      ensures Valid()
      ensures old(mip).Some? ==> r == Ok(old(mip).value) && mip == old(mip)
      ensures old(mip).None? && r.Ok? ==> mip == Some(r.value)
      ensures old(mip).None? && r.Err? ==> mip == None
      ensures lp.Some? ==> r == Ok(old(MIPFlag()))
      ensures lp.None? && old(mip).None? && variables != [] ==> r == Err(Disposed())
      ensures lp.None? && old(mip).None? && variables == [] ==> r == Ok(true)
    {
      if mip.None? {
        var all := true;
        var i := 0;
        while i < |variables|
          invariant 0 <= i <= |variables|
          invariant lp.None? ==> i == 0
          invariant lp.Some? ==> forall k :: 0 <= k < i ==> ColTypes(lp.value)[k] != REAL
        {
          assert variables[i].Valid();
          var t := variables[i].GetType();
          if t.Err? {
            return Err(t.error);
          }
          if t.value == REAL {
            all := false;
            break;
          }
          i := i + 1;
        }
        mip := Some(all);
      }
      return Ok(mip.value);
    }

    /**
     * `getStatus()`: the cached status, or else `status` of the MIP status
     * code for a MIP and of the simplex status code otherwise, then cached.
     */
    method GetStatus() returns (r: Result<Status>)
      requires Valid()
      modifies this`status, this`mip
      ensures Valid()
      ensures old(lp).None? ==> r == Err(Disposed()) && unchanged(this)
      ensures old(lp).Some? ==> r == Ok(old(StatusNow())) && status == Some(r.value)
      ensures old(lp).Some? ==> MIPFlag() == old(MIPFlag())
      ensures old(status).Some? ==> mip == old(mip)
    {
      var c := CheckProblem();
      if c.Err? {
        return Err(c.error);
      }
      if status.None? {
        var m := IsMIP();
        if m.value {
          status := Some(StatusOf(lp.value.mipStatus));
        } else {
          status := Some(StatusOf(lp.value.lpStatus));
        }
      }
      return Ok(status.value);
    }

    /** `checkSolution`: a solution exists only when the status is FEASIBLE or OPTIMAL. */
    method CheckSolution() returns (r: Result<()>)
      requires Valid()
      modifies this`status, this`mip
      ensures Valid()
      ensures old(lp).None? ==> r == Err(Disposed()) && unchanged(this)
      ensures old(lp).Some? ==> (r.Ok? <==> SolutionAvailable(old(StatusNow())))
      ensures old(lp).Some? && r.Err? ==> r.error == WithMessage("solution not available")
      ensures old(lp).Some? ==> status == Some(old(StatusNow())) && MIPFlag() == old(MIPFlag())
    {
      var s := GetStatus();
      if s.Err? {
        return Err(s.error);
      }
      if s.value != FEASIBLE && s.value != OPTIMAL {
        return Err(WithMessage("solution not available"));
      }
      return Ok(());
    }

    /** `isPrimalFeasible()`: GLPK's primal status is FEAS, cached. */
    method IsPrimalFeasible() returns (r: Result<bool>)
      requires Valid()
      modifies this`primalFeasible
      ensures Valid()
      ensures old(lp).None? ==> r == Err(Disposed()) && unchanged(this)
      ensures old(lp).Some? ==> r == Ok(old(PrimalNow())) && primalFeasible == Some(r.value)
    {
      var c := CheckProblem();
      if c.Err? {
        return Err(c.error);
      }
      if primalFeasible.None? {
        primalFeasible := Some(lp.value.primStat == N.GLP_FEAS);
      }
      return Ok(primalFeasible.value);
    }

    /** `isDualFeasible()`: GLPK's dual status is FEAS, cached. */
    method IsDualFeasible() returns (r: Result<bool>)
      requires Valid()
      modifies this`dualFeasible
      ensures Valid()
      ensures old(lp).None? ==> r == Err(Disposed()) && unchanged(this)
      ensures old(lp).Some? ==> r == Ok(old(DualNow())) && dualFeasible == Some(r.value)
    {
      var c := CheckProblem();
      if c.Err? {
        return Err(c.error);
      }
      if dualFeasible.None? {
        dualFeasible := Some(lp.value.dualStat == N.GLP_FEAS);
      }
      return Ok(dualFeasible.value);
    }

    /** `checkPrimal`. */
    method CheckPrimal() returns (r: Result<()>)
      requires Valid()
      modifies this`primalFeasible
      ensures Valid()
      ensures old(lp).None? ==> r == Err(Disposed()) && unchanged(this)
      ensures old(lp).Some? ==> (r.Ok? <==> old(PrimalNow())) && primalFeasible == Some(old(PrimalNow()))
      ensures old(lp).Some? && r.Err? ==> r.error == WithMessage("primal solution value not available.")
    {
      var f := IsPrimalFeasible();
      if f.Err? {
        return Err(f.error);
      }
      if !f.value {
        return Err(WithMessage("primal solution value not available."));
      }
      return Ok(());
    }

    /**
     * The part of a variable's `getValue` after its own check, on column `j`:
     * a solution must exist; the MIP value, typed by the column, for a MIP,
     * else the primal value provided the primal solution is feasible.
     */
    method SolvedCol(j: int) returns (r: Result<Number>)
      requires Valid() && lp.Some? && 1 <= j <= |variables|
      modifies this`mip, this`status, this`primalFeasible
      ensures Valid() && lp == old(lp)
      ensures !SolutionAvailable(old(StatusNow())) ==> r == Err(WithMessage("solution not available"))
      ensures SolutionAvailable(old(StatusNow())) && old(MIPFlag()) ==>
        r == Ok(Value(ColType(lp.value.cols[j - 1]), lp.value.cols[j - 1].mipVal))
      ensures SolutionAvailable(old(StatusNow())) && !old(MIPFlag()) ==>
        r == (if old(PrimalNow()) then Ok(RealNum(lp.value.cols[j - 1].prim))
              else Err(WithMessage("primal solution value not available.")))
    {
      var c := CheckSolution();
      if c.Err? {
        return Err(c.error);
      }
      var m := IsMIP();
      if m.value {
        return Ok(Value(ColType(lp.value.cols[j - 1]), lp.value.cols[j - 1].mipVal));
      }
      c := CheckPrimal();
      if c.Err? {
        return Err(c.error);
      }
      return Ok(RealNum(lp.value.cols[j - 1].prim));
    }

    /** The same for a constraint's `getValue` on row `i`, untyped. */
    method SolvedRow(i: int) returns (r: Result<real>)
      requires Valid() && lp.Some? && 1 <= i <= |constraints|
      modifies this`mip, this`status, this`primalFeasible
      ensures Valid() && lp == old(lp)
      ensures !SolutionAvailable(old(StatusNow())) ==> r == Err(WithMessage("solution not available"))
      ensures SolutionAvailable(old(StatusNow())) && old(MIPFlag()) ==> r == Ok(lp.value.rows[i - 1].mipVal)
      ensures SolutionAvailable(old(StatusNow())) && !old(MIPFlag()) ==>
        r == (if old(PrimalNow()) then Ok(lp.value.rows[i - 1].prim)
              else Err(WithMessage("primal solution value not available.")))
    {
      var c := CheckSolution();
      if c.Err? {
        return Err(c.error);
      }
      var m := IsMIP();
      if m.value {
        return Ok(lp.value.rows[i - 1].mipVal);
      }
      c := CheckPrimal();
      if c.Err? {
        return Err(c.error);
      }
      return Ok(lp.value.rows[i - 1].prim);
    }

    /** `checkDual`. */
    method CheckDual() returns (r: Result<()>)
      requires Valid()
      modifies this`dualFeasible
      ensures Valid()
      ensures old(lp).None? ==> r == Err(Disposed()) && unchanged(this)
      ensures old(lp).Some? ==> (r.Ok? <==> old(DualNow())) && dualFeasible == Some(old(DualNow()))
      ensures old(lp).Some? && r.Err? ==> r.error == WithMessage("dual solution value not available")
    {
      var f := IsDualFeasible();
      if f.Err? {
        return Err(f.error);
      }
      if !f.value {
        return Err(WithMessage("dual solution value not available"));
      }
      return Ok(());
    }

    /**
     * `getCol(col)`: the variable at a 1-based column.  The list is read
     * without a null test, so before the first `addCol` this throws.
     */
    function GetCol(col: int): (r: Result<Variable>)
      requires Valid()
      reads this, variables, constraints
      ensures !hasVariableList ==> r == Err(NullPointer)
      ensures hasVariableList && 1 <= col <= |variables| ==> r == Ok(variables[col - 1])
      ensures hasVariableList && !(1 <= col <= |variables|) ==> r == Err(IndexOutOfBounds)
    {
      if !hasVariableList then Err(NullPointer)
      else if !(1 <= col <= |variables|) then Err(IndexOutOfBounds)
      else Ok(variables[col - 1])
    }

    /** `dispose`: frees the native problem, if not already freed; the entities keep their fields. */
    method Dispose()
      requires Valid()
      modifies this`lp
      ensures Valid() && lp == None
    {
      lp := None;
    }

    /** `getName`. */
    function GetName(): (r: Result<Option<string>>)
      reads this
      ensures r.Err? <==> lp.None?
      ensures r.Ok? ==> r.value == lp.value.name
    {
      if lp.None? then Err(Disposed()) else Ok(lp.value.name)
    }

    /** `setName(name)`: marks the problem dirty, then refuses more than 255 UTF-16 code units. */
    method SetName(name: Option<string>) returns (r: Result<()>)
      requires Valid()
      modifies this`lp, this`dirty
      ensures Valid()
      ensures old(lp).None? ==> r == Err(Disposed()) && lp == old(lp) && dirty == old(dirty)
      ensures old(lp).Some? ==> dirty
      ensures old(lp).Some? && TooLong(name) ==> r == Err(IndexOutOfBounds) && lp == old(lp)
      ensures old(lp).Some? && !TooLong(name) ==> r == Ok(()) && lp == Some(N.SetProbName(old(lp.value), name))
      ensures r.Ok? ==> GetName() == Ok(N.StoredName(name))
    {
      var c := CheckProblem();
      if c.Err? {
        return Err(c.error);
      }
      dirty := true;
      if TooLong(name) {
        return Err(IndexOutOfBounds);
      }
      lp := Some(N.SetProbName(lp.value, name));
      return Ok(());
    }

    /** `getObjectiveName`. */
    function GetObjectiveName(): (r: Result<Option<string>>)
      reads this
      ensures r.Err? <==> lp.None?
      ensures r.Ok? ==> r.value == lp.value.objName
    {
      if lp.None? then Err(Disposed()) else Ok(lp.value.objName)
    }

    /** `setObjectiveName(name)`: marks the problem dirty, then refuses more than 255 UTF-16 code units. */
    method SetObjectiveName(name: Option<string>) returns (r: Result<()>)
      requires Valid()
      modifies this`lp, this`dirty
      ensures Valid()
      ensures old(lp).None? ==> r == Err(Disposed()) && lp == old(lp) && dirty == old(dirty)
      ensures old(lp).Some? ==> dirty
      ensures old(lp).Some? && TooLong(name) ==> r == Err(IndexOutOfBounds) && lp == old(lp)
      ensures old(lp).Some? && !TooLong(name) ==> r == Ok(()) && lp == Some(N.SetObjName(old(lp.value), name))
      ensures r.Ok? ==> GetObjectiveName() == Ok(N.StoredName(name))
    {
      var c := CheckProblem();
      if c.Err? {
        return Err(c.error);
      }
      dirty := true;
      if TooLong(name) {
        return Err(IndexOutOfBounds);
      }
      lp := Some(N.SetObjName(lp.value, name));
      return Ok(());
    }

    /** `getObjectiveDirection`: GLP_MAX is MAXIMIZE, anything else MINIMIZE. */
    function GetObjectiveDirection(): (r: Result<int>)
      reads this
      ensures r.Err? <==> lp.None?
      ensures r.Ok? ==> (r.value == MAXIMIZE <==> lp.value.maximize)
      ensures r.Ok? ==> (r.value == MINIMIZE <==> !lp.value.maximize)
    {
      if lp.None? then Err(Disposed())
      else if lp.value.maximize then Ok(MAXIMIZE)
      else Ok(MINIMIZE)
    }

    /** `setObjectiveDirection(direction)`: MAXIMIZE maximises, any other value minimises. */
    method SetObjectiveDirection(direction: int) returns (r: Result<()>)
      requires Valid()
      modifies this`lp, this`dirty
      ensures Valid()
      ensures old(lp).None? ==> r == Err(Disposed()) && lp == old(lp) && dirty == old(dirty)
      ensures old(lp).Some? ==>
        r == Ok(()) && dirty && lp == Some(N.SetObjDir(old(lp.value), direction == MAXIMIZE))
      ensures r.Ok? ==> GetObjectiveDirection() == Ok(if direction == MAXIMIZE then MAXIMIZE else MINIMIZE)
    {
      var c := CheckProblem();
      if c.Err? {
        return Err(c.error);
      }
      dirty := true;
      if direction == MAXIMIZE {
        lp := Some(N.SetObjDir(lp.value, true));
      } else {
        lp := Some(N.SetObjDir(lp.value, false));
      }
      return Ok(());
    }

    /** `getObjectiveValue`: the MIP objective when `isMIP()`, the simplex objective otherwise. */
    method GetObjectiveValue() returns (r: Result<real>)
      requires Valid()
      modifies this`mip, this`status
      ensures Valid()
      ensures old(lp).None? ==> r == Err(Disposed()) && unchanged(this)
      ensures old(lp).Some? && !SolutionAvailable(old(StatusNow())) ==>
        r == Err(WithMessage("solution not available"))
      ensures old(lp).Some? && SolutionAvailable(old(StatusNow())) ==>
        r == Ok(if old(MIPFlag()) then lp.value.mipObjVal else lp.value.objVal)
      ensures lp == old(lp)
    {
      var c := CheckProblem();
      if c.Err? {
        return Err(c.error);
      }
      c := CheckSolution();
      if c.Err? {
        return Err(c.error);
      }
      var m := IsMIP();
      if m.value {
        return Ok(lp.value.mipObjVal);
      }
      return Ok(lp.value.objVal);
    }

    /**
     * `getObjectiveLinear`: a fresh empty linear when there is no column,
     * null when every coefficient is zero, else one term per non-zero
     * coefficient in column order.
     */
    method GetObjectiveLinear() returns (r: Result<Option<ConcreteLinear<Variable>>>)
      requires Valid()
      ensures lp.None? ==> r == Err(Disposed())
      ensures lp.Some? && variables == [] ==>
        r.Ok? && r.value.Some? && fresh(r.value.value) && r.value.value.terms == None
      ensures lp.Some? && variables != [] && ObjTerms(lp.value.cols, variables, |variables|) == [] ==>
        r == Ok(None)
      ensures lp.Some? && ObjTerms(lp.value.cols, variables, |variables|) != [] ==>
        r.Ok? && r.value.Some? && fresh(r.value.value) && r.value.value.Valid() &&
        r.value.value.terms == Some(ObjTerms(lp.value.cols, variables, |variables|))
    {
      var c := CheckProblem();
      if c.Err? {
        return Err(c.error);
      }
      var count := |lp.value.cols|;
      if count == 0 {
        var empty := new ConcreteLinear<Variable>();
        return Ok(Some(empty));
      }
      assert Distinct(variables) by {
        forall a, b | 0 <= a < b < |variables| ensures variables[a] != variables[b] {
          assert variables[a].col != variables[b].col;
        }
      }
      var linear := FillObjective(lp.value.cols, variables);
      var size := linear.Size();
      if size == 0 {
        return Ok(None);
      }
      return Ok(Some(linear));
    }

    /**
     * `setObjectiveLinear`: marks the problem dirty, sets every variable's
     * coefficient to zero, then writes each term's coefficient at its
     * variable's column.  A term whose column GLPK does not have is fatal
     * after the earlier writes.
     */
    method SetObjectiveLinear(objective: Option<seq<Term<Variable>>>) returns (r: Result<()>)
      requires Valid()
      modifies this`lp, this`dirty
      ensures Valid()
      ensures old(lp).None? ==> r == Err(Disposed()) && lp == old(lp) && dirty == old(dirty)
      ensures old(lp).Some? ==> dirty
      ensures old(lp).Some? && (objective.None? || objective.value == []) ==>
        r == Ok(()) && lp == Some(ZeroedUpTo(old(lp.value), |old(lp.value.cols)|))
      ensures old(lp).Some? && objective.Some? && objective.value != [] ==>
        var o := WriteCoefs(ZeroedUpTo(old(lp.value), |old(lp.value.cols)|), ElemsOf(objective.value));
        lp == Some(o.prob) && (r.Err? <==> o.failed) && (r.Err? ==> r.error == Native)
    {
      var c := CheckProblem();
      if c.Err? {
        return Err(c.error);
      }
      dirty := true;
      ZeroObjective();
      if objective.None? || |objective.value| == 0 {
        return Ok(());
      }
      r := WriteObjective(objective.value);
    }

    /** The first loop of `setObjectiveLinear`: each variable's column coefficient set to zero. */
    method ZeroObjective()
      requires Valid() && lp.Some?
      modifies this`lp
      ensures Valid()
      ensures lp == Some(ZeroedUpTo(old(lp.value), |old(lp.value.cols)|))
    {
      ghost var p0 := lp.value;
      assert ZeroedUpTo(p0, 0).cols == p0.cols;
      var i := 0;
      while i < |variables|
        invariant 0 <= i <= |variables|
        invariant lp == Some(ZeroedUpTo(p0, i))
        invariant Valid()
      {
        var z := N.SetObjCoef(lp.value, variables[i].col, 0.0);
        assert z.value == ZeroedUpTo(p0, i + 1);
        lp := Some(z.value);
        i := i + 1;
      }
    }

    /** The second loop of `setObjectiveLinear`: each term's coefficient written at its variable's column. */
    method WriteObjective(ts: seq<Term<Variable>>) returns (r: Result<()>)
      requires Valid() && lp.Some?
      modifies this`lp
      ensures Valid()
      ensures lp == Some(WriteCoefs(old(lp.value), ElemsOf(ts)).prob)
      ensures r.Err? <==> WriteCoefs(old(lp.value), ElemsOf(ts)).failed
      ensures r.Err? ==> r.error == Native
    {
      var q, failed := GLPK.SetObjCoefs(lp.value, ElemsOf(ts));
      lp := Some(q);
      r := if failed then Err(Native) else Ok(());
    }

    /** `addCol(var)`: drops the MIP cache, marks the problem dirty, then a new column numbered count + 1. */
    method AddCol(v: Variable)
      requires Valid() && lp.Some?
      requires v.home == this && v !in variables
      modifies this, v
      ensures Valid()
      ensures variables == old(variables) + [v] && v.parent == this && v.col == |variables|
      ensures hasVariableList
      ensures lp == Some(N.AddCol(old(lp.value)))
      ensures mip == None && dirty
      ensures constraints == old(constraints) && status == old(status)
      ensures primalFeasible == old(primalFeasible) && dualFeasible == old(dualFeasible)
    {
      mip := None;
      dirty := true;
      v.parent := this;
      v.col := |lp.value.cols| + 1;
      lp := Some(N.AddCol(lp.value));
      variables := variables + [v];
      hasVariableList := true;
    }

    /** `addRow(constraint)`: marks the problem dirty, then a new row numbered count + 1. */
    method AddRow(c: Constraint)
      requires Valid() && lp.Some?
      requires c.home == this && c !in constraints
      modifies this, c
      ensures Valid()
      ensures constraints == old(constraints) + [c] && c.parent == this && c.row == |constraints|
      ensures lp == Some(N.AddRow(old(lp.value)))
      ensures dirty && variables == old(variables) && mip == old(mip) && status == old(status)
      ensures primalFeasible == old(primalFeasible) && dualFeasible == old(dualFeasible)
    {
      dirty := true;
      c.parent := this;
      c.row := |lp.value.rows| + 1;
      lp := Some(N.AddRow(lp.value));
      constraints := constraints + [c];
    }

    /**
     * `addVariable()`: `new GLPKVariable(this)` registers a new column with
     * `addCol`: continuous, fixed at zero and unnamed.
     */
    method AddVariable() returns (r: Result<Variable>)
      requires Valid()
      modifies this
      ensures Valid()
      ensures old(lp).None? ==> r == Err(Disposed()) && unchanged(this)
      ensures old(lp).Some? ==>
        r.Ok? && fresh(r.value) && variables == old(variables) + [r.value] &&
        lp == Some(N.AddCol(old(lp.value))) && mip == None && dirty &&
        constraints == old(constraints) && status == old(status)
      ensures r.Ok? ==> r.value.Valid() && r.value.Live() && r.value.GetName() == Ok(None)
      ensures r.Ok? ==> r.value.GetType() == Ok(REAL)
      ensures r.Ok? ==> r.value.GetLowerBound() == Ok(Some(RealNum(0.0)))
      ensures r.Ok? ==> r.value.GetUpperBound() == Ok(Some(RealNum(0.0)))
    {
      var c := CheckProblem();
      if c.Err? {
        return Err(c.error);
      }
      var v := new Variable(this);
      AddCol(v);
      assert v.Valid() && v.Column() == N.NewCol;
      return Ok(v);
    }

    /**
     * `addConstraint()`: `new GLPKConstraint(this)` registers a new row with
     * `addRow`: free, empty and unnamed.
     */
    method AddConstraint() returns (r: Result<Constraint>)
      requires Valid()
      modifies this
      ensures Valid()
      ensures old(lp).None? ==> r == Err(Disposed()) && unchanged(this)
      ensures old(lp).Some? ==>
        r.Ok? && fresh(r.value) && constraints == old(constraints) + [r.value] &&
        lp == Some(N.AddRow(old(lp.value))) && dirty &&
        variables == old(variables) && mip == old(mip) && status == old(status)
      ensures r.Ok? ==> r.value.Valid() && r.value.Live() && r.value.Row() == N.NewRow
      ensures r.Ok? ==> r.value.GetName() == Ok(None)
      ensures r.Ok? ==> r.value.GetLowerBound() == Ok(None) && r.value.GetUpperBound() == Ok(None)
    {
      var c := CheckProblem();
      if c.Err? {
        return Err(c.error);
      }
      var constraint := new Constraint(this);
      AddRow(constraint);
      assert constraint.Valid() && constraint.Row() == N.NewRow;
      return Ok(constraint);
    }

    /** The renumbering loop of `removeCol`: the variables from `index` on move down one column. */
    method ShiftCols(index: int)
      requires 0 <= index <= |variables|
      requires forall i :: 0 <= i < index ==> variables[i].col == i + 1
      requires forall i :: index <= i < |variables| ==> variables[i].col == i + 2
      modifies variables
      ensures forall i :: 0 <= i < |variables| ==> variables[i].col == i + 1
      ensures forall i :: 0 <= i < |variables| ==> variables[i].parent == old(variables[i].parent)
    {
      var k := index;
      while k < |variables|
        invariant index <= k <= |variables|
        invariant forall i :: 0 <= i < k ==> variables[i].col == i + 1
        invariant forall i :: k <= i < |variables| ==> variables[i].col == i + 2
        invariant forall i :: 0 <= i < |variables| ==> variables[i].parent == old(variables[i].parent)
      {
        variables[k].col := k + 1;
        k := k + 1;
      }
    }

    /** The renumbering loop of `removeRow`: the constraints from `index` on move up one row. */
    method ShiftRows(index: int)
      requires 0 <= index <= |constraints|
      requires forall i :: 0 <= i < index ==> constraints[i].row == i + 1
      requires forall i :: index <= i < |constraints| ==> constraints[i].row == i + 2
      modifies constraints
      ensures forall i :: 0 <= i < |constraints| ==> constraints[i].row == i + 1
      ensures forall i :: 0 <= i < |constraints| ==> constraints[i].parent == old(constraints[i].parent)
    {
      var k := index;
      while k < |constraints|
        invariant index <= k <= |constraints|
        invariant forall i :: 0 <= i < k ==> constraints[i].row == i + 1
        invariant forall i :: k <= i < |constraints| ==> constraints[i].row == i + 2
        invariant forall i :: 0 <= i < |constraints| ==> constraints[i].parent == old(constraints[i].parent)
      {
        constraints[k].row := k + 1;
        k := k + 1;
      }
    }

    /** The list and native part of `removeCol`: the column leaves GLPK and the list, and is cleared. */
    method DetachCol(v: Variable)
      requires Valid() && lp.Some? && v in variables
      modifies this`lp, this`variables, v
      ensures lp == Some(N.DelCol(old(lp.value), old(v.col)))
      ensures variables == old(variables)[..old(v.col) - 1] + old(variables)[old(v.col)..]
      ensures v.parent == null && v.col == 0 && v !in variables
      ensures forall i :: 0 <= i < |variables| ==> variables[i].parent == this && variables[i].home == this
      ensures forall i :: 0 <= i < old(v.col) - 1 ==> variables[i].col == i + 1
      ensures forall i :: old(v.col) - 1 <= i < |variables| ==> variables[i].col == i + 2
    {
      var index := v.col - 1;
      assert variables[index] == v;
      forall i | 0 <= i < |variables| && i != index
        ensures variables[i] != v
      {
        assert variables[i].col != v.col;
      }
      lp := Some(N.DelCol(lp.value, v.col));
      ghost var removed := variables;
      variables := variables[..index] + variables[index + 1..];
      v.col := 0;
      v.parent := null;
      assert forall i :: 0 <= i < |variables| ==>
        variables[i] == (if i < index then removed[i] else removed[i + 1]);
    }

    /** The list and native part of `removeRow`: the row leaves GLPK and the list, and is cleared. */
    method DetachRow(c: Constraint)
      requires Valid() && lp.Some? && c in constraints
      modifies this`lp, this`constraints, c
      ensures lp == Some(N.DelRow(old(lp.value), old(c.row)))
      ensures constraints == old(constraints)[..old(c.row) - 1] + old(constraints)[old(c.row)..]
      ensures c.parent == null && c.row == 0 && c !in constraints
      ensures forall i :: 0 <= i < |constraints| ==> constraints[i].parent == this && constraints[i].home == this
      ensures forall i :: 0 <= i < old(c.row) - 1 ==> constraints[i].row == i + 1
      ensures forall i :: old(c.row) - 1 <= i < |constraints| ==> constraints[i].row == i + 2
    {
      var index := c.row - 1;
      assert constraints[index] == c;
      forall i | 0 <= i < |constraints| && i != index
        ensures constraints[i] != c
      {
        assert constraints[i].row != c.row;
      }
      lp := Some(N.DelRow(lp.value, c.row));
      ghost var removed := constraints;
      constraints := constraints[..index] + constraints[index + 1..];
      c.row := 0;
      c.parent := null;
      assert forall i :: 0 <= i < |constraints| ==>
        constraints[i] == (if i < index then removed[i] else removed[i + 1]);
    }

    /**
     * `removeCol(var)`: a variable not in the list is a runtime error;
     * otherwise the problem is marked dirty, the column leaves GLPK and the
     * list, the variable is cleared and every later variable's column number
     * goes down by one.  The problem is not checked first: on a disposed one
     * the native call fails.  The MIP cache is kept.
     */
    method RemoveCol(v: Variable) returns (r: Result<()>)
      requires Valid()
      modifies this, variables
      ensures Valid()
      ensures v !in old(variables) ==> r == Err(Runtime) && unchanged(this) && unchanged(old(variables))
      ensures v in old(variables) && old(lp).None? ==>
        r == Err(Native) && dirty && unchanged(old(variables)) &&
        lp == old(lp) && variables == old(variables) && constraints == old(constraints)
      ensures v in old(variables) && old(lp).Some? ==>
        r == Ok(()) && v.parent == null && v.col == 0 && dirty &&
        variables == old(variables)[..old(v.col) - 1] + old(variables)[old(v.col)..] &&
        lp == Some(N.DelCol(old(lp.value), old(v.col))) &&
        constraints == old(constraints) && mip == old(mip) && status == old(status)
    {
      if v !in variables {
        return Err(Runtime);
      }
      var index := v.col - 1;
      assert variables[index] == v;
      dirty := true;
      if lp.None? {
        return Err(Native);
      }
      DetachCol(v);
      ShiftCols(index);
      return Ok(());
    }

    /**
     * `removeRow(constraint)`: a constraint not in the list is a runtime
     * error; otherwise the problem is marked dirty, the row leaves GLPK and
     * the list, the constraint is cleared and every later row number goes
     * down by one.  On a disposed problem the native call fails.
     */
    method RemoveRow(c: Constraint) returns (r: Result<()>)
      requires Valid()
      modifies this, constraints
      ensures Valid()
      ensures c !in old(constraints) ==> r == Err(Runtime) && unchanged(this) && unchanged(old(constraints))
      ensures c in old(constraints) && old(lp).None? ==>
        r == Err(Native) && dirty && unchanged(old(constraints)) &&
        lp == old(lp) && variables == old(variables) && constraints == old(constraints)
      ensures c in old(constraints) && old(lp).Some? ==>
        r == Ok(()) && c.parent == null && c.row == 0 && dirty &&
        constraints == old(constraints)[..old(c.row) - 1] + old(constraints)[old(c.row)..] &&
        lp == Some(N.DelRow(old(lp.value), old(c.row))) &&
        variables == old(variables) && mip == old(mip) && status == old(status)
    {
      if c !in constraints {
        return Err(Runtime);
      }
      var index := c.row - 1;
      assert constraints[index] == c;
      dirty := true;
      if lp.None? {
        return Err(Native);
      }
      DetachRow(c);
      ShiftRows(index);
      return Ok(());
    }
  }

  class Variable {
    var col: int
    var parent: Problem?
    /** The problem this variable was created for. */
    ghost const home: Problem

    /** A variable not yet registered: `addCol` sets `parent` and `col`. */
    constructor(home: Problem)
      ensures this.home == home && parent == null && col == 0
    {
      this.home := home;
      parent := null;
      col := 0;
    }

    ghost predicate Valid()
      reads this, home, home.variables, home.constraints
    {
      home.Valid() &&
      (parent == null ==> col == 0) &&
      (parent != null ==> parent == home && 1 <= col <= |home.variables| && home.variables[col - 1] == this)
    }

    /** `isDisposed`: no parent, or column 0. */
    function IsDisposed(): bool
      reads this
    {
      parent == null || col == 0
    }

    /** Live: part of a problem that is not disposed. */
    ghost predicate Live()
      reads this, home
    {
      !IsDisposed() && home.lp.Some?
    }

    /** The native column of a live variable. */
    function Column(): N.Col
      requires Valid() && Live()
      reads this, home, home.variables, home.constraints
    {
      parent.lp.value.cols[col - 1]
    }

    /** `checkVariable`: disposed variable, or variable of a disposed problem. */
    function CheckVariable(): (r: Result<()>)
      requires Valid()
      reads this, home, home.variables, home.constraints
      ensures r.Ok? <==> Live()
      ensures r.Err? ==> r.error == Disposed()
    {
      if IsDisposed() then Err(Disposed()) else parent.CheckProblem()
    }

    function GetType(): (r: Result<VarType>)
      requires Valid()
      reads this, home, home.variables, home.constraints
      ensures r.Ok? <==> Live()
      ensures r.Err? ==> r.error == Disposed()
      ensures r.Ok? ==> r.value == ColTypes(home.lp.value)[col - 1]
    {
      var c := CheckVariable();
      if c.Err? then Err(c.error) else Ok(ColType(Column()))
    }

    /** `getLowerBound`: null for `-DBL_MAX`, else the bound boxed for the variable's type. */
    function GetLowerBound(): (r: Result<Option<Number>>)
      requires Valid()
      reads this, home, home.variables, home.constraints
      ensures r.Ok? <==> Live()
      ensures r.Err? ==> r.error == Disposed()
      ensures r.Ok? ==> r.value == Valued(ColType(Column()), Lower(Column().bnds))
    {
      var c := CheckVariable();
      if c.Err? then Err(c.error)
      else
        var x := N.Lb(Column().bnds);
        if x == -N.DBL_MAX then Ok(None) else Ok(Some(Value(ColType(Column()), x)))
    }

    /** `getUpperBound`: null for `DBL_MAX`, else the bound boxed for the variable's type. */
    function GetUpperBound(): (r: Result<Option<Number>>)
      requires Valid()
      reads this, home, home.variables, home.constraints
      ensures r.Ok? <==> Live()
      ensures r.Err? ==> r.error == Disposed()
      ensures r.Ok? ==> r.value == Valued(ColType(Column()), Upper(Column().bnds))
    {
      var c := CheckVariable();
      if c.Err? then Err(c.error)
      else
        var x := N.Ub(Column().bnds);
        if x == N.DBL_MAX then Ok(None) else Ok(Some(Value(ColType(Column()), x)))
    }

    /** `getName` checks only the problem: a disposed variable has no parent to check. */
    function GetName(): (r: Result<Option<string>>)
      requires Valid()
      reads this, home, home.variables, home.constraints
      ensures parent == null ==> r == Err(NullPointer)
      ensures parent != null && home.lp.None? ==> r == Err(Disposed())
      ensures parent != null && home.lp.Some? ==> r == Ok(Column().name)
    {
      if parent == null then Err(NullPointer)
      else if parent.lp.None? then Err(Disposed())
      else Ok(Column().name)
    }

    /**
     * `setLowerBound(lb)`: marks the problem dirty, re-reads the upper bound
     * through `getUpperBound` (so boxed for the type) and stores the pair.
     */
    method SetLowerBound(lb: Option<Number>) returns (r: Result<()>)
      requires Valid()
      modifies home`lp, home`dirty
      ensures Valid()
      ensures r.Ok? <==> old(Live())
      ensures r.Err? ==> r.error == Disposed() && unchanged(home)
      ensures r.Ok? ==> home.dirty
      ensures r.Ok? ==> home.lp == Some(old(N.SetColBnds(home.lp.value, col,
        BoundedType(AsReal(lb), AsReal(GetUpperBound().value)), Written(AsReal(lb)),
        Written(AsReal(GetUpperBound().value)))))
      ensures r.Ok? ==> Lower(Column().bnds) == NormalLower(AsReal(lb))
      ensures r.Ok? ==> Upper(Column().bnds) == AsReal(old(GetUpperBound().value))
      ensures r.Ok? ==> Column().integer == old(Column().integer)
    {
      var c := CheckVariable();
      if c.Err? {
        return Err(c.error);
      }
      parent.dirty := true;
      var ub := GetUpperBound();
      BoxedBoundReadsBack(ColType(Column()), Upper(Column().bnds));
      StoreBounds(AsReal(lb), AsReal(ub.value));
      return Ok(());
    }

    /**
     * `setUpperBound(ub)`: marks the problem dirty, re-reads the lower bound
     * through `getLowerBound` (so boxed for the type) and stores the pair.
     */
    method SetUpperBound(ub: Option<Number>) returns (r: Result<()>)
      requires Valid()
      modifies home`lp, home`dirty
      ensures Valid()
      ensures r.Ok? <==> old(Live())
      ensures r.Err? ==> r.error == Disposed() && unchanged(home)
      ensures r.Ok? ==> home.dirty
      ensures r.Ok? ==> home.lp == Some(old(N.SetColBnds(home.lp.value, col,
        BoundedType(AsReal(GetLowerBound().value), AsReal(ub)), Written(AsReal(GetLowerBound().value)),
        Written(AsReal(ub)))))
      ensures r.Ok? ==> Upper(Column().bnds) == NormalUpper(AsReal(ub))
      ensures r.Ok? ==> Lower(Column().bnds) == AsReal(old(GetLowerBound().value))
      ensures r.Ok? ==> Column().integer == old(Column().integer)
    {
      var c := CheckVariable();
      if c.Err? {
        return Err(c.error);
      }
      parent.dirty := true;
      var lb := GetLowerBound();
      BoxedBoundReadsBack(ColType(Column()), Lower(Column().bnds));
      StoreBounds(AsReal(lb.value), AsReal(ub));
      return Ok(());
    }

    /** The `glp_set_col_bnds` call both bound setters end with: each bound then reads back as written. */
    method StoreBounds(lo: Option<real>, up: Option<real>)
      requires Valid() && Live()
      modifies home`lp
      ensures Valid() && Live()
      ensures home.lp == Some(old(N.SetColBnds(home.lp.value, col, BoundedType(lo, up), Written(lo), Written(up))))
      ensures Lower(Column().bnds) == NormalLower(lo) && Upper(Column().bnds) == NormalUpper(up)
      ensures Column().integer == old(Column().integer)
    {
      StoreReadsBack(lo, up);
      parent.lp := Some(N.SetColBnds(parent.lp.value, col, BoundedType(lo, up), Written(lo), Written(up)));
    }

    /** `setName(name)`: marks the problem dirty, then refuses more than 255 UTF-16 code units. */
    method SetName(name: Option<string>) returns (r: Result<()>)
      requires Valid()
      modifies home`lp, home`dirty
      ensures Valid()
      ensures !old(Live()) ==> r == Err(Disposed()) && unchanged(home)
      ensures old(Live()) ==> home.dirty
      ensures old(Live()) && TooLong(name) ==> r == Err(IllegalArgument) && home.lp == old(home.lp)
      ensures old(Live()) && !TooLong(name) ==>
        r == Ok(()) && home.lp == Some(old(N.SetColName(home.lp.value, col, name)))
      ensures r.Ok? ==> GetName() == Ok(N.StoredName(name))
    {
      var c := CheckVariable();
      if c.Err? {
        return Err(c.error);
      }
      parent.dirty := true;
      if TooLong(name) {
        return Err(IllegalArgument);
      }
      parent.lp := Some(N.SetColName(parent.lp.value, col, name));
      return Ok(());
    }

    /**
     * `setType(type)`: marks the problem dirty; BOOL is an integer column
     * bounded by [0,1], INTEGER an integer column, REAL a continuous one,
     * and only REAL drops the cached MIP flag.
     */
    method SetType(t: VarType) returns (r: Result<()>)
      requires Valid()
      modifies home`lp, home`mip, home`dirty
      ensures Valid()
      ensures r.Ok? <==> old(Live())
      ensures r.Err? ==> r.error == Disposed() && unchanged(home)
      ensures r.Ok? ==> home.lp == Some(old(home.lp.value.(cols := home.lp.value.cols[col - 1 :=
        WithType(Column(), t)]))) && home.dirty
      ensures r.Ok? ==> home.mip == GLPK.MipAfterSetTypeAsWritten(old(home.mip), t)
      ensures r.Ok? && t != INTEGER ==> GetType() == Ok(t)
    {
      var c := CheckVariable();
      if c.Err? {
        return Err(c.error);
      }
      parent.dirty := true;
      StoreType(t);
      return Ok(());
    }

    /** The `glp_set_col_kind` call (and bounds, for BOOL) of `setType`, with the MIP cache update. */
    method StoreType(t: VarType)
      requires Valid() && Live()
      modifies home`lp, home`mip
      ensures Valid() && Live()
      ensures home.lp == Some(old(home.lp.value.(cols := home.lp.value.cols[col - 1 := WithType(Column(), t)])))
      ensures home.mip == GLPK.MipAfterSetTypeAsWritten(old(home.mip), t)
      ensures t != INTEGER ==> GetType() == Ok(t)
    {
      ghost var before := Column();
      TypeReadsBack(before, t);
      var p := SetColType(parent.lp.value, col, t);
      if t == REAL {
        parent.mip := None;
      }
      parent.lp := Some(p);
      assert home.Valid();
      assert Column() == WithType(before, t);
    }

    /**
     * `getValue`: once a solution is available, the MIP value boxed for the
     * type when `isMIP()`, else the primal value provided the primal
     * solution is feasible.
     */
    method GetValue() returns (r: Result<Number>)
      requires Valid()
      modifies home`mip, home`status, home`primalFeasible
      ensures Valid() && home.lp == old(home.lp)
      ensures !old(Live()) ==> r == Err(Disposed()) && unchanged(home)
      ensures old(Live()) && !SolutionAvailable(old(home.StatusNow())) ==>
        r == Err(WithMessage("solution not available"))
      ensures old(Live()) && SolutionAvailable(old(home.StatusNow())) && old(home.MIPFlag()) ==>
        r == Ok(Value(ColType(Column()), Column().mipVal))
      ensures old(Live()) && SolutionAvailable(old(home.StatusNow())) && !old(home.MIPFlag()) ==>
        r == (if old(home.PrimalNow()) then Ok(RealNum(Column().prim))
              else Err(WithMessage("primal solution value not available.")))
    {
      var c := CheckVariable();
      if c.Err? {
        return Err(c.error);
      }
      r := parent.SolvedCol(col);
    }

    /** `getDual`: once a solution is available, the column's dual value provided the dual solution is feasible. */
    method GetDual() returns (r: Result<Number>)
      requires Valid()
      modifies home`mip, home`status, home`dualFeasible
      ensures Valid() && home.lp == old(home.lp)
      ensures !old(Live()) ==> r == Err(Disposed()) && unchanged(home)
      ensures old(Live()) && !SolutionAvailable(old(home.StatusNow())) ==>
        r == Err(WithMessage("solution not available"))
      ensures old(Live()) && SolutionAvailable(old(home.StatusNow())) ==>
        r == (if old(home.DualNow()) then Ok(RealNum(Column().dual))
              else Err(WithMessage("dual solution value not available")))
    {
      var c := CheckVariable();
      if c.Err? {
        return Err(c.error);
      }
      c := parent.CheckSolution();
      if c.Err? {
        return Err(c.error);
      }
      c := parent.CheckDual();
      if c.Err? {
        return Err(c.error);
      }
      return Ok(RealNum(Column().dual));
    }

    /** `dispose`: removes the column, unless already disposed. */
    method Dispose() returns (r: Result<()>)
      requires Valid()
      modifies home, home.variables
      ensures Valid()
      ensures old(IsDisposed()) ==> r == Ok(()) && unchanged(home) && unchanged(old(home.variables))
      ensures !old(IsDisposed()) && old(home.lp).None? ==> r == Err(Native) && home.lp == None
      ensures !old(IsDisposed()) && old(home.lp).Some? ==>
        r == Ok(()) && IsDisposed() && home.dirty &&
        home.variables == old(home.variables)[..old(col) - 1] + old(home.variables)[old(col)..] &&
        home.lp == Some(N.DelCol(old(home.lp.value), old(col))) && home.mip == old(home.mip)
    {
      if IsDisposed() {
        return Ok(());
      }
      r := parent.RemoveCol(this);
    }
  }

  /**
   * A bound boxed for a type is not the sentinel of the side it comes from,
   * so once written it reads back as itself; a REAL bound is not boxed at all.
   */
  lemma BoxedBoundReadsBack(t: VarType, x: Option<real>)
    ensures x != Some(N.DBL_MAX) ==> NormalUpper(AsReal(Valued(t, x))) == AsReal(Valued(t, x))
    ensures x != Some(-N.DBL_MAX) ==> NormalLower(AsReal(Valued(t, x))) == AsReal(Valued(t, x))
    ensures t == REAL ==> AsReal(Valued(t, x)) == x
  {
  }

  /**
   * Re-reading a fractional bound of an integer variable truncates it toward
   * zero: a negative upper bound and a positive lower bound move outwards,
   * so the rewritten bound admits one more integer.
   */
  lemma TruncatedBoundLoosens(t: VarType, x: real)
    requires t != REAL && INT_MIN as real <= x <= INT_MAX as real && x.Floor as real != x
    ensures x < 0.0 ==> DoubleValue(Value(t, x)) > x && DoubleValue(Value(t, x)) - 1.0 < x
    ensures x > 0.0 ==> DoubleValue(Value(t, x)) < x && DoubleValue(Value(t, x)) + 1.0 > x
  {
    ValueOfWhole(t, x);
  }

  /**
   * An INTEGER column bounded by [-5, -2.5]: `setLowerBound(-4)` rewrites
   * the upper bound as the `Integer` -2, so -2 becomes a feasible value.
   */
  lemma SetLowerBoundAsWrittenLoosensUpper()
    ensures var c := N.Col(None, true, N.Bnds(N.DB, -5.0, -2.5), 0.0, 0.0, 0.0, 0.0);
      var ub := AsReal(Valued(ColType(c), Upper(c.bnds)));
      ColType(c) == INTEGER && Upper(c.bnds) == Some(-2.5) &&
      ub == Some(-2.0) && Upper(Store(Some(-4.0), ub)) == Some(-2.0)
  {
    var c := N.Col(None, true, N.Bnds(N.DB, -5.0, -2.5), 0.0, 0.0, 0.0, 0.0);
    assert (2.5).Floor == 2;
    assert Truncate(-2.5) == -2;
    StoreReadsBack(Some(-4.0), Some(-2.0));
  }

  class Constraint {
    var row: int
    var parent: Problem?
    ghost const home: Problem

    /** A constraint not yet registered: `addRow` sets `parent` and `row`. */
    constructor(home: Problem)
      ensures this.home == home && parent == null && row == 0
    {
      this.home := home;
      parent := null;
      row := 0;
    }

    ghost predicate Valid()
      reads this, home, home.variables, home.constraints
    {
      home.Valid() &&
      (parent == null ==> row == 0) &&
      (parent != null ==> parent == home && 1 <= row <= |home.constraints| && home.constraints[row - 1] == this)
    }

    function IsDisposed(): bool
      reads this
    {
      parent == null || row == 0
    }

    ghost predicate Live()
      reads this, home
    {
      !IsDisposed() && home.lp.Some?
    }

    /** The native row of a live constraint. */
    function Row(): N.Row
      requires Valid() && Live()
      reads this, home, home.variables, home.constraints
    {
      parent.lp.value.rows[row - 1]
    }

    /** `checkConstraint`. */
    function CheckConstraint(): (r: Result<()>)
      requires Valid()
      reads this, home, home.variables, home.constraints
      ensures r.Ok? <==> Live()
      ensures r.Err? ==> r.error == Disposed()
    {
      if IsDisposed() then Err(Disposed()) else parent.CheckProblem()
    }

    function GetName(): (r: Result<Option<string>>)
      requires Valid()
      reads this, home, home.variables, home.constraints
      ensures r.Ok? <==> Live()
      ensures r.Err? ==> r.error == Disposed()
      ensures r.Ok? ==> r.value == Row().name
    {
      var c := CheckConstraint();
      if c.Err? then Err(c.error) else Ok(Row().name)
    }

    /** `getLowerBound`: a `Double`, null for `-DBL_MAX`. */
    function GetLowerBound(): (r: Result<Option<real>>)
      requires Valid()
      reads this, home, home.variables, home.constraints
      ensures r.Ok? <==> Live()
      ensures r.Err? ==> r.error == Disposed()
      ensures r.Ok? ==> r.value == Lower(Row().bnds)
    {
      var c := CheckConstraint();
      if c.Err? then Err(c.error) else Ok(LowerOf(N.Lb(Row().bnds)))
    }

    /** `getUpperBound`: a `Double`, null for `DBL_MAX`. */
    function GetUpperBound(): (r: Result<Option<real>>)
      requires Valid()
      reads this, home, home.variables, home.constraints
      ensures r.Ok? <==> Live()
      ensures r.Err? ==> r.error == Disposed()
      ensures r.Ok? ==> r.value == Upper(Row().bnds)
    {
      var c := CheckConstraint();
      if c.Err? then Err(c.error) else Ok(UpperOf(N.Ub(Row().bnds)))
    }

    /** `isEmpty`: the row has no element. */
    function IsEmpty(): (r: Result<bool>)
      requires Valid()
      reads this, home, home.variables, home.constraints
      ensures r.Ok? <==> Live()
      ensures r.Err? ==> r.error == Disposed()
      ensures r.Ok? ==> (r.value <==> Row().elems == [])
    {
      var c := CheckConstraint();
      if c.Err? then Err(c.error) else Ok(|Row().elems| == 0)
    }

    /** `setName(name)`: marks the problem dirty, then refuses more than 255 UTF-16 code units. */
    method SetName(name: Option<string>) returns (r: Result<()>)
      requires Valid()
      modifies home`lp, home`dirty
      ensures Valid()
      ensures !old(Live()) ==> r == Err(Disposed()) && unchanged(home)
      ensures old(Live()) ==> home.dirty
      ensures old(Live()) && TooLong(name) ==> r == Err(IllegalArgument) && home.lp == old(home.lp)
      ensures old(Live()) && !TooLong(name) ==>
        r == Ok(()) && home.lp == Some(old(N.SetRowName(home.lp.value, row, name)))
      ensures r.Ok? ==> GetName() == Ok(N.StoredName(name))
    {
      var c := CheckConstraint();
      if c.Err? {
        return Err(c.error);
      }
      parent.dirty := true;
      if TooLong(name) {
        return Err(IllegalArgument);
      }
      parent.lp := Some(N.SetRowName(parent.lp.value, row, name));
      return Ok(());
    }

    /** `setLowerbound(lb)`: marks the problem dirty, re-reads the upper bound and stores the pair. */
    method SetLowerBound(lb: Option<Number>) returns (r: Result<()>)
      requires Valid()
      modifies home`lp, home`dirty
      ensures Valid()
      ensures r.Ok? <==> old(Live())
      ensures r.Err? ==> r.error == Disposed() && unchanged(home)
      ensures r.Ok? ==> home.dirty && home.lp == Some(old(N.SetRowBnds(home.lp.value, row,
        BoundedType(AsReal(lb), Upper(Row().bnds)), Written(AsReal(lb)), Written(Upper(Row().bnds)))))
      ensures r.Ok? ==> Row().elems == old(Row().elems)
      ensures r.Ok? ==> Upper(Row().bnds) == old(Upper(Row().bnds))
      ensures r.Ok? ==> Lower(Row().bnds) == NormalLower(AsReal(lb))
    {
      var c := CheckConstraint();
      if c.Err? {
        return Err(c.error);
      }
      parent.dirty := true;
      var ub := GetUpperBound();
      SetLowerKeepsUpper(Row().bnds, AsReal(lb));
      StoreBounds(AsReal(lb), ub.value);
      return Ok(());
    }

    /** `setUpperBound(ub)`: marks the problem dirty, re-reads the lower bound and stores the pair. */
    method SetUpperBound(ub: Option<Number>) returns (r: Result<()>)
      requires Valid()
      modifies home`lp, home`dirty
      ensures Valid()
      ensures r.Ok? <==> old(Live())
      ensures r.Err? ==> r.error == Disposed() && unchanged(home)
      ensures r.Ok? ==> home.dirty && home.lp == Some(old(N.SetRowBnds(home.lp.value, row,
        BoundedType(Lower(Row().bnds), AsReal(ub)), Written(Lower(Row().bnds)), Written(AsReal(ub)))))
      ensures r.Ok? ==> Row().elems == old(Row().elems)
      ensures r.Ok? ==> Lower(Row().bnds) == old(Lower(Row().bnds))
      ensures r.Ok? ==> Upper(Row().bnds) == NormalUpper(AsReal(ub))
    {
      var c := CheckConstraint();
      if c.Err? {
        return Err(c.error);
      }
      parent.dirty := true;
      var lb := GetLowerBound();
      SetUpperKeepsLower(Row().bnds, AsReal(ub));
      StoreBounds(lb.value, AsReal(ub));
      return Ok(());
    }

    /** The `glp_set_row_bnds` call both bound setters end with; the row's elements stay. */
    method StoreBounds(lo: Option<real>, up: Option<real>)
      requires Valid() && Live()
      modifies home`lp
      ensures Valid() && Live()
      ensures home.lp == Some(old(N.SetRowBnds(home.lp.value, row, BoundedType(lo, up), Written(lo), Written(up))))
      ensures Row().elems == old(Row().elems) && Row().bnds == Store(lo, up)
    {
      parent.lp := Some(N.SetRowBnds(parent.lp.value, row, BoundedType(lo, up), Written(lo), Written(up)));
    }

    /**
     * `setLinear(linear)`: a disposed variable in the linear is an illegal
     * argument; otherwise the problem is marked dirty and each term's column
     * number and coefficient go to `glp_set_mat_row`, which refuses a column
     * it does not have or a column given twice.
     */
    method SetLinear(linear: Option<seq<Term<Variable>>>) returns (r: Result<()>)
      requires Valid()
      modifies home`lp, home`dirty
      ensures Valid()
      ensures !old(Live()) ==> r == Err(Disposed()) && unchanged(home)
      ensures old(Live()) && LB.CheckLinear(linear, DisposedIn(LB.LinearTerms(linear))).Err? ==>
        r == Err(IllegalArgument) && unchanged(home)
      ensures old(Live()) && LB.CheckLinear(linear, DisposedIn(LB.LinearTerms(linear))).Ok? ==> home.dirty
      ensures old(Live()) && LB.CheckLinear(linear, DisposedIn(LB.LinearTerms(linear))).Ok? &&
              !N.MatRowAccepted(ElemsOf(LB.LinearTerms(linear)), |home.variables|) ==>
        r == Err(Native) && home.lp == old(home.lp)
      ensures old(Live()) && LB.CheckLinear(linear, DisposedIn(LB.LinearTerms(linear))).Ok? &&
              N.MatRowAccepted(ElemsOf(LB.LinearTerms(linear)), |home.variables|) ==>
        r == Ok(()) && home.lp == Some(old(N.SetMatRow(home.lp.value, row, ElemsOf(LB.LinearTerms(linear))).value))
      ensures r.Ok? ==> Row().elems == N.NonZero(ElemsOf(LB.LinearTerms(linear)))
      ensures r.Ok? ==> Row().bnds == old(Row().bnds)
    {
      var c := CheckConstraint();
      if c.Err? {
        return Err(c.error);
      }
      r := ReplaceLinear(linear);
    }

    /** `setLinear` on a live constraint: the linear checked, then the row stored. */
    method ReplaceLinear(linear: Option<seq<Term<Variable>>>) returns (r: Result<()>)
      requires Valid() && Live()
      modifies home`lp, home`dirty
      ensures Valid()
      ensures LB.CheckLinear(linear, DisposedIn(LB.LinearTerms(linear))).Err? ==>
        r == Err(IllegalArgument) && unchanged(home)
      ensures LB.CheckLinear(linear, DisposedIn(LB.LinearTerms(linear))).Ok? ==> home.dirty
      ensures LB.CheckLinear(linear, DisposedIn(LB.LinearTerms(linear))).Ok? &&
              !N.MatRowAccepted(ElemsOf(LB.LinearTerms(linear)), |home.variables|) ==>
        r == Err(Native) && home.lp == old(home.lp)
      ensures LB.CheckLinear(linear, DisposedIn(LB.LinearTerms(linear))).Ok? &&
              N.MatRowAccepted(ElemsOf(LB.LinearTerms(linear)), |home.variables|) ==>
        r == Ok(()) && home.lp == Some(old(N.SetMatRow(home.lp.value, row, ElemsOf(LB.LinearTerms(linear))).value))
      ensures r.Ok? ==> Row().elems == N.NonZero(ElemsOf(LB.LinearTerms(linear)))
      ensures r.Ok? ==> Row().bnds == old(Row().bnds)
    {
      var c := LB.CheckLinear(linear, DisposedIn(LB.LinearTerms(linear)));
      if c.Err? {
        return Err(c.error);
      }
      r := StoreRow(LB.LinearTerms(linear));
    }

    /**
     * The part of `setLinear` after the checks: the problem is marked dirty,
     * then the terms' elements go to `glp_set_mat_row`.
     */
    method StoreRow(ts: seq<Term<Variable>>) returns (r: Result<()>)
      requires Valid() && Live()
      modifies home`lp, home`dirty
      ensures Valid() && home.dirty
      ensures !N.MatRowAccepted(old(ElemsOf(ts)), |home.variables|) ==> r == Err(Native) && home.lp == old(home.lp)
      ensures N.MatRowAccepted(old(ElemsOf(ts)), |home.variables|) ==>
        r == Ok(()) && home.lp == Some(old(N.SetMatRow(home.lp.value, row, ElemsOf(ts)).value))
      ensures r.Ok? ==> Row().elems == N.NonZero(ElemsOf(ts)) && Row().bnds == old(Row().bnds)
    {
      parent.dirty := true;
      r := WriteRow(ts);
    }

    /** The `glp_set_mat_row` call of `setLinear`: it stores the elements or changes nothing. */
    method WriteRow(ts: seq<Term<Variable>>) returns (r: Result<()>)
      requires Valid() && Live()
      modifies home`lp
      ensures Valid()
      ensures !N.MatRowAccepted(old(ElemsOf(ts)), |home.variables|) ==> r == Err(Native) && home.lp == old(home.lp)
      ensures N.MatRowAccepted(old(ElemsOf(ts)), |home.variables|) ==>
        r == Ok(()) && home.lp == Some(old(N.SetMatRow(home.lp.value, row, ElemsOf(ts)).value))
      ensures r.Ok? ==> Row().elems == N.NonZero(ElemsOf(ts)) && Row().bnds == old(Row().bnds)
    {
      var es := BuildElems(ts);
      var set_ := N.SetMatRow(parent.lp.value, row, es);
      if set_.Err? {
        return Err(set_.error);
      }
      parent.lp := Some(set_.value);
      return Ok(());
    }

    /**
     * `getLinear`: null for an empty row, else a fresh linear of one term
     * per element, its variable found by column number.
     */
    method GetLinear() returns (r: Result<Option<ConcreteLinear<Variable>>>)
      requires Valid()
      ensures !Live() ==> r == Err(Disposed())
      ensures Live() && Row().elems == [] ==> r == Ok(None)
      ensures Live() && Row().elems != [] ==>
        r.Ok? && r.value.Some? && fresh(r.value.value) && r.value.value.Valid() &&
        r.value.value.terms == Some(RowTerms(Row().elems, home.variables))
    {
      var c := CheckConstraint();
      if c.Err? {
        return Err(c.error);
      }
      var es := parent.lp.value.rows[row - 1].elems;
      if |es| == 0 {
        return Ok(None);
      }
      assert N.RowWf(es, |home.variables|);
      var linear := new ConcreteLinear<Variable>();
      FillLinear(parent, es, linear);
      return Ok(Some(linear));
    }

    /**
     * `getValue`: once a solution is available, the MIP row value when
     * `isMIP()`, else the primal value provided the primal solution is
     * feasible; always a `Double`.
     */
    method GetValue() returns (r: Result<real>)
      requires Valid()
      modifies home`mip, home`status, home`primalFeasible
      ensures Valid() && home.lp == old(home.lp)
      ensures !old(Live()) ==> r == Err(Disposed()) && unchanged(home)
      ensures old(Live()) && !SolutionAvailable(old(home.StatusNow())) ==>
        r == Err(WithMessage("solution not available"))
      ensures old(Live()) && SolutionAvailable(old(home.StatusNow())) && old(home.MIPFlag()) ==>
        r == Ok(Row().mipVal)
      ensures old(Live()) && SolutionAvailable(old(home.StatusNow())) && !old(home.MIPFlag()) ==>
        r == (if old(home.PrimalNow()) then Ok(Row().prim)
              else Err(WithMessage("primal solution value not available.")))
    {
      var c := CheckConstraint();
      if c.Err? {
        return Err(c.error);
      }
      r := parent.SolvedRow(row);
    }

    /** `getDual`: once a solution is available, the row's dual value provided the dual solution is feasible. */
    method GetDual() returns (r: Result<real>)
      requires Valid()
      modifies home`mip, home`status, home`dualFeasible
      ensures Valid() && home.lp == old(home.lp)
      ensures !old(Live()) ==> r == Err(Disposed()) && unchanged(home)
      ensures old(Live()) && !SolutionAvailable(old(home.StatusNow())) ==>
        r == Err(WithMessage("solution not available"))
      ensures old(Live()) && SolutionAvailable(old(home.StatusNow())) ==>
        r == (if old(home.DualNow()) then Ok(Row().dual)
              else Err(WithMessage("dual solution value not available")))
    {
      var c := CheckConstraint();
      if c.Err? {
        return Err(c.error);
      }
      c := parent.CheckSolution();
      if c.Err? {
        return Err(c.error);
      }
      c := parent.CheckDual();
      if c.Err? {
        return Err(c.error);
      }
      return Ok(Row().dual);
    }

    /** `dispose`: removes the row, unless already disposed. */
    method Dispose() returns (r: Result<()>)
      requires Valid()
      modifies home, home.constraints
      ensures Valid()
      ensures old(IsDisposed()) ==> r == Ok(()) && unchanged(home) && unchanged(old(home.constraints))
      ensures !old(IsDisposed()) && old(home.lp).None? ==> r == Err(Native) && home.lp == None
      ensures !old(IsDisposed()) && old(home.lp).Some? ==>
        r == Ok(()) && IsDisposed() && home.dirty &&
        home.constraints == old(home.constraints)[..old(row) - 1] + old(home.constraints)[old(row)..] &&
        home.lp == Some(N.DelRow(old(home.lp.value), old(row)))
    {
      if IsDisposed() {
        return Ok(());
      }
      r := parent.RemoveRow(this);
    }
  }
}
