/**
 * The GLPK backend: `GLPKLinearProblem`, `GLPKVariable` and `GLPKConstraint`.
 *
 * The problem keeps its variables and constraints in lists, in column and
 * row order, and the names it has handed out in two sets.  Every live
 * entity records its 1-based position (`col`, `row`) and its problem
 * (`parent`); removal clears both and renumbers the entities that follow.
 * The native GLPK problem is the value `lp` (null once disposed).
 */
module GLPK {
  import opened Wrappers
  import opened Numbers
  import opened Types
  import opened ILPErrors
  import opened Terms
  import opened LinearExpr
  import LB = LinearBuilders
  import N = GLPKNative
  import opened GLPKBounds
  import opened GLPKRows

  /** The name, if any, as a set: `Set.remove(null)` removes nothing. */
  function NameSet(name: Option<string>): set<string> {
    if name.None? then {} else {name.value}
  }

  /** The column `addVariable(name, t)` appends. */
  function NewVariableCol(name: Option<string>, t: VarType): N.Col {
    N.Col(N.StoredName(name), t != REAL,
          if t == BOOL then N.Bnds(N.DB, 0.0, 1.0) else N.Bnds(N.FR, 0.0, 0.0), 0.0, 0.0, 0.0, 0.0)
  }

  /** A column after `addVariable`'s typing step: integer unless REAL, bounded by [0,1] if BOOL, else free. */
  function Typed(c: N.Col, t: VarType): N.Col {
    c.(integer := t != REAL, bnds := if t == BOOL then N.Bnds(N.DB, 0.0, 1.0) else N.Bnds(N.FR, 0.0, 0.0))
  }

  /** The value `getValue` reports for column `j`: the MIP value in a MIP, the simplex value otherwise. */
  function ColumnValue(p: N.Prob, j: int): real
    requires 1 <= j <= |p.cols|
  {
    if LB.IsMIP(ColTypes(p)) then p.cols[j - 1].mipVal else p.cols[j - 1].prim
  }

  /** The value `getValue` reports for row `i`. */
  function RowValue(p: N.Prob, i: int): real
    requires 1 <= i <= |p.rows|
  {
    if LB.IsMIP(ColTypes(p)) then p.rows[i - 1].mipVal else p.rows[i - 1].prim
  }

  /** The matrix elements `setLinear` passes to GLPK: each term's column number and coefficient. */
  function ElemsOf(ts: seq<Term<Variable>>): (es: seq<N.Elem>)
    reads set k | 0 <= k < |ts| :: ts[k].variable
    ensures |es| == |ts|
    ensures forall k :: 0 <= k < |ts| ==> es[k] == N.Elem(ts[k].variable.col, ts[k].coefficient)
  {
    seq(|ts|, k requires 0 <= k < |ts| reads set i | 0 <= i < |ts| :: ts[i].variable => N.Elem(ts[k].variable.col, ts[k].coefficient))
  }

  /** The copy loop of `setLinear`: each term's column number and coefficient, in order. */
  method BuildElems(ts: seq<Term<Variable>>) returns (es: seq<N.Elem>)
    ensures es == ElemsOf(ts)
  {
    es := [];
    var i := 0;
    while i < |ts|
      invariant 0 <= i <= |ts| && |es| == i
      invariant forall k :: 0 <= k < i ==> es[k] == N.Elem(ts[k].variable.col, ts[k].coefficient)
    {
      es := es + [N.Elem(ts[i].variable.col, ts[i].coefficient)];
      i := i + 1;
    }
  }

  /**
   * `glp_set_obj_coef` for each element in turn, stopping at the first call
   * GLPK rejects; the column kinds, and so the MIP flag, are untouched.
   */
  method SetObjCoefs(start: N.Prob, ws: seq<N.Elem>) returns (p: N.Prob, failed: bool)
    requires N.Wf(start)
    ensures Outcome(p, failed) == WriteCoefs(start, ws)
    ensures LB.IsMIP(ColTypes(p)) == LB.IsMIP(ColTypes(start))
  {
    p := start;
    for k := 0 to |ws|
      invariant N.Wf(p) && |p.cols| == |start.cols|
      invariant LB.IsMIP(ColTypes(p)) == LB.IsMIP(ColTypes(start))
      invariant WriteCoefs(p, ws[k..]) == WriteCoefs(start, ws)
    {
      var w := N.SetObjCoef(p, ws[k].col, ws[k].val);
      assert ws[k..][0] == ws[k] && ws[k..][1..] == ws[k + 1..];
      if w.Err? {
        return p, true;
      }
      SameKindsSameMIP(p, w.value);
      p := w.value;
    }
    assert ws[|ws|..] == [];
    failed := false;
  }

  /**
   * Reading a row back as terms and writing those terms again gives the same
   * elements, as long as every variable still sits at its column.
   */
  lemma RowTermsElems(es: seq<N.Elem>, vars: seq<Variable>)
    requires forall k :: 0 <= k < |es| ==> 1 <= es[k].col <= |vars|
    requires forall j :: 0 <= j < |vars| ==> vars[j].col == j + 1
    ensures ElemsOf(RowTerms(es, vars)) == es
  {
    var ts := RowTerms(es, vars);
    forall k | 0 <= k < |es|
      ensures ElemsOf(ts)[k] == es[k]
    {
      assert ts[k].variable == vars[es[k].col - 1];
    }
  }

  /** A term of problem `vars`: its variable sits at its own column. */
  ghost predicate HasColumnIn(t: Term<Variable>, vars: seq<Variable>)
    reads t.variable
  {
    1 <= t.variable.col <= |vars| && vars[t.variable.col - 1] == t.variable
  }

  /**
   * `setLinear` of terms over distinct variables of the problem is accepted
   * by GLPK, and `getLinear` then rebuilds exactly the terms with a non-zero
   * coefficient.
   */
  lemma RowRoundTrip(ts: seq<Term<Variable>>, vars: seq<Variable>)
    requires forall k :: 0 <= k < |ts| ==> HasColumnIn(ts[k], vars)
    requires DistinctVariables(ts)
    ensures N.MatRowAccepted(ElemsOf(ts), |vars|)
    ensures N.RowWf(N.NonZero(ElemsOf(ts)), |vars|)
    ensures RowTerms(N.NonZero(ElemsOf(ts)), vars) == NonZeroTerms(ts)
  {
    PlacedRowRoundTrip(ts, ElemsOf(ts), vars);
  }

  /**
   * `setObjectiveLinear` of terms over distinct variables of the problem,
   * then `getObjectiveLinear`, yields the same set of terms, less those with
   * a zero coefficient.
   */
  lemma ObjectiveRoundTrip(p: N.Prob, vars: seq<Variable>, ts: seq<Term<Variable>>)
    requires N.Wf(p) && |p.cols| == |vars|
    requires forall k :: 0 <= k < |ts| ==> HasColumnIn(ts[k], vars)
    requires DistinctVariables(ts)
    ensures !WriteCoefs(ZeroedUpTo(p, |p.cols|), ElemsOf(ts)).failed
    ensures Elems(ObjTerms(WriteCoefs(ZeroedUpTo(p, |p.cols|), ElemsOf(ts)).prob.cols, vars, |vars|))
         == Elems(NonZeroTerms(ts))
  {
    PlacedObjectiveRoundTrip(p, ts, ElemsOf(ts), vars);
  }


  /** The terms a nullable linear iterates over. */
  function LinearTerms(linear: Option<seq<Term<Variable>>>): seq<Term<Variable>> {
    if linear.None? then [] else linear.value
  }

  /** The variables of `ts` that report `isDisposed()`. */
  function DisposedIn(ts: seq<Term<Variable>>): set<Variable>
    reads set k | 0 <= k < |ts| :: ts[k].variable
  {
    set k | 0 <= k < |ts| && ts[k].variable.IsDisposed() :: ts[k].variable
  }

  /** The loop of `getLinear`: one term per row element, its variable found with `getCol`. */
  method FillLinear(p: Problem, es: seq<N.Elem>, linear: ConcreteLinear<Variable>)
    requires p.Valid() && N.RowWf(es, |p.variables|) && es != []
    requires linear.Valid() && linear.terms == None
    modifies linear
    ensures linear.Valid() && linear.terms == Some(RowTerms(es, p.variables))
  {
    assert Distinct(p.variables) by {
      forall a, b | 0 <= a < b < |p.variables| ensures p.variables[a] != p.variables[b] {
        assert p.variables[a].col != p.variables[b].col;
      }
    }
    var i := 0;
    while i < |es|
      invariant 0 <= i <= |es|
      invariant linear.Valid()
      invariant i == 0 ==> linear.terms == None
      invariant i > 0 ==> linear.terms == Some(RowTerms(es[..i], p.variables))
    {
      var v := p.GetCol(es[i].col);
      RowTermsSnoc(es, p.variables, i);
      RowTermFresh(es, p.variables, i);
      linear.Add(Term(es[i].val, v.value));
      i := i + 1;
    }
    assert es[..|es|] == es;
  }

  class Problem {
    /** The native problem; `None` once disposed. */
    var lp: Option<N.Prob>
    var variables: seq<Variable>
    var constraints: seq<Constraint>
    var variableNames: set<string>
    var constraintNames: set<string>
    /** The cached `isMIP()`; null until computed. */
    var mip: Option<bool>
    /** Assigned by the solver; null reads as UNKNOWN. */
    var status: Option<Status>

    ghost predicate Valid()
      reads this, variables, constraints
    {
      (forall i :: 0 <= i < |variables| ==>
         variables[i].parent == this && variables[i].home == this && variables[i].col == i + 1) &&
      (forall i :: 0 <= i < |constraints| ==>
         constraints[i].parent == this && constraints[i].home == this && constraints[i].row == i + 1) &&
      (lp.Some? ==> N.Wf(lp.value) && |lp.value.cols| == |variables| && |lp.value.rows| == |constraints|) &&
      (lp.Some? && mip.Some? ==> mip.value == LB.IsMIP(ColTypes(lp.value)))
    }

    /** `new GLPKLinearProblem()`. */
    constructor()
      ensures Valid()
      ensures lp == Some(N.Create()) && variables == [] && constraints == []
      ensures variableNames == {} && constraintNames == {} && mip == None && status == Some(UNKNOWN)
    {
      lp := Some(N.Create());
      variables := [];
      constraints := [];
      variableNames := {};
      constraintNames := {};
      mip := None;
      status := Some(UNKNOWN);
    }

    function IsDisposed(): bool
      reads this
    {
      lp.None?
    }

    /** `checkProblem`. */
    function CheckProblem(): (r: Result<()>)
      reads this
      ensures r.Err? <==> lp.None?
      ensures r.Err? ==> r.error == Disposed()
    {
      if lp.None? then Err(Disposed()) else Ok(())
    }

    /** `checkVariableName`: a null name or one already handed out is a duplicate-name error. */
    function CheckVariableName(name: Option<string>): (r: Result<()>)
      reads this
      ensures r.Err? <==> name.None? || name.value in variableNames
      ensures r.Err? ==> r.error.ILP? && r.error.code == ERROR_DUPLICATE_NAME
    {
      if name.None? then Err(WithCodeAndMessage(ERROR_DUPLICATE_NAME, "Undefined variable name."))
      else if name.value in variableNames
      then Err(WithCodeAndMessage(ERROR_DUPLICATE_NAME, "Duplicate variable name: " + name.value))
      else Ok(())
    }

    /** `checkConstraintName`. */
    function CheckConstraintName(name: Option<string>): (r: Result<()>)
      reads this
      ensures r.Err? <==> name.None? || name.value in constraintNames
      ensures r.Err? ==> r.error.ILP? && r.error.code == ERROR_DUPLICATE_NAME
    {
      if name.None? then Err(WithCodeAndMessage(ERROR_DUPLICATE_NAME, "Undefined constraint name."))
      else if name.value in constraintNames
      then Err(WithCodeAndMessage(ERROR_DUPLICATE_NAME, "Duplicate constraint name: " + name.value))
      else Ok(())
    }

    /** `getStatus`. */
    function GetStatus(): (r: Result<Status>)
      reads this
      ensures r.Err? <==> lp.None?
      ensures r.Err? ==> r.error == Disposed()
      ensures r.Ok? ==> r.value == (if status.None? then UNKNOWN else status.value)
    {
      if lp.None? then Err(Disposed())
      else if status.None? then Ok(UNKNOWN)
      else Ok(status.value)
    }

    /** `checkSolution`: a solution exists only when FEASIBLE or OPTIMAL. */
    function CheckSolution(): (r: Result<()>)
      reads this
      ensures r.Ok? <==> GetStatus().Ok? && SolutionAvailable(GetStatus().value)
      ensures r.Err? && lp.Some? ==> r.error == WithMessage("solution not available")
    {
      var s := GetStatus();
      if s.Err? then Err(s.error)
      else if s.value != FEASIBLE && s.value != OPTIMAL then Err(WithMessage("solution not available"))
      else Ok(())
    }

    /** `getCol(col)`: the variable at a 1-based column. */
    function GetCol(col: int): (r: Result<Variable>)
      requires Valid()
      reads this, variables, constraints
      ensures 1 <= col <= |variables| ==> r == Ok(variables[col - 1])
      ensures !(1 <= col <= |variables|) ==> r == Err(IndexOutOfBounds)
    {
      if !(1 <= col <= |variables|) then Err(IndexOutOfBounds)
      else Ok(variables[col - 1])
    }

    /** `dispose`: frees the native problem; the entities keep their fields. */
    method Dispose()
      requires Valid()
      modifies this`lp
      ensures Valid() && lp == None
    {
      lp := None;
    }

    /** `getName`. */
    function GetName(): (r: Result<Option<string>>)
      reads this
      ensures r.Err? <==> lp.None?
      ensures r.Ok? ==> r.value == lp.value.name
    {
      if lp.None? then Err(Disposed()) else Ok(lp.value.name)
    }

    /** `setName(name)`: at most 255 UTF-16 code units; an empty name erases it. */
    method SetName(name: Option<string>) returns (r: Result<()>)
      requires Valid()
      modifies this`lp
      ensures Valid()
      ensures old(lp).None? ==> r == Err(Disposed()) && lp == old(lp)
      ensures old(lp).Some? && TooLong(name) ==> r == Err(IndexOutOfBounds) && lp == old(lp)
      ensures old(lp).Some? && !TooLong(name) ==> r == Ok(()) && lp == Some(N.SetProbName(old(lp.value), name))
      ensures r.Ok? ==> GetName() == Ok(N.StoredName(name))
    {
      var c := CheckProblem();
      if c.Err? {
        return Err(c.error);
      }
      if TooLong(name) {
        return Err(IndexOutOfBounds);
      }
      lp := Some(N.SetProbName(lp.value, name));
      return Ok(());
    }

    /** `getObjectiveName`. */
    function GetObjectiveName(): (r: Result<Option<string>>)
      reads this
      ensures r.Err? <==> lp.None?
      ensures r.Ok? ==> r.value == lp.value.objName
    {
      if lp.None? then Err(Disposed()) else Ok(lp.value.objName)
    }

    /** `setObjectiveName(name)`: at most 255 UTF-16 code units; an empty name erases it. */
    method SetObjectiveName(name: Option<string>) returns (r: Result<()>)
      requires Valid()
      modifies this`lp
      ensures Valid()
      ensures old(lp).None? ==> r == Err(Disposed()) && lp == old(lp)
      ensures old(lp).Some? && TooLong(name) ==> r == Err(IndexOutOfBounds) && lp == old(lp)
      ensures old(lp).Some? && !TooLong(name) ==> r == Ok(()) && lp == Some(N.SetObjName(old(lp.value), name))
      ensures r.Ok? ==> GetObjectiveName() == Ok(N.StoredName(name))
    {
      var c := CheckProblem();
      if c.Err? {
        return Err(c.error);
      }
      if TooLong(name) {
        return Err(IndexOutOfBounds);
      }
      lp := Some(N.SetObjName(lp.value, name));
      return Ok(());
    }

    /** `getObjectiveDirection`: GLP_MAX is MAXIMIZE, anything else MINIMIZE. */
    function GetObjectiveDirection(): (r: Result<int>)
      reads this
      ensures r.Err? <==> lp.None?
      ensures r.Ok? ==> (r.value == MAXIMIZE <==> lp.value.maximize)
      ensures r.Ok? ==> (r.value == MINIMIZE <==> !lp.value.maximize)
    {
      if lp.None? then Err(Disposed())
      else if lp.value.maximize then Ok(MAXIMIZE)
      else Ok(MINIMIZE)
    }

    /** `setObjectiveDirection(direction)`: MAXIMIZE or MINIMIZE, anything else is an illegal argument. */
    method SetObjectiveDirection(direction: int) returns (r: Result<()>)
      requires Valid()
      modifies this`lp
      ensures Valid()
      ensures old(lp).None? ==> r == Err(Disposed()) && lp == old(lp)
      ensures old(lp).Some? && direction != MAXIMIZE && direction != MINIMIZE ==>
        r == Err(IllegalArgument) && lp == old(lp)
      ensures old(lp).Some? && (direction == MAXIMIZE || direction == MINIMIZE) ==>
        r == Ok(()) && lp == Some(N.SetObjDir(old(lp.value), direction == MAXIMIZE))
      ensures r.Ok? ==> GetObjectiveDirection() == Ok(direction)
    {
      var c := CheckProblem();
      if c.Err? {
        return Err(c.error);
      }
      if direction == MAXIMIZE {
        lp := Some(N.SetObjDir(lp.value, true));
      } else if direction == MINIMIZE {
        lp := Some(N.SetObjDir(lp.value, false));
      } else {
        return Err(IllegalArgument);
      }
      return Ok(());
    }

    /**
     * `isMIP()`: the cached flag, or else every variable's type is asked in
     * turn and the answer cached.  With the cache kept coherent, a live
     * problem is a MIP exactly when no column is continuous.
     */
    method IsMIP() returns (r: Result<bool>)
      requires Valid()
      modifies this`mip
      ensures Valid()
      ensures old(mip).Some? ==> r == Ok(old(mip).value) && mip == old(mip)
      ensures old(mip).None? && r.Ok? ==> mip == Some(r.value)
      ensures old(mip).None? && r.Err? ==> mip == None
      ensures lp.Some? ==> r == Ok(LB.IsMIP(ColTypes(lp.value)))
      ensures lp.None? && old(mip).None? && variables != [] ==> r == Err(Disposed())
      ensures lp.None? && old(mip).None? && variables == [] ==> r == Ok(true)
    {
      if mip.None? {
        var all := true;
        var i := 0;
        while i < |variables|
          invariant 0 <= i <= |variables|
          invariant lp.None? ==> i == 0
          invariant lp.Some? ==> forall k :: 0 <= k < i ==> ColTypes(lp.value)[k] != REAL
        {
          assert variables[i].Valid();
          var t := variables[i].GetType();
          if t.Err? {
            return Err(t.error);
          }
          if t.value == REAL {
            all := false;
            break;
          }
          i := i + 1;
        }
        mip := Some(all);
      }
      return Ok(mip.value);
    }

    /** `getObjectiveValue`: the MIP objective of a MIP, the simplex objective otherwise. */
    method GetObjectiveValue() returns (r: Result<real>)
      requires Valid()
      modifies this`mip
      ensures Valid()
      ensures old(CheckSolution()).Err? ==> r == Err(old(CheckSolution()).error) && mip == old(mip)
      ensures old(CheckSolution()).Ok? ==>
        r == Ok(if LB.IsMIP(ColTypes(lp.value)) then lp.value.mipObjVal else lp.value.objVal)
    {
      var c := CheckProblem();
      if c.Err? {
        return Err(c.error);
      }
      c := CheckSolution();
      if c.Err? {
        return Err(c.error);
      }
      var m := IsMIP();
      if m.value {
        return Ok(lp.value.mipObjVal);
      }
      return Ok(lp.value.objVal);
    }

    /**
     * `getObjectiveLinear`: a fresh empty linear when there is no column,
     * null when every coefficient is zero, else one term per non-zero
     * coefficient in column order.
     */
    method GetObjectiveLinear() returns (r: Result<Option<ConcreteLinear<Variable>>>)
      requires Valid()
      ensures lp.None? ==> r == Err(Disposed())
      ensures lp.Some? && variables == [] ==>
        r.Ok? && r.value.Some? && fresh(r.value.value) && r.value.value.terms == None
      ensures lp.Some? && variables != [] && ObjTerms(lp.value.cols, variables, |variables|) == [] ==>
        r == Ok(None)
      ensures lp.Some? && ObjTerms(lp.value.cols, variables, |variables|) != [] ==>
        r.Ok? && r.value.Some? && fresh(r.value.value) && r.value.value.Valid() &&
        r.value.value.terms == Some(ObjTerms(lp.value.cols, variables, |variables|))
    {
      var c := CheckProblem();
      if c.Err? {
        return Err(c.error);
      }
      var count := |lp.value.cols|;
      if count == 0 {
        var empty := new ConcreteLinear<Variable>();
        return Ok(Some(empty));
      }
      assert Distinct(variables) by {
        forall a, b | 0 <= a < b < |variables| ensures variables[a] != variables[b] {
          assert variables[a].col != variables[b].col;
        }
      }
      var linear := FillObjective(lp.value.cols, variables);
      var size := linear.Size();
      if size == 0 {
        return Ok(None);
      }
      return Ok(Some(linear));
    }

    /**
     * `setObjectiveLinear`: every column's coefficient is set to zero, then
     * each term's coefficient is written at its variable's column.  A term
     * whose column GLPK does not have is fatal after the earlier writes.
     */
    method SetObjectiveLinear(objective: Option<seq<Term<Variable>>>) returns (r: Result<()>)
      requires Valid()
      modifies this`lp
      ensures Valid()
      ensures old(lp).None? ==> r == Err(Disposed()) && lp == old(lp)
      ensures old(lp).Some? && (objective.None? || objective.value == []) ==>
        r == Ok(()) && lp == Some(ZeroedUpTo(old(lp.value), |old(lp.value.cols)|))
      ensures old(lp).Some? && objective.Some? && objective.value != [] ==>
        var o := WriteCoefs(ZeroedUpTo(old(lp.value), |old(lp.value.cols)|), ElemsOf(objective.value));
        lp == Some(o.prob) && (r.Err? <==> o.failed) && (r.Err? ==> r.error == Native)
    {
      var c := CheckProblem();
      if c.Err? {
        return Err(c.error);
      }
      ZeroObjective();
      if objective.None? || |objective.value| == 0 {
        return Ok(());
      }
      r := WriteObjective(objective.value);
    }

    /** The first loop of `setObjectiveLinear`: every column's coefficient set to zero. */
    method ZeroObjective()
      requires Valid() && lp.Some?
      modifies this`lp
      ensures Valid()
      ensures lp == Some(ZeroedUpTo(old(lp.value), |old(lp.value.cols)|))
    {
      ghost var p0 := lp.value;
      var colCount := |lp.value.cols|;
      assert ZeroedUpTo(p0, 0).cols == p0.cols;
      if colCount > 0 {
        var i := 1;
        while i <= colCount
          invariant 1 <= i <= colCount + 1
          invariant lp == Some(ZeroedUpTo(p0, i - 1))
          invariant Valid()
        {
          var z := N.SetObjCoef(lp.value, i, 0.0);
          assert z.value == ZeroedUpTo(p0, i);
          SameKindsSameMIP(lp.value, z.value);
          lp := Some(z.value);
          i := i + 1;
        }
      }
    }

    /** The second loop of `setObjectiveLinear`: each term's coefficient written at its variable's column. */
    method WriteObjective(ts: seq<Term<Variable>>) returns (r: Result<()>)
      requires Valid() && lp.Some?
      modifies this`lp
      ensures Valid()
      ensures lp == Some(WriteCoefs(old(lp.value), ElemsOf(ts)).prob)
      ensures r.Err? <==> WriteCoefs(old(lp.value), ElemsOf(ts)).failed
      ensures r.Err? ==> r.error == Native
    {
      var q, failed := SetObjCoefs(lp.value, ElemsOf(ts));
      lp := Some(q);
      r := if failed then Err(Native) else Ok(());
    }

    /** `addCol(var, name)`: a new native column, numbered count + 1, and the name registered. */
    method AddCol(v: Variable, name: string)
      requires Valid() && lp.Some?
      requires v.home == this && v !in variables
      modifies this, v
      ensures Valid()
      ensures variables == old(variables) + [v] && v.parent == this && v.col == |variables|
      ensures lp == Some(N.AddCol(old(lp.value)))
      ensures variableNames == old(variableNames) + {name} && mip == None
      ensures constraints == old(constraints) && constraintNames == old(constraintNames)
      ensures status == old(status)
    {
      mip := None;
      v.parent := this;
      v.col := |lp.value.cols| + 1;
      lp := Some(N.AddCol(lp.value));
      assert v.col == |variables| + 1;
      variables := variables + [v];
      variableNames := variableNames + {name};
    }

    /** `addRow(constraint, name)`: a new native row, numbered count + 1, and the name registered. */
    method AddRow(c: Constraint, name: string)
      requires Valid() && lp.Some?
      requires c.home == this && c !in constraints
      modifies this, c
      ensures Valid()
      ensures constraints == old(constraints) + [c] && c.parent == this && c.row == |constraints|
      ensures lp == Some(N.AddRow(old(lp.value)))
      ensures constraintNames == old(constraintNames) + {name}
      ensures variables == old(variables) && variableNames == old(variableNames)
      ensures mip == old(mip) && status == old(status)
    {
      c.parent := this;
      c.row := |lp.value.rows| + 1;
      lp := Some(N.AddRow(lp.value));
      constraints := constraints + [c];
      constraintNames := constraintNames + {name};
    }

    /**
     * `new GLPKVariable(this, name)`: registers a new column with `addCol`,
     * then names it; a name GLPK refuses fails after the registration.
     */
    method CreateVariable(name: Option<string>) returns (r: Result<Variable>)
      requires Valid() && lp.Some? && CheckVariableName(name).Ok?
      modifies this
      ensures Valid()
      ensures |variables| == |old(variables)| + 1 && variables[..|old(variables)|] == old(variables)
      ensures fresh(variables[|old(variables)|])
      ensures variableNames == old(variableNames) + {name.value} && mip == None
      ensures constraints == old(constraints) && constraintNames == old(constraintNames) && status == old(status)
      ensures TooLong(name) ==> r == Err(IllegalArgument) && lp == Some(N.AddCol(old(lp.value)))
      ensures !TooLong(name) ==> (r == Ok(variables[|old(variables)|]) &&
        lp == Some(old(lp.value).(cols := old(lp.value.cols) + [N.NewCol.(name := N.StoredName(name))])))
      ensures r.Ok? ==> r.value.Valid() && r.value.Live()
    {
      var v := new Variable(this);
      AddCol(v, name.value);
      ghost var n := |variables| - 1;
      ghost var added := lp.value;
      var s := v.SetName(name);
      if s.Err? {
        return Err(s.error);
      }
      assert added.cols[n := N.NewCol.(name := N.StoredName(name))] ==
        old(lp.value.cols) + [N.NewCol.(name := N.StoredName(name))];
      return Ok(v);
    }

    /**
     * `new GLPKConstraint(this, name)`: registers a new row with `addRow`,
     * then names it; a name GLPK refuses fails after the registration.
     */
    method CreateConstraint(name: Option<string>) returns (r: Result<Constraint>)
      requires Valid() && lp.Some? && CheckConstraintName(name).Ok?
      modifies this
      ensures Valid()
      ensures |constraints| == |old(constraints)| + 1 && constraints[..|old(constraints)|] == old(constraints)
      ensures fresh(constraints[|old(constraints)|])
      ensures constraintNames == old(constraintNames) + {name.value}
      ensures variables == old(variables) && variableNames == old(variableNames)
      ensures mip == old(mip) && status == old(status)
      ensures TooLong(name) ==> r == Err(IllegalArgument) && lp == Some(N.AddRow(old(lp.value)))
      ensures !TooLong(name) ==> (r == Ok(constraints[|old(constraints)|]) &&
        lp == Some(old(lp.value).(rows := old(lp.value.rows) + [N.NewRow.(name := N.StoredName(name))])))
      ensures r.Ok? ==> r.value.Valid() && r.value.Live() && r.value.Row().elems == []
    {
      var c := new Constraint(this);
      AddRow(c, name.value);
      ghost var n := |constraints| - 1;
      ghost var added := lp.value;
      var s := c.SetName(name);
      if s.Err? {
        return Err(s.error);
      }
      assert added.rows[n := N.NewRow.(name := N.StoredName(name))] ==
        old(lp.value.rows) + [N.NewRow.(name := N.StoredName(name))];
      return Ok(c);
    }

    /**
     * The typing step of `addVariable`: `setType(type)`, then for INTEGER and
     * REAL both bounds set to null, which frees the column GLPK created fixed.
     */
    method InitType(v: Variable, t: VarType)
      requires Valid() && v.Valid() && v.home == this && v.Live()
      requires v.Column() == N.NewCol.(name := v.Column().name)
      modifies this`lp, this`mip
      ensures Valid() && v.Live()
      ensures lp == Some(old(lp.value).(cols := old(lp.value.cols)[v.col - 1 := Typed(old(v.Column()), t)]))
      ensures mip == None
    {
      ghost var p0 := lp.value;
      var s := v.SetType(t);
      if t == INTEGER || t == REAL {
        FreeCol(v);
      }
      assert v.Column() == Typed(p0.cols[v.col - 1], t);
      assert lp.value.cols == p0.cols[v.col - 1 := Typed(p0.cols[v.col - 1], t)];
    }

    /** Both bounds of a column GLPK created fixed at zero set to null: the column becomes free. */
    method FreeCol(v: Variable)
      requires Valid() && v.Valid() && v.home == this && v.Live()
      requires v.Column().bnds == N.NewCol.bnds
      modifies this`lp
      ensures Valid() && v.Live()
      ensures lp == Some(old(lp.value).(cols := old(lp.value.cols)[v.col - 1 := old(v.Column()).(bnds := N.Bnds(N.FR, 0.0, 0.0))]))
    {
      ghost var p1 := lp.value;
      var s := v.SetLowerBound(None);
      assert v.Column().bnds == N.Bnds(N.UP, 0.0, 0.0);
      s := v.SetUpperBound(None);
      assert v.Column().bnds == N.Bnds(N.FR, 0.0, 0.0);
      assert lp.value.cols == p1.cols[v.col - 1 := p1.cols[v.col - 1].(bnds := N.Bnds(N.FR, 0.0, 0.0))];
    }

    /**
     * `addVariable(name, type)`: a new column named `name` of the given type,
     * free unless BOOL, whose bounds are [0,1].  A name GLPK refuses fails
     * after the column was added and the name registered.
     */
    method AddVariable(name: Option<string>, t: VarType) returns (r: Result<Variable>)
      requires Valid()
      modifies this
      ensures Valid()
      ensures old(lp).None? ==> r == Err(Disposed()) && unchanged(this)
      ensures old(lp).Some? && old(CheckVariableName(name)).Err? ==>
        r == Err(old(CheckVariableName(name)).error) && unchanged(this)
      ensures old(lp).Some? && old(CheckVariableName(name)).Ok? ==>
        |variables| == |old(variables)| + 1 && variables[..|old(variables)|] == old(variables) &&
        fresh(variables[|old(variables)|]) &&
        variableNames == old(variableNames) + {name.value} && mip == None &&
        constraints == old(constraints) && constraintNames == old(constraintNames) && status == old(status)
      ensures old(lp).Some? && old(CheckVariableName(name)).Ok? && TooLong(name) ==>
        r == Err(IllegalArgument) && lp == Some(N.AddCol(old(lp.value)))
      ensures old(lp).Some? && old(CheckVariableName(name)).Ok? && !TooLong(name) ==>
        r == Ok(variables[|old(variables)|]) &&
        lp == Some(old(lp.value).(cols := old(lp.value.cols) + [NewVariableCol(name, t)]))
      ensures r.Ok? ==> r.value.Valid() && r.value.Live() && r.value.Column() == NewVariableCol(name, t)
      ensures r.Ok? ==> r.value.GetType() == Ok(t) && r.value.GetName() == Ok(N.StoredName(name))
      ensures r.Ok? ==> r.value.GetLowerBound() == Ok(if t == BOOL then Some(0.0) else None)
      ensures r.Ok? ==> r.value.GetUpperBound() == Ok(if t == BOOL then Some(1.0) else None)
    {
      var c := CheckProblem();
      if c.Err? {
        return Err(c.error);
      }
      c := CheckVariableName(name);
      if c.Err? {
        return Err(c.error);
      }
      r := NewVariable(name, t);
    }

    /** `addVariable` once the problem and the name are checked. */
    method NewVariable(name: Option<string>, t: VarType) returns (r: Result<Variable>)
      requires Valid() && lp.Some? && CheckVariableName(name).Ok?
      modifies this
      ensures Valid()
      ensures |variables| == |old(variables)| + 1 && variables[..|old(variables)|] == old(variables) &&
        fresh(variables[|old(variables)|]) &&
        variableNames == old(variableNames) + {name.value} && mip == None &&
        constraints == old(constraints) && constraintNames == old(constraintNames) && status == old(status)
      ensures TooLong(name) ==>
        r == Err(IllegalArgument) && lp == Some(N.AddCol(old(lp.value)))
      ensures !TooLong(name) ==>
        r == Ok(variables[|old(variables)|]) &&
        lp == Some(old(lp.value).(cols := old(lp.value.cols) + [NewVariableCol(name, t)]))
      ensures r.Ok? ==> r.value.Valid() && r.value.Live() && r.value.Column() == NewVariableCol(name, t)
      ensures r.Ok? ==> r.value.GetType() == Ok(t) && r.value.GetName() == Ok(N.StoredName(name))
      ensures r.Ok? ==> r.value.GetLowerBound() == Ok(if t == BOOL then Some(0.0) else None)
      ensures r.Ok? ==> r.value.GetUpperBound() == Ok(if t == BOOL then Some(1.0) else None)
    {
      var created := CreateVariable(name);
      if created.Err? {
        return Err(created.error);
      }
      var v := created.value;
      ghost var n := |variables| - 1;
      ghost var before := lp.value;
      assert before.cols[n] == N.NewCol.(name := N.StoredName(name));
      InitVariable(v, name, t);
      assert before.cols[n := NewVariableCol(name, t)] == old(lp.value.cols) + [NewVariableCol(name, t)];
      return Ok(v);
    }

    /** The type and bounds `addVariable` gives a column just created with its name. */
    method InitVariable(v: Variable, name: Option<string>, t: VarType)
      requires Valid() && v.Valid() && v.home == this && v.Live()
      requires v.Column() == N.NewCol.(name := N.StoredName(name))
      modifies this`lp, this`mip
      ensures Valid() && v.Valid() && v.Live() && mip == None && v.Column() == NewVariableCol(name, t)
      ensures lp == Some(old(lp.value).(cols := old(lp.value.cols)[v.col - 1 := NewVariableCol(name, t)]))
      ensures v.GetType() == Ok(t) && v.GetName() == Ok(N.StoredName(name))
      ensures v.GetLowerBound() == Ok(if t == BOOL then Some(0.0) else None)
      ensures v.GetUpperBound() == Ok(if t == BOOL then Some(1.0) else None)
    {
      InitType(v, t);
      assert Typed(N.NewCol.(name := N.StoredName(name)), t) == NewVariableCol(name, t);
    }

    /** `addBinaryVariable(name)`. */
    method AddBinaryVariable(name: Option<string>) returns (r: Result<Variable>)
      requires Valid()
      modifies this
      ensures Valid()
      ensures old(lp).None? ==> r == Err(Disposed()) && unchanged(this)
      ensures old(lp).Some? && old(CheckVariableName(name)).Err? ==>
        r == Err(old(CheckVariableName(name)).error) && unchanged(this)
      ensures old(lp).Some? && old(CheckVariableName(name)).Ok? ==> |variables| == |old(variables)| + 1
      ensures old(lp).Some? && old(CheckVariableName(name)).Ok? && !TooLong(name) ==>
        r == Ok(variables[|old(variables)|]) && variables == old(variables) + [r.value]
      ensures r.Ok? ==> r.value.Valid() && r.value.GetType() == Ok(BOOL)
      ensures r.Ok? ==> r.value.GetLowerBound() == Ok(Some(0.0)) && r.value.GetUpperBound() == Ok(Some(1.0))
    {
      r := AddVariable(name, BOOL);
    }

    /** `addIntegerVariable(name, lb, ub)`: an INTEGER variable with the given bounds. */
    method AddIntegerVariable(name: Option<string>, lb: Option<Number>, ub: Option<Number>)
      returns (r: Result<Variable>)
      requires Valid()
      modifies this
      ensures Valid()
      ensures old(lp).None? ==> r == Err(Disposed()) && unchanged(this)
      ensures old(lp).Some? && old(CheckVariableName(name)).Err? ==>
        r == Err(old(CheckVariableName(name)).error) && unchanged(this)
      ensures old(lp).Some? && old(CheckVariableName(name)).Ok? ==> |variables| == |old(variables)| + 1
      ensures old(lp).Some? && old(CheckVariableName(name)).Ok? && !TooLong(name) ==>
        r == Ok(variables[|old(variables)|]) && variables == old(variables) + [r.value]
      ensures r.Ok? ==> r.value.Valid() && r.value.Live() && r.value.Column().integer
      ensures r.Ok? ==> r.value.GetLowerBound() == Ok(NormalLower(AsReal(lb)))
      ensures r.Ok? ==> r.value.GetUpperBound() == Ok(NormalUpper(AsReal(ub)))
    {
      r := AddVariable(name, INTEGER);
      if r.Err? {
        return;
      }
      SnocOf(variables, old(variables));
      BoundCol(r.value, lb, ub);
    }

    /** The two bound setters of `addIntegerVariable`; the column stays integer. */
    method BoundCol(v: Variable, lb: Option<Number>, ub: Option<Number>)
      requires Valid() && v.home == this && v.Valid() && v.Live()
      modifies this`lp
      ensures Valid() && v.Valid() && v.Live()
      ensures v.Column().integer == old(v.Column().integer)
      ensures v.GetLowerBound() == Ok(NormalLower(AsReal(lb)))
      ensures v.GetUpperBound() == Ok(NormalUpper(AsReal(ub)))
    {
      var s := v.SetLowerBound(lb);
      s := v.SetUpperBound(ub);
    }

    /**
     * `addConstraint(name)`: a new free, empty row named `name`.  A name GLPK
     * refuses fails after the row was added and the name registered.
     */
    method AddConstraint(name: Option<string>) returns (r: Result<Constraint>)
      requires Valid()
      modifies this
      ensures Valid()
      ensures old(lp).None? ==> r == Err(Disposed()) && unchanged(this)
      ensures old(lp).Some? && old(CheckConstraintName(name)).Err? ==>
        r == Err(old(CheckConstraintName(name)).error) && unchanged(this)
      ensures old(lp).Some? && old(CheckConstraintName(name)).Ok? ==>
        |constraints| == |old(constraints)| + 1 && constraints[..|old(constraints)|] == old(constraints) &&
        fresh(constraints[|old(constraints)|]) &&
        constraintNames == old(constraintNames) + {name.value} &&
        variables == old(variables) && variableNames == old(variableNames) &&
        mip == old(mip) && status == old(status)
      ensures old(lp).Some? && old(CheckConstraintName(name)).Ok? && TooLong(name) ==>
        r == Err(IllegalArgument) && lp == Some(N.AddRow(old(lp.value)))
      ensures old(lp).Some? && old(CheckConstraintName(name)).Ok? && !TooLong(name) ==>
        r == Ok(constraints[|old(constraints)|]) &&
        lp == Some(old(lp.value).(rows := old(lp.value.rows) + [N.NewRow.(name := N.StoredName(name))]))
      ensures r.Ok? ==> r.value.Valid() && r.value.Live() && r.value.Row().elems == []
    {
      var c := CheckProblem();
      if c.Err? {
        return Err(c.error);
      }
      c := CheckConstraintName(name);
      if c.Err? {
        return Err(c.error);
      }
      r := CreateConstraint(name);
    }

    /**
     * `addConstraint(name, linear, lb, ub)`: a new row, then its linear, then
     * its lower and its upper bound, each step able to fail.
     */
    method AddConstraintWith(name: Option<string>, linear: Option<seq<Term<Variable>>>,
                             lb: Option<Number>, ub: Option<Number>) returns (r: Result<Constraint>)
      requires Valid()
      modifies this
      ensures Valid()
      ensures old(lp).None? ==> r == Err(Disposed()) && unchanged(this)
      ensures old(lp).Some? && old(CheckConstraintName(name)).Err? ==>
        r == Err(old(CheckConstraintName(name)).error) && unchanged(this)
      ensures old(lp).Some? && old(CheckConstraintName(name)).Ok? && TooLong(name) ==> r == Err(IllegalArgument)
      ensures old(lp).Some? && old(CheckConstraintName(name)).Ok? && !TooLong(name) &&
              LB.CheckLinear(linear, DisposedIn(LinearTerms(linear))).Err? ==>
        r == Err(IllegalArgument)
      ensures old(lp).Some? && old(CheckConstraintName(name)).Ok? && !TooLong(name) &&
              LB.CheckLinear(linear, DisposedIn(LinearTerms(linear))).Ok? ==>
        (r.Ok? <==> N.MatRowAccepted(ElemsOf(LinearTerms(linear)), |variables|))
      ensures r.Ok? ==> r.value.Valid() && r.value.Live()
      ensures r.Ok? ==> r.value.GetName() == Ok(N.StoredName(name))
      ensures r.Ok? ==> r.value.Row().elems == N.NonZero(ElemsOf(LinearTerms(linear)))
      ensures r.Ok? ==> r.value.GetLowerBound() == Ok(NormalLower(AsReal(lb)))
      ensures r.Ok? ==> r.value.GetUpperBound() == Ok(NormalUpper(AsReal(ub)))
    {
      r := AddConstraint(name);
      if r.Err? {
        return;
      }
      r := ConfigureRow(r.value, linear, lb, ub);
    }

    /** The steps of `addConstraint(name, linear, lb, ub)` once the row exists. */
    method ConfigureRow(constraint: Constraint, linear: Option<seq<Term<Variable>>>,
                        lb: Option<Number>, ub: Option<Number>) returns (r: Result<Constraint>)
      requires Valid() && constraint.home == this && constraint.Valid() && constraint.Live()
      modifies this`lp
      ensures Valid()
      ensures LB.CheckLinear(linear, DisposedIn(LinearTerms(linear))).Err? ==> r == Err(IllegalArgument)
      ensures LB.CheckLinear(linear, DisposedIn(LinearTerms(linear))).Ok? ==>
        (r.Ok? <==> N.MatRowAccepted(ElemsOf(LinearTerms(linear)), |variables|))
      ensures r.Ok? ==> r.value == constraint && constraint.Valid() && constraint.Live()
      ensures r.Ok? ==> constraint.Row().name == old(constraint.Row().name)
      ensures r.Ok? ==> constraint.Row().elems == N.NonZero(ElemsOf(LinearTerms(linear)))
      ensures r.Ok? ==> constraint.GetLowerBound() == Ok(NormalLower(AsReal(lb)))
      ensures r.Ok? ==> constraint.GetUpperBound() == Ok(NormalUpper(AsReal(ub)))
    {
      var s := constraint.SetLinear(linear);
      if s.Err? {
        return Err(s.error);
      }
      BoundRow(constraint, lb, ub);
      return Ok(constraint);
    }

    /** The two bound setters of `addConstraint(name, linear, lb, ub)`; the row's elements stay. */
    method BoundRow(constraint: Constraint, lb: Option<Number>, ub: Option<Number>)
      requires Valid() && constraint.home == this && constraint.Valid() && constraint.Live()
      modifies this`lp
      ensures Valid() && constraint.Valid() && constraint.Live()
      ensures constraint.Row().elems == old(constraint.Row().elems)
      ensures constraint.Row().name == old(constraint.Row().name)
      ensures constraint.GetLowerBound() == Ok(NormalLower(AsReal(lb)))
      ensures constraint.GetUpperBound() == Ok(NormalUpper(AsReal(ub)))
    {
      var s := constraint.SetLowerBound(lb);
      s := constraint.SetUpperBound(ub);
    }

    /** The renumbering loop of `removeCol`: the variables from `index` on move down one column. */
    method ShiftCols(index: int)
      requires 0 <= index <= |variables|
      requires forall i :: 0 <= i < index ==> variables[i].col == i + 1
      requires forall i :: index <= i < |variables| ==> variables[i].col == i + 2
      modifies variables
      ensures forall i :: 0 <= i < |variables| ==> variables[i].col == i + 1
      ensures forall i :: 0 <= i < |variables| ==> variables[i].parent == old(variables[i].parent)
    {
      var k := index;
      while k < |variables|
        invariant index <= k <= |variables|
        invariant forall i :: 0 <= i < k ==> variables[i].col == i + 1
        invariant forall i :: k <= i < |variables| ==> variables[i].col == i + 2
        invariant forall i :: 0 <= i < |variables| ==> variables[i].parent == old(variables[i].parent)
      {
        variables[k].col := k + 1;
        k := k + 1;
      }
    }

    /** The renumbering loop of `removeRow`: the constraints from `index` on move up one row. */
    method ShiftRows(index: int)
      requires 0 <= index <= |constraints|
      requires forall i :: 0 <= i < index ==> constraints[i].row == i + 1
      requires forall i :: index <= i < |constraints| ==> constraints[i].row == i + 2
      modifies constraints
      ensures forall i :: 0 <= i < |constraints| ==> constraints[i].row == i + 1
      ensures forall i :: 0 <= i < |constraints| ==> constraints[i].parent == old(constraints[i].parent)
    {
      var k := index;
      while k < |constraints|
        invariant index <= k <= |constraints|
        invariant forall i :: 0 <= i < k ==> constraints[i].row == i + 1
        invariant forall i :: k <= i < |constraints| ==> constraints[i].row == i + 2
        invariant forall i :: 0 <= i < |constraints| ==> constraints[i].parent == old(constraints[i].parent)
      {
        constraints[k].row := k + 1;
        k := k + 1;
      }
    }

    /**
     * `removeCol(var)`: the column leaves GLPK and the list, the name is
     * released, the variable is cleared and every later variable's column
     * number goes down by one.  The cached MIP flag is dropped (the source
     * keeps it; see `MipAfterRemoveAsWritten`).
     */
    method RemoveCol(v: Variable) returns (r: Result<()>)
      requires Valid()
      modifies this, variables
      ensures Valid()
      ensures v !in old(variables) ==> r == Err(Runtime) && unchanged(this) && unchanged(old(variables))
      ensures v in old(variables) && old(lp).None? ==>
        r == Err(Disposed()) && unchanged(this) && unchanged(old(variables))
      ensures v in old(variables) && old(lp).Some? ==>
        r == Ok(()) && v.parent == null && v.col == 0 &&
        variables == old(variables)[..old(v.col) - 1] + old(variables)[old(v.col)..] &&
        lp == Some(N.DelCol(old(lp.value), old(v.col))) &&
        variableNames == old(variableNames) - NameSet(old(lp.value.cols[v.col - 1].name)) &&
        constraints == old(constraints) && constraintNames == old(constraintNames) &&
        status == old(status) && mip == None
    {
      if v !in variables {
        return Err(Runtime);
      }
      var index := v.col - 1;
      assert variables[index] == v;
      assert v.Valid();
      var name := v.GetName();
      if name.Err? {
        return Err(name.error);
      }
      assert name.value == lp.value.cols[index].name;
      variableNames := variableNames - NameSet(name.value);
      UnlinkCol(v);
      return Ok(());
    }

    /** `removeCol` once the name is released: the column detached and the later ones renumbered. */
    method UnlinkCol(v: Variable)
      requires Valid() && lp.Some? && v in variables
      modifies this`lp, this`variables, this`mip, variables
      ensures Valid() && v.parent == null && v.col == 0 && mip == None
      ensures variables == old(variables)[..old(v.col) - 1] + old(variables)[old(v.col)..]
      ensures lp == Some(N.DelCol(old(lp.value), old(v.col)))
    {
      var index := v.col - 1;
      DetachCol(v);
      ShiftCols(index);
    }

    /**
     * The list and native part of `removeCol`: the column leaves GLPK and the
     * list, the variable is cleared and the MIP cache dropped.
     */
    method DetachCol(v: Variable)
      requires Valid() && lp.Some? && v in variables
      modifies this`lp, this`variables, this`mip, v
      ensures lp == Some(N.DelCol(old(lp.value), old(v.col)))
      ensures variables == old(variables)[..old(v.col) - 1] + old(variables)[old(v.col)..]
      ensures v.parent == null && v.col == 0 && v !in variables && mip == None
      ensures forall i :: 0 <= i < |variables| ==> variables[i].parent == this && variables[i].home == this
      ensures forall i :: 0 <= i < old(v.col) - 1 ==> variables[i].col == i + 1
      ensures forall i :: old(v.col) - 1 <= i < |variables| ==> variables[i].col == i + 2
    {
      var index := v.col - 1;
      assert variables[index] == v;
      forall i | 0 <= i < |variables| && i != index
        ensures variables[i] != v
      {
        assert variables[i].col != v.col;
      }
      lp := Some(N.DelCol(lp.value, v.col));
      ghost var removed := variables;
      variables := variables[..index] + variables[index + 1..];
      v.col := 0;
      v.parent := null;
      mip := None;
      assert forall i :: 0 <= i < |variables| ==>
        variables[i] == (if i < index then removed[i] else removed[i + 1]);
    }

    /** The list and native part of `removeRow`: the row leaves GLPK and the list, and is cleared. */
    method DetachRow(c: Constraint)
      requires Valid() && lp.Some? && c in constraints
      modifies this`lp, this`constraints, c
      ensures lp == Some(N.DelRow(old(lp.value), old(c.row)))
      ensures constraints == old(constraints)[..old(c.row) - 1] + old(constraints)[old(c.row)..]
      ensures c.parent == null && c.row == 0 && c !in constraints
      ensures forall i :: 0 <= i < |constraints| ==> constraints[i].parent == this && constraints[i].home == this
      ensures forall i :: 0 <= i < old(c.row) - 1 ==> constraints[i].row == i + 1
      ensures forall i :: old(c.row) - 1 <= i < |constraints| ==> constraints[i].row == i + 2
    {
      var index := c.row - 1;
      assert constraints[index] == c;
      forall i | 0 <= i < |constraints| && i != index
        ensures constraints[i] != c
      {
        assert constraints[i].row != c.row;
      }
      lp := Some(N.DelRow(lp.value, c.row));
      ghost var removed := constraints;
      constraints := constraints[..index] + constraints[index + 1..];
      c.row := 0;
      c.parent := null;
      assert forall i :: 0 <= i < |constraints| ==>
        constraints[i] == (if i < index then removed[i] else removed[i + 1]);
    }

    /**
     * `removeRow(constraint)`: the row leaves GLPK and the list, the name is
     * released, the constraint is cleared and every later row number goes
     * down by one.
     */
    method RemoveRow(c: Constraint) returns (r: Result<()>)
      requires Valid()
      modifies this, constraints
      ensures Valid()
      ensures c !in old(constraints) ==> r == Err(Runtime) && unchanged(this) && unchanged(old(constraints))
      ensures c in old(constraints) && old(lp).None? ==>
        r == Err(Disposed()) && unchanged(this) && unchanged(old(constraints))
      ensures c in old(constraints) && old(lp).Some? ==>
        r == Ok(()) && c.parent == null && c.row == 0 &&
        constraints == old(constraints)[..old(c.row) - 1] + old(constraints)[old(c.row)..] &&
        lp == Some(N.DelRow(old(lp.value), old(c.row))) &&
        constraintNames == old(constraintNames) - NameSet(old(lp.value.rows[c.row - 1].name)) &&
        variables == old(variables) && variableNames == old(variableNames) &&
        status == old(status) && mip == old(mip)
    {
      if c !in constraints {
        return Err(Runtime);
      }
      var index := c.row - 1;
      assert constraints[index] == c;
      assert c.Valid();
      var name := c.GetName();
      if name.Err? {
        return Err(name.error);
      }
      assert name.value == lp.value.rows[index].name;
      constraintNames := constraintNames - NameSet(name.value);
      UnlinkRow(c);
      return Ok(());
    }

    /** `removeRow` once the name is released: the row detached and the later ones renumbered. */
    method UnlinkRow(c: Constraint)
      requires Valid() && lp.Some? && c in constraints
      modifies this`lp, this`constraints, constraints
      ensures Valid() && c.parent == null && c.row == 0
      ensures constraints == old(constraints)[..old(c.row) - 1] + old(constraints)[old(c.row)..]
      ensures lp == Some(N.DelRow(old(lp.value), old(c.row)))
    {
      var index := c.row - 1;
      DetachRow(c);
      ShiftRows(index);
    }
  }

  class Variable {
    var col: int
    var parent: Problem?
    /** The problem this variable was created for. */
    ghost const home: Problem

    /** A variable not yet registered: `addCol` sets `parent` and `col`. */
    constructor(home: Problem)
      ensures this.home == home && parent == null && col == 0
    {
      this.home := home;
      parent := null;
      col := 0;
    }

    ghost predicate Valid()
      reads this, home, home.variables, home.constraints
    {
      home.Valid() &&
      (parent == null ==> col == 0) &&
      (parent != null ==> parent == home && 1 <= col <= |home.variables| && home.variables[col - 1] == this)
    }

    /** `isDisposed`: no parent, or column 0. */
    function IsDisposed(): bool
      reads this
    {
      parent == null || col == 0
    }

    /** Live: part of a problem that is not disposed. */
    ghost predicate Live()
      reads this, home
    {
      !IsDisposed() && home.lp.Some?
    }

    /** The native column of a live variable. */
    function Column(): N.Col
      requires Valid() && Live()
      reads this, home, home.variables, home.constraints
    {
      parent.lp.value.cols[col - 1]
    }

    /** `checkVariable`: disposed variable, or variable of a disposed problem. */
    function CheckVariable(): (r: Result<()>)
      requires Valid()
      reads this, home, home.variables, home.constraints
      ensures r.Ok? <==> Live()
      ensures r.Err? ==> r.error == Disposed()
    {
      if IsDisposed() then Err(Disposed()) else parent.CheckProblem()
    }

    function GetLowerBound(): (r: Result<Option<real>>)
      requires Valid()
      reads this, home, home.variables, home.constraints
      ensures r.Ok? <==> Live()
      ensures r.Err? ==> r.error == Disposed()
      ensures r.Ok? ==> r.value == Lower(Column().bnds)
    {
      var c := CheckVariable();
      if c.Err? then Err(c.error) else Ok(LowerOf(N.Lb(Column().bnds)))
    }

    function GetUpperBound(): (r: Result<Option<real>>)
      requires Valid()
      reads this, home, home.variables, home.constraints
      ensures r.Ok? <==> Live()
      ensures r.Err? ==> r.error == Disposed()
      ensures r.Ok? ==> r.value == Upper(Column().bnds)
    {
      var c := CheckVariable();
      if c.Err? then Err(c.error) else Ok(UpperOf(N.Ub(Column().bnds)))
    }

    /** `getName` checks only the problem: a disposed variable has no parent to check. */
    function GetName(): (r: Result<Option<string>>)
      requires Valid()
      reads this, home, home.variables, home.constraints
      ensures parent == null ==> r == Err(NullPointer)
      ensures parent != null && home.lp.None? ==> r == Err(Disposed())
      ensures parent != null && home.lp.Some? ==> r == Ok(Column().name)
    {
      if parent == null then Err(NullPointer)
      else if parent.lp.None? then Err(Disposed())
      else Ok(Column().name)
    }

    function GetType(): (r: Result<VarType>)
      requires Valid()
      reads this, home, home.variables, home.constraints
      ensures r.Ok? <==> Live()
      ensures r.Err? ==> r.error == Disposed()
      ensures r.Ok? ==> r.value == ColTypes(home.lp.value)[col - 1]
    {
      var c := CheckVariable();
      if c.Err? then Err(c.error) else Ok(TypeOf(N.KindOf(Column())))
    }

    /** `setLowerBound(lb)`: re-reads the upper bound and stores the pair with its bound type. */
    method SetLowerBound(lb: Option<Number>) returns (r: Result<()>)
      requires Valid()
      modifies home`lp
      ensures Valid()
      ensures r.Ok? <==> old(Live())
      ensures r.Err? ==> r.error == Disposed() && unchanged(home)
      ensures r.Ok? ==> home.lp == Some(old(N.SetColBnds(home.lp.value, col,
        BoundedType(AsReal(lb), Upper(Column().bnds)), Written(AsReal(lb)), Written(Upper(Column().bnds)))))
      ensures r.Ok? ==> Upper(Column().bnds) == old(Upper(Column().bnds))
      ensures r.Ok? ==> Lower(Column().bnds) == NormalLower(AsReal(lb))
    {
      var c := CheckVariable();
      if c.Err? {
        return Err(c.error);
      }
      var ub := GetUpperBound();
      SetLowerKeepsUpper(Column().bnds, AsReal(lb));
      StoreBounds(AsReal(lb), ub.value);
      return Ok(());
    }

    /** `setUpperBound(ub)`: re-reads the lower bound and stores the pair with its bound type. */
    method SetUpperBound(ub: Option<Number>) returns (r: Result<()>)
      requires Valid()
      modifies home`lp
      ensures Valid()
      ensures r.Ok? <==> old(Live())
      ensures r.Err? ==> r.error == Disposed() && unchanged(home)
      ensures r.Ok? ==> home.lp == Some(old(N.SetColBnds(home.lp.value, col,
        BoundedType(Lower(Column().bnds), AsReal(ub)), Written(Lower(Column().bnds)), Written(AsReal(ub)))))
      ensures r.Ok? ==> Lower(Column().bnds) == old(Lower(Column().bnds))
      ensures r.Ok? ==> Upper(Column().bnds) == NormalUpper(AsReal(ub))
    {
      var c := CheckVariable();
      if c.Err? {
        return Err(c.error);
      }
      var lb := GetLowerBound();
      SetUpperKeepsLower(Column().bnds, AsReal(ub));
      StoreBounds(lb.value, AsReal(ub));
      return Ok(());
    }

    /** The `glp_set_col_bnds` call both bound setters end with; the column kind, and so the MIP flag, stay. */
    method StoreBounds(lo: Option<real>, up: Option<real>)
      requires Valid() && Live()
      modifies home`lp
      ensures Valid() && Live()
      ensures home.lp == Some(old(N.SetColBnds(home.lp.value, col, BoundedType(lo, up), Written(lo), Written(up))))
      ensures Column().bnds == Store(lo, up)
    {
      var p := N.SetColBnds(parent.lp.value, col, BoundedType(lo, up), Written(lo), Written(up));
      SameKindsSameMIP(parent.lp.value, p);
      parent.lp := Some(p);
    }

    /** `setName(name)`: at most 255 UTF-16 code units. */
    method SetName(name: Option<string>) returns (r: Result<()>)
      requires Valid()
      modifies home`lp
      ensures Valid()
      ensures !old(Live()) ==> r == Err(Disposed()) && unchanged(home)
      ensures old(Live()) && TooLong(name) ==> r == Err(IllegalArgument) && unchanged(home)
      ensures old(Live()) && !TooLong(name) ==>
        r == Ok(()) && home.lp == Some(old(N.SetColName(home.lp.value, col, name)))
    {
      var c := CheckVariable();
      if c.Err? {
        return Err(c.error);
      }
      if TooLong(name) {
        return Err(IllegalArgument);
      }
      var p := N.SetColName(parent.lp.value, col, name);
      SameKindsSameMIP(parent.lp.value, p);
      parent.lp := Some(p);
      return Ok(());
    }

    /**
     * `setType(type)`: BOOL is an integer column bounded by [0,1], INTEGER an
     * integer column, REAL a continuous one.  The cached MIP flag is dropped
     * for every type (the source drops it for REAL only; see `MipAfterSetType`).
     */
    method SetType(t: VarType) returns (r: Result<()>)
      requires Valid()
      modifies home`lp, home`mip
      ensures Valid()
      ensures r.Ok? <==> old(Live())
      ensures r.Err? ==> r.error == Disposed() && unchanged(home)
      ensures r.Ok? ==> home.lp == Some(old(home.lp.value.(cols := home.lp.value.cols[col - 1 :=
        WithType(Column(), t)]))) && home.mip == MipAfterSetType(old(home.mip), t)
      ensures r.Ok? && t != INTEGER ==> GetType() == Ok(t)
    {
      var c := CheckVariable();
      if c.Err? {
        return Err(c.error);
      }
      TypeReadsBack(Column(), t);
      var p := SetColType(parent.lp.value, col, t);
      parent.mip := MipAfterSetType(parent.mip, t);
      parent.lp := Some(p);
      return Ok(());
    }

    /** `getValue`: the MIP column value of a MIP, the primal value otherwise. */
    method GetValue() returns (r: Result<real>)
      requires Valid()
      modifies home`mip
      ensures Valid()
      ensures !old(Live()) ==> r == Err(Disposed()) && unchanged(home)
      ensures old(Live()) && home.CheckSolution().Err? ==> r == Err(home.CheckSolution().error) && unchanged(home)
      ensures old(Live()) && home.CheckSolution().Ok? ==> r == Ok(ColumnValue(home.lp.value, col))
    {
      var c := CheckVariable();
      if c.Err? {
        return Err(c.error);
      }
      c := parent.CheckSolution();
      if c.Err? {
        return Err(c.error);
      }
      var m := parent.IsMIP();
      if m.value {
        return Ok(Column().mipVal);
      }
      return Ok(Column().prim);
    }

    /** `dispose`: removes the column, unless already disposed. */
    method Dispose() returns (r: Result<()>)
      requires Valid()
      modifies home, home.variables
      ensures Valid()
      ensures old(IsDisposed()) ==> r == Ok(()) && unchanged(home) && unchanged(old(home.variables))
      ensures !old(IsDisposed()) && old(home.lp).None? ==> r == Err(Disposed()) && unchanged(home)
      ensures !old(IsDisposed()) && old(home.lp).Some? ==>
        r == Ok(()) && IsDisposed() &&
        home.variables == old(home.variables)[..old(col) - 1] + old(home.variables)[old(col)..] &&
        home.lp == Some(N.DelCol(old(home.lp.value), old(col))) && home.mip == None
    {
      if IsDisposed() {
        return Ok(());
      }
      r := parent.RemoveCol(this);
    }
  }

  /** The MIP cache after `setType` as written: only REAL drops it. */
  function MipAfterSetTypeAsWritten(mip: Option<bool>, t: VarType): Option<bool> {
    if t == REAL then None else mip
  }

  /** The MIP cache after `removeCol` as written: kept. */
  function MipAfterRemoveAsWritten(mip: Option<bool>): Option<bool> {
    mip
  }

  /**
   * As written, `setType(INTEGER)` on the only column of a problem whose
   * cached flag says "not a MIP" leaves the flag in place although the
   * problem now is one, so `getValue` would read the simplex value.
   */
  lemma SetTypeAsWrittenGoesStale()
    ensures var p := N.AddCol(N.Create());
            var q := p.(cols := p.cols[0 := WithType(p.cols[0], INTEGER)]);
            var cached := Some(LB.IsMIP(ColTypes(p)));
            cached == Some(false) && LB.IsMIP(ColTypes(q)) &&
            MipAfterSetTypeAsWritten(cached, INTEGER) != Some(LB.IsMIP(ColTypes(q)))
  {
    var p := N.AddCol(N.Create());
    var q := p.(cols := p.cols[0 := WithType(p.cols[0], INTEGER)]);
    assert ColTypes(p) == [REAL];
    assert ColTypes(q)[0] == INTEGER by {
      TypeReadsBack(p.cols[0], INTEGER);
    }
  }

  /**
   * As written, removing the only continuous column of a problem whose cached
   * flag says "not a MIP" leaves the flag in place although the remaining
   * columns are all integer.
   */
  lemma RemoveColAsWrittenGoesStale()
    ensures var p := N.Create().(cols := [N.NewCol, N.NewCol.(integer := true)]);
            var q := N.DelCol(p, 1);
            var cached := Some(LB.IsMIP(ColTypes(p)));
            cached == Some(false) && LB.IsMIP(ColTypes(q)) &&
            MipAfterRemoveAsWritten(cached) != Some(LB.IsMIP(ColTypes(q)))
  {
    var p := N.Create().(cols := [N.NewCol, N.NewCol.(integer := true)]);
    assert ColTypes(p)[0] == REAL;
    var q := N.DelCol(p, 1);
    assert q.cols == [N.NewCol.(integer := true)];
    MIPMeansAllInteger(q);
  }

  /** The MIP cache after `setType` as intended: any change of kind drops it. */
  function MipAfterSetType(mip: Option<bool>, t: VarType): (r: Option<bool>)
    ensures r == None
  {
    None
  }

  class Constraint {
    var row: int
    var parent: Problem?
    ghost const home: Problem

    /** A constraint not yet registered: `addRow` sets `parent` and `row`. */
    constructor(home: Problem)
      ensures this.home == home && parent == null && row == 0
    {
      this.home := home;
      parent := null;
      row := 0;
    }

    ghost predicate Valid()
      reads this, home, home.variables, home.constraints
    {
      home.Valid() &&
      (parent == null ==> row == 0) &&
      (parent != null ==> parent == home && 1 <= row <= |home.constraints| && home.constraints[row - 1] == this)
    }

    function IsDisposed(): bool
      reads this
    {
      parent == null || row == 0
    }

    ghost predicate Live()
      reads this, home
    {
      !IsDisposed() && home.lp.Some?
    }

    /** The native row of a live constraint. */
    function Row(): N.Row
      requires Valid() && Live()
      reads this, home, home.variables, home.constraints
    {
      parent.lp.value.rows[row - 1]
    }

    /** `checkConstraint`. */
    function CheckConstraint(): (r: Result<()>)
      requires Valid()
      reads this, home, home.variables, home.constraints
      ensures r.Ok? <==> Live()
      ensures r.Err? ==> r.error == Disposed()
    {
      if IsDisposed() then Err(Disposed()) else parent.CheckProblem()
    }

    function GetName(): (r: Result<Option<string>>)
      requires Valid()
      reads this, home, home.variables, home.constraints
      ensures r.Ok? <==> Live()
      ensures r.Err? ==> r.error == Disposed()
      ensures r.Ok? ==> r.value == Row().name
    {
      var c := CheckConstraint();
      if c.Err? then Err(c.error) else Ok(Row().name)
    }

    function GetLowerBound(): (r: Result<Option<real>>)
      requires Valid()
      reads this, home, home.variables, home.constraints
      ensures r.Ok? <==> Live()
      ensures r.Err? ==> r.error == Disposed()
      ensures r.Ok? ==> r.value == Lower(Row().bnds)
    {
      var c := CheckConstraint();
      if c.Err? then Err(c.error) else Ok(LowerOf(N.Lb(Row().bnds)))
    }

    function GetUpperBound(): (r: Result<Option<real>>)
      requires Valid()
      reads this, home, home.variables, home.constraints
      ensures r.Ok? <==> Live()
      ensures r.Err? ==> r.error == Disposed()
      ensures r.Ok? ==> r.value == Upper(Row().bnds)
    {
      var c := CheckConstraint();
      if c.Err? then Err(c.error) else Ok(UpperOf(N.Ub(Row().bnds)))
    }

    /** `isEmpty`: the row has no element. */
    function IsEmpty(): (r: Result<bool>)
      requires Valid()
      reads this, home, home.variables, home.constraints
      ensures r.Ok? <==> Live()
      ensures r.Err? ==> r.error == Disposed()
      ensures r.Ok? ==> (r.value <==> Row().elems == [])
    {
      var c := CheckConstraint();
      if c.Err? then Err(c.error) else Ok(|Row().elems| == 0)
    }

    /** `setName(name)`, called by the constructor: at most 255 UTF-16 code units. */
    method SetName(name: Option<string>) returns (r: Result<()>)
      requires Valid()
      modifies home`lp
      ensures Valid()
      ensures !old(Live()) ==> r == Err(Disposed()) && unchanged(home)
      ensures old(Live()) && TooLong(name) ==> r == Err(IllegalArgument) && unchanged(home)
      ensures old(Live()) && !TooLong(name) ==>
        r == Ok(()) && home.lp == Some(old(N.SetRowName(home.lp.value, row, name)))
      ensures r.Ok? ==> GetName() == Ok(N.StoredName(name))
    {
      var c := CheckConstraint();
      if c.Err? {
        return Err(c.error);
      }
      if TooLong(name) {
        return Err(IllegalArgument);
      }
      parent.lp := Some(N.SetRowName(parent.lp.value, row, name));
      return Ok(());
    }

    /** `setLowerBound(lb)`: re-reads the upper bound and stores the pair with its bound type. */
    method SetLowerBound(lb: Option<Number>) returns (r: Result<()>)
      requires Valid()
      modifies home`lp
      ensures Valid()
      ensures r.Ok? <==> old(Live())
      ensures r.Err? ==> r.error == Disposed() && unchanged(home)
      ensures r.Ok? ==> home.lp == Some(old(N.SetRowBnds(home.lp.value, row,
        BoundedType(AsReal(lb), Upper(Row().bnds)), Written(AsReal(lb)), Written(Upper(Row().bnds)))))
      ensures r.Ok? ==> Row().elems == old(Row().elems)
      ensures r.Ok? ==> Upper(Row().bnds) == old(Upper(Row().bnds))
      ensures r.Ok? ==> Lower(Row().bnds) == NormalLower(AsReal(lb))
    {
      var c := CheckConstraint();
      if c.Err? {
        return Err(c.error);
      }
      var ub := GetUpperBound();
      var typ := BoundedType(AsReal(lb), ub.value);
      SetLowerKeepsUpper(Row().bnds, AsReal(lb));
      parent.lp := Some(N.SetRowBnds(parent.lp.value, row, typ, Written(AsReal(lb)), Written(ub.value)));
      return Ok(());
    }

    /** `setUpperBound(ub)`: re-reads the lower bound and stores the pair with its bound type. */
    method SetUpperBound(ub: Option<Number>) returns (r: Result<()>)
      requires Valid()
      modifies home`lp
      ensures Valid()
      ensures r.Ok? <==> old(Live())
      ensures r.Err? ==> r.error == Disposed() && unchanged(home)
      ensures r.Ok? ==> home.lp == Some(old(N.SetRowBnds(home.lp.value, row,
        BoundedType(Lower(Row().bnds), AsReal(ub)), Written(Lower(Row().bnds)), Written(AsReal(ub)))))
      ensures r.Ok? ==> Row().elems == old(Row().elems)
      ensures r.Ok? ==> Lower(Row().bnds) == old(Lower(Row().bnds))
      ensures r.Ok? ==> Upper(Row().bnds) == NormalUpper(AsReal(ub))
    {
      var c := CheckConstraint();
      if c.Err? {
        return Err(c.error);
      }
      var lb := GetLowerBound();
      var typ := BoundedType(lb.value, AsReal(ub));
      SetUpperKeepsLower(Row().bnds, AsReal(ub));
      parent.lp := Some(N.SetRowBnds(parent.lp.value, row, typ, Written(lb.value), Written(AsReal(ub))));
      return Ok(());
    }

    /**
     * `setLinear(linear)`: a disposed variable in the linear is an illegal
     * argument; otherwise each term's column number and coefficient go to
     * `glp_set_mat_row`, which refuses a column it does not have or a column
     * given twice.
     */
    method SetLinear(linear: Option<seq<Term<Variable>>>) returns (r: Result<()>)
      requires Valid()
      modifies home`lp
      ensures Valid()
      ensures !old(Live()) ==> r == Err(Disposed()) && unchanged(home)
      ensures old(Live()) && LB.CheckLinear(linear, DisposedIn(LinearTerms(linear))).Err? ==>
        r == Err(IllegalArgument) && unchanged(home)
      ensures old(Live()) && LB.CheckLinear(linear, DisposedIn(LinearTerms(linear))).Ok? &&
              !N.MatRowAccepted(ElemsOf(LinearTerms(linear)), |home.variables|) ==>
        r == Err(Native) && unchanged(home)
      ensures old(Live()) && LB.CheckLinear(linear, DisposedIn(LinearTerms(linear))).Ok? &&
              N.MatRowAccepted(ElemsOf(LinearTerms(linear)), |home.variables|) ==>
        r == Ok(()) && home.lp == Some(old(N.SetMatRow(home.lp.value, row, ElemsOf(LinearTerms(linear))).value))
      ensures r.Ok? ==> Row().elems == N.NonZero(ElemsOf(LinearTerms(linear)))
      ensures r.Ok? ==> Row().bnds == old(Row().bnds) && Row().name == old(Row().name)
    {
      var c := CheckConstraint();
      if c.Err? {
        return Err(c.error);
      }
      c := LB.CheckLinear(linear, DisposedIn(LinearTerms(linear)));
      if c.Err? {
        return Err(c.error);
      }
      r := StoreRow(LinearTerms(linear));
    }

    /** The native part of `setLinear`: the terms' elements go to `glp_set_mat_row`. */
    method StoreRow(ts: seq<Term<Variable>>) returns (r: Result<()>)
      requires Valid() && Live()
      modifies home`lp
      ensures Valid()
      ensures !N.MatRowAccepted(old(ElemsOf(ts)), |home.variables|) ==> r == Err(Native) && unchanged(home)
      ensures N.MatRowAccepted(old(ElemsOf(ts)), |home.variables|) ==>
        r == Ok(()) && home.lp == Some(old(N.SetMatRow(home.lp.value, row, ElemsOf(ts)).value))
      ensures r.Ok? ==> Row().elems == N.NonZero(ElemsOf(ts)) && Row().bnds == old(Row().bnds)
      ensures r.Ok? ==> Row().name == old(Row().name)
    {
      var es := BuildElems(ts);
      var set_ := N.SetMatRow(parent.lp.value, row, es);
      if set_.Err? {
        return Err(set_.error);
      }
      SameKindsSameMIP(parent.lp.value, set_.value);
      parent.lp := Some(set_.value);
      return Ok(());
    }

    /**
     * `getLinear`: a fresh empty linear for an empty row, else one term per
     * element, its variable found by column number.
     */
    method GetLinear() returns (r: Result<ConcreteLinear<Variable>>)
      requires Valid()
      ensures !Live() ==> r == Err(Disposed())
      ensures Live() ==> r.Ok? && fresh(r.value) && r.value.Valid()
      ensures Live() && Row().elems == [] ==> r.value.terms == None
      ensures Live() && Row().elems != [] ==> r.value.terms == Some(RowTerms(Row().elems, home.variables))
    {
      var c := CheckConstraint();
      if c.Err? {
        return Err(c.error);
      }
      var es := parent.lp.value.rows[row - 1].elems;
      assert N.RowWf(es, |home.variables|);
      var linear := new ConcreteLinear<Variable>();
      if |es| == 0 {
        return Ok(linear);
      }
      FillLinear(parent, es, linear);
      return Ok(linear);
    }

    /** `getValue`: the MIP row value of a MIP, the primal value otherwise. */
    method GetValue() returns (r: Result<real>)
      requires Valid()
      modifies home`mip
      ensures Valid()
      ensures !old(Live()) ==> r == Err(Disposed()) && unchanged(home)
      ensures old(Live()) && home.CheckSolution().Err? ==> r == Err(home.CheckSolution().error) && unchanged(home)
      ensures old(Live()) && home.CheckSolution().Ok? ==> r == Ok(RowValue(home.lp.value, row))
    {
      var c := CheckConstraint();
      if c.Err? {
        return Err(c.error);
      }
      c := parent.CheckSolution();
      if c.Err? {
        return Err(c.error);
      }
      var m := parent.IsMIP();
      if m.value {
        return Ok(Row().mipVal);
      }
      return Ok(Row().prim);
    }

    /** `dispose`: removes the row, unless already disposed. */
    method Dispose() returns (r: Result<()>)
      requires Valid()
      modifies home, home.constraints
      ensures Valid()
      ensures old(IsDisposed()) ==> r == Ok(()) && unchanged(home) && unchanged(old(home.constraints))
      ensures !old(IsDisposed()) && old(home.lp).None? ==> r == Err(Disposed()) && unchanged(home)
      ensures !old(IsDisposed()) && old(home.lp).Some? ==>
        r == Ok(()) && IsDisposed() &&
        home.constraints == old(home.constraints)[..old(row) - 1] + old(home.constraints)[old(row)..] &&
        home.lp == Some(N.DelRow(old(home.lp.value), old(row)))
    {
      if IsDisposed() {
        return Ok(());
      }
      r := parent.RemoveRow(this);
    }
  }
}
