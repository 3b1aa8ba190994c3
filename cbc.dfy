/**
 * The CBC backend: `CbcLinearProblem`, `CbcVariable` and `CbcConstraint`.
 * The problem keeps its variables and constraints in lists whose positions
 * are the zero-based native column and row numbers, a name set per kind, the
 * status, and the solver's cached best solution, one value per column.
 * Constraint setters invalidate the status; variable setters do not.
 */
module Cbc {
  import opened Wrappers
  import opened Numbers
  import opened Types
  import opened ILPErrors
  import opened Terms
  import opened LinearExpr
  import LB = LinearBuilders
  import N = CbcNative
  import opened Sentinels

  /** The variables of `ts` that report `isDisposed()`. */
  function DisposedIn(ts: seq<Term<Variable>>): set<Variable>
    reads set k | 0 <= k < |ts| :: ts[k].variable
  {
    set k | 0 <= k < |ts| && ts[k].variable.IsDisposed() :: ts[k].variable
  }

  /** The parallel arrays the wrapper fills from a linear: each term's column and coefficient. */
  function ElemsOf(ts: seq<Term<Variable>>): (es: seq<N.Elem>)
    reads set k | 0 <= k < |ts| :: ts[k].variable
    ensures |es| == |ts|
    ensures forall k :: 0 <= k < |ts| ==> es[k] == N.Elem(ts[k].variable.col, ts[k].coefficient)
  {
    seq(|ts|, k requires 0 <= k < |ts| reads set i | 0 <= i < |ts| :: ts[i].variable =>
      N.Elem(ts[k].variable.col, ts[k].coefficient))
  }

  /** The loop that fills the column and coefficient arrays from a linear. */
  method Columns(ts: seq<Term<Variable>>) returns (es: seq<N.Elem>)
    ensures es == ElemsOf(ts)
  {
    es := [];
    var i := 0;
    while i < |ts|
      invariant 0 <= i <= |ts| && |es| == i
      invariant forall k :: 0 <= k < i ==> es[k] == N.Elem(ts[k].variable.col, ts[k].coefficient)
    {
      es := es + [N.Elem(ts[i].variable.col, ts[i].coefficient)];
      i := i + 1;
    }
  }

  /** The column `addCol` creates: named, free, continuous. */
  function FreshCol(name: string, inf: real): N.Col {
    N.Col(name, -inf, inf, false, 0.0)
  }

  /** A column after `setType(t)`. */
  function Typed(c: N.Col, t: VarType): N.Col {
    match t
    case BOOL => c.(integer := true, lower := 0.0, upper := 1.0)
    case INTEGER => c.(integer := true)
    case REAL => c.(integer := false)
  }

  /** The type `getType` reports for a column: binary, else integer, else continuous. */
  function TypeOf(c: N.Col): VarType {
    if N.IsBinary(c) then BOOL else if c.integer then INTEGER else REAL
  }

  /** `setType(t)` reads back as `t`, except that an integer column bounded within {0,1} reads as BOOL. */
  lemma TypedReadsBack(c: N.Col, t: VarType)
    ensures t != INTEGER ==> TypeOf(Typed(c, t)) == t
    ensures t == INTEGER ==> TypeOf(Typed(c, t)) == (if N.IsBinary(c.(integer := true)) then BOOL else INTEGER)
  {
  }

  /** A fresh column typed by `addVariable` reads back as the requested type. */
  lemma NewVariableType(name: string, t: VarType)
    ensures TypeOf(Typed(FreshCol(name, N.COIN_DBL_MAX), t)) == t
  {
    TypedReadsBack(FreshCol(name, N.COIN_DBL_MAX), t);
  }

  /** The value cached for column `j`, if the cached array is that long. */
  function ValueAt(bs: seq<real>, j: int): Option<real> {
    if 0 <= j < |bs| then Some(bs[j]) else None
  }

  /**
   * `removeCol`'s adjustment of `bestSolution` as written: only an array of
   * length > 1 is rebuilt, by copying `[0, index)` and then
   * `[index + 1, length)`.  The first copy throws when `index` lies past the
   * new array, that is when the removed column has no cached value.
   */
  function CompactAsWritten(bs: seq<real>, index: nat): (r: Result<seq<real>>)
    ensures |bs| <= 1 ==> r == Ok(bs)
    ensures |bs| > 1 && index < |bs| ==> r == Ok(bs[..index] + bs[index + 1..])
    ensures |bs| > 1 && index >= |bs| ==> r == Err(IndexOutOfBounds)
  {
    if |bs| <= 1 then Ok(bs)
    else if index > |bs| - 1 then Err(IndexOutOfBounds)
    else Ok(bs[..index] + bs[index + 1..])
  }

  /**
   * The intended adjustment: the removed column's value, if it has one, is
   * dropped, so every other column keeps reading its own value.
   */
  function Compact(bs: seq<real>, index: nat): (r: seq<real>)
    ensures index < |bs| ==> |r| == |bs| - 1
    ensures index >= |bs| ==> r == bs
  {
    if index < |bs| then bs[..index] + bs[index + 1..] else bs
  }

  /** After `Compact`, the column now at `j` reads what it read before the removal. */
  lemma CompactKeepsValues(bs: seq<real>, index: nat, j: nat)
    ensures ValueAt(Compact(bs, index), j) == ValueAt(bs, if j < index then j else j + 1)
  {
  }

  /**
   * As written, removing the only variable of a solved problem leaves a
   * one-value array behind, so the next variable added reads that value.
   */
  lemma CompactAsWrittenKeepsStaleValue()
    ensures CompactAsWritten([5.0], 0) == Ok([5.0])
    ensures ValueAt(CompactAsWritten([5.0], 0).value, 0) == Some(5.0) != ValueAt([5.0], 1)
  {
  }

  /**
   * As written, removing a variable added after the solve (so past the end
   * of a two-value array) throws, once the column, the list entry and the
   * name are already gone and before later variables are renumbered.
   */
  lemma CompactAsWrittenThrowsPastEnd()
    ensures CompactAsWritten([1.0, 2.0], 2) == Err(IndexOutOfBounds)
    ensures Compact([1.0, 2.0], 2) == [1.0, 2.0]
  {
  }

  /** `addCol`'s native effect: a free continuous column, then its name. */
  function AppendCol(lp: N.Lp, name: string, inf: real): (q: N.Lp)
    requires N.Wf(lp)
    ensures N.Wf(q) && q.cols == lp.cols + [FreshCol(name, inf)] && q.sense == lp.sense
    ensures |q.rows| == |lp.rows|
  {
    N.WithCol(N.AddCol(lp, -inf, inf), |lp.cols|, FreshCol(name, inf))
  }

  /**
   * With every variable at its own column, a linear over some of them turns
   * into in-range column numbers, one per variable, distinct when the
   * variables are.
   */
  lemma ElemsOfColumns(ts: seq<Term<Variable>>, vars: seq<Variable>)
    requires forall j :: 0 <= j < |vars| ==> vars[j].col == j
    requires forall k :: 0 <= k < |ts| ==> ts[k].variable in vars
    requires forall a, b :: 0 <= a < b < |ts| ==> ts[a].variable != ts[b].variable
    ensures N.InRange(ElemsOf(ts), |vars|)
    ensures forall k :: 0 <= k < |ts| ==> vars[ElemsOf(ts)[k].col] == ts[k].variable
    ensures forall a, b :: 0 <= a < b < |ts| ==> ElemsOf(ts)[a].col != ElemsOf(ts)[b].col
  {
    var es := ElemsOf(ts);
    forall k | 0 <= k < |ts|
      ensures 0 <= es[k].col < |vars| && vars[es[k].col] == ts[k].variable
    {
      var j :| 0 <= j < |vars| && vars[j] == ts[k].variable;
    }
  }

  /** A non-zero term of the linear is read back from its column. */
  lemma WrittenTermReadBack(ts: seq<Term<Variable>>, vars: seq<Variable>, k: int)
    requires forall j :: 0 <= j < |vars| ==> vars[j].col == j
    requires forall k :: 0 <= k < |ts| ==> ts[k].variable in vars
    requires forall a, b :: 0 <= a < b < |ts| ==> ts[a].variable != ts[b].variable
    requires 0 <= k < |ts| && ts[k].coefficient != 0.0
    ensures N.InRange(ElemsOf(ts), |vars|)
    ensures ts[k] in LB.CoefTerms(N.Written(N.Zeros(|vars|), ElemsOf(ts)), vars, |vars|)
  {
    ElemsOfColumns(ts, vars);
    var es := ElemsOf(ts);
    var w := N.Written(N.Zeros(|vars|), es);
    N.WrittenSpec(N.Zeros(|vars|), es);
    N.LastWriteDistinct(es, k);
    LB.CoefTermsElems(w, vars, |vars|, ts[k]);
  }

  /** A term read back from a column is a non-zero term of the linear. */
  lemma ReadBackTermWritten(ts: seq<Term<Variable>>, vars: seq<Variable>, j: int)
    requires forall j :: 0 <= j < |vars| ==> vars[j].col == j
    requires forall k :: 0 <= k < |ts| ==> ts[k].variable in vars
    requires forall a, b :: 0 <= a < b < |ts| ==> ts[a].variable != ts[b].variable
    requires N.InRange(ElemsOf(ts), |vars|)
    requires 0 <= j < |vars| && N.Written(N.Zeros(|vars|), ElemsOf(ts))[j] != 0.0
    ensures Term(N.Written(N.Zeros(|vars|), ElemsOf(ts))[j], vars[j]) in ts
  {
    ElemsOfColumns(ts, vars);
    var es := ElemsOf(ts);
    N.WrittenSpec(N.Zeros(|vars|), es);
    assert N.LastWrite(es, j).Some?;
    var k :| 0 <= k < |es| && es[k].col == j;
    N.LastWriteDistinct(es, k);
    assert ts[k] == Term(N.Written(N.Zeros(|vars|), es)[j], vars[j]);
  }

  /**
   * Reading a written row back: for a row that starts at zero and a linear
   * over distinct variables sitting at their columns, the rebuilt terms are
   * exactly the linear's terms with a non-zero coefficient.
   */
  lemma LinearRoundTrip(ts: seq<Term<Variable>>, vars: seq<Variable>, t: Term<Variable>)
    requires forall j :: 0 <= j < |vars| ==> vars[j].col == j
    requires forall k :: 0 <= k < |ts| ==> ts[k].variable in vars
    requires forall a, b :: 0 <= a < b < |ts| ==> ts[a].variable != ts[b].variable
    ensures N.InRange(ElemsOf(ts), |vars|)
    ensures t in LB.CoefTerms(N.Written(N.Zeros(|vars|), ElemsOf(ts)), vars, |vars|) <==>
      t in ts && t.coefficient != 0.0
  {
    ElemsOfColumns(ts, vars);
    var w := N.Written(N.Zeros(|vars|), ElemsOf(ts));
    LB.CoefTermsElems(w, vars, |vars|, t);
    if t in ts && t.coefficient != 0.0 {
      var k :| 0 <= k < |ts| && ts[k] == t;
      WrittenTermReadBack(ts, vars, k);
    }
    if t in LB.CoefTerms(w, vars, |vars|) {
      var j :| 0 <= j < |vars| && w[j] != 0.0 && t == Term(w[j], vars[j]);
      ReadBackTermWritten(ts, vars, j);
    }
  }

  /**
   * As written, `setObjectiveLinear` writes over the old objective: a column
   * the new linear does not mention keeps its coefficient, so the objective
   * read back holds a term the linear does not.  A null or empty linear
   * therefore removes nothing.
   */
  lemma ObjectiveAsWrittenKeepsUnlisted(lp: N.Lp, ts: seq<Term<Variable>>, vars: seq<Variable>, j: int)
    requires N.Wf(lp) && |lp.cols| == |vars|
    requires forall i :: 0 <= i < |vars| ==> vars[i].col == i
    requires forall k :: 0 <= k < |ts| ==> ts[k].variable in vars
    requires forall a, b :: 0 <= a < b < |ts| ==> ts[a].variable != ts[b].variable
    requires 0 <= j < |vars| && lp.cols[j].obj != 0.0
    requires forall k :: 0 <= k < |ts| ==> ts[k].variable != vars[j]
    ensures N.SetObjCoefficients(lp, ElemsOf(ts)).Ok?
    ensures Term(lp.cols[j].obj, vars[j]) !in ts
    ensures Term(lp.cols[j].obj, vars[j]) in
      LB.CoefTerms(N.ObjCoefficients(N.SetObjCoefficients(lp, ElemsOf(ts)).value), vars, |vars|)
  {
    ElemsOfColumns(ts, vars);
    var es := ElemsOf(ts);
    N.WrittenSpec(N.ObjCoefficients(lp), es);
    UnlistedColumn(ts, vars, j);
    var w := N.ObjCoefficients(N.SetObjCoefficients(lp, es).value);
    assert w[j] == lp.cols[j].obj;
    LB.CoefTermsElems(w, vars, |vars|, Term(lp.cols[j].obj, vars[j]));
  }

  /**
   * As written, `setLinear` writes over the old row in the same way: a
   * column the new linear does not mention keeps its coefficient, and a
   * null linear leaves the row as it was.
   */
  lemma RowAsWrittenKeepsUnlisted(lp: N.Lp, i: int, ts: seq<Term<Variable>>, vars: seq<Variable>, j: int)
    requires N.Wf(lp) && |lp.cols| == |vars| && 0 <= i < |lp.rows|
    requires forall i :: 0 <= i < |vars| ==> vars[i].col == i
    requires forall k :: 0 <= k < |ts| ==> ts[k].variable in vars
    requires forall a, b :: 0 <= a < b < |ts| ==> ts[a].variable != ts[b].variable
    requires 0 <= j < |vars| && lp.rows[i].coefs[j] != 0.0
    requires forall k :: 0 <= k < |ts| ==> ts[k].variable != vars[j]
    ensures N.SetCoefficients(lp, i, ElemsOf(ts)).Ok?
    ensures Term(lp.rows[i].coefs[j], vars[j]) !in ts
    ensures Term(lp.rows[i].coefs[j], vars[j]) in
      LB.CoefTerms(N.SetCoefficients(lp, i, ElemsOf(ts)).value.rows[i].coefs, vars, |vars|)
  {
    ElemsOfColumns(ts, vars);
    var es := ElemsOf(ts);
    N.WrittenSpec(lp.rows[i].coefs, es);
    UnlistedColumn(ts, vars, j);
    var w := N.SetCoefficients(lp, i, es).value.rows[i].coefs;
    assert w[j] == lp.rows[i].coefs[j];
    LB.CoefTermsElems(w, vars, |vars|, Term(lp.rows[i].coefs[j], vars[j]));
  }

  /** No entry of a linear that does not mention `vars[j]` writes column `j`. */
  lemma UnlistedColumn(ts: seq<Term<Variable>>, vars: seq<Variable>, j: int)
    requires forall i :: 0 <= i < |vars| ==> vars[i].col == i
    requires forall k :: 0 <= k < |ts| ==> ts[k].variable in vars
    requires 0 <= j < |vars|
    requires forall k :: 0 <= k < |ts| ==> ts[k].variable != vars[j]
    ensures N.LastWrite(ElemsOf(ts), j).None?
  {
    var es := ElemsOf(ts);
    forall k | 0 <= k < |es|
      ensures es[k].col != j
    {
      var m :| 0 <= m < |vars| && vars[m] == ts[k].variable;
    }
  }

  /** The objective with every coefficient cleared, as the GLPK and OR-Tools backends start. */
  function ClearedObjective(lp: N.Lp): (q: N.Lp)
    requires N.Wf(lp)
    ensures N.Wf(q) && q.rows == lp.rows && q.sense == lp.sense && |q.cols| == |lp.cols|
    ensures N.ObjCoefficients(q) == N.Zeros(|lp.cols|)
  {
    var q := lp.(cols := seq(|lp.cols|, j requires 0 <= j < |lp.cols| => lp.cols[j].(obj := 0.0)));
    assert N.ObjCoefficients(q) == N.Zeros(|lp.cols|);
    q
  }

  /**
   * The intended `setObjectiveLinear`: the objective cleared, then the
   * linear's coefficients written, so that a null or empty linear removes
   * the objective.
   */
  function ReplaceObjective(lp: N.Lp, es: seq<N.Elem>): (r: Result<N.Lp>)
    requires N.Wf(lp)
    ensures r.Ok? <==> N.InRange(es, |lp.cols|)
    ensures r.Ok? ==> N.Wf(r.value) && r.value.rows == lp.rows && r.value.sense == lp.sense
  {
    N.SetObjCoefficients(ClearedObjective(lp), es)
  }

  /** The row with every coefficient cleared. */
  function ClearedRow(lp: N.Lp, i: int): (q: N.Lp)
    requires N.Wf(lp) && 0 <= i < |lp.rows|
    ensures N.Wf(q) && q.cols == lp.cols && q.sense == lp.sense
    ensures q.rows == lp.rows[i := lp.rows[i].(coefs := N.Zeros(|lp.cols|))]
  {
    lp.(rows := lp.rows[i := lp.rows[i].(coefs := N.Zeros(|lp.cols|))])
  }

  /**
   * The intended `setLinear`: the row cleared, then the linear's
   * coefficients written, so that a null linear resets the row.
   */
  function ReplaceRow(lp: N.Lp, i: int, es: seq<N.Elem>): (r: Result<N.Lp>)
    requires N.Wf(lp) && 0 <= i < |lp.rows|
    ensures r.Ok? <==> N.InRange(es, |lp.cols|)
    ensures r.Ok? ==> N.Wf(r.value) && r.value.cols == lp.cols && r.value.sense == lp.sense
    ensures r.Ok? ==> (|r.value.rows| == |lp.rows| &&
      forall k :: 0 <= k < |lp.rows| && k != i ==> r.value.rows[k] == lp.rows[k])
    ensures r.Ok? ==> (r.value.rows[i].name == lp.rows[i].name &&
      r.value.rows[i].lower == lp.rows[i].lower && r.value.rows[i].upper == lp.rows[i].upper)
  {
    N.SetCoefficients(ClearedRow(lp, i), i, es)
  }

  /** With the intended rule, whatever the old objective, exactly the linear's non-zero terms are read back. */
  lemma ReplacedObjectiveRoundTrip(lp: N.Lp, ts: seq<Term<Variable>>, vars: seq<Variable>, t: Term<Variable>)
    requires N.Wf(lp) && |lp.cols| == |vars|
    requires forall j :: 0 <= j < |vars| ==> vars[j].col == j
    requires forall k :: 0 <= k < |ts| ==> ts[k].variable in vars
    requires forall a, b :: 0 <= a < b < |ts| ==> ts[a].variable != ts[b].variable
    ensures ReplaceObjective(lp, ElemsOf(ts)).Ok?
    ensures t in LB.CoefTerms(N.ObjCoefficients(ReplaceObjective(lp, ElemsOf(ts)).value), vars, |vars|) <==>
      t in ts && t.coefficient != 0.0
  {
    LinearRoundTrip(ts, vars, t);
  }

  /** With the intended rule, whatever the old row, exactly the linear's non-zero terms are read back. */
  lemma ReplacedRowRoundTrip(lp: N.Lp, i: int, ts: seq<Term<Variable>>, vars: seq<Variable>, t: Term<Variable>)
    requires N.Wf(lp) && |lp.cols| == |vars| && 0 <= i < |lp.rows|
    requires forall j :: 0 <= j < |vars| ==> vars[j].col == j
    requires forall k :: 0 <= k < |ts| ==> ts[k].variable in vars
    requires forall a, b :: 0 <= a < b < |ts| ==> ts[a].variable != ts[b].variable
    ensures ReplaceRow(lp, i, ElemsOf(ts)).Ok?
    ensures t in LB.CoefTerms(ReplaceRow(lp, i, ElemsOf(ts)).value.rows[i].coefs, vars, |vars|) <==>
      t in ts && t.coefficient != 0.0
  {
    LinearRoundTrip(ts, vars, t);
  }

  class Problem {
    /** The native problem; `None` once disposed. */
    var lp: Option<N.Lp>
    var variables: seq<Variable>
    /** The Java list of variables is null until the first `addCol` creates it. */
    var hasVariableList: bool
    var constraints: seq<Constraint>
    var variableNames: set<string>
    var constraintNames: set<string>
    /** Assigned by the solver and reset by constraint setters. */
    var status: Option<Status>
    /** The solver's best solution, one value per column at the time of the solve. */
    var bestSolution: Option<seq<real>>
    var objValue: Option<real>
    var name: Option<string>
    /** `getInfinity` of the native problem, read once. */
    const infinity: real

    ghost predicate Valid()
      reads this, variables, constraints
    {
      infinity == N.COIN_DBL_MAX &&
      (!hasVariableList ==> variables == []) &&
      (forall i :: 0 <= i < |variables| ==>
         variables[i].parent == this && variables[i].home == this && variables[i].col == i) &&
      (forall i :: 0 <= i < |constraints| ==>
         constraints[i].parent == this && constraints[i].home == this && constraints[i].row == i) &&
      (lp.Some? ==> N.Wf(lp.value) && |lp.value.cols| == |variables| && |lp.value.rows| == |constraints|)
    }

    /** `new CbcLinearProblem()`. */
    constructor()
      ensures Valid()
      ensures lp == Some(N.Create()) && variables == [] && !hasVariableList && constraints == []
      ensures variableNames == {} && constraintNames == {} && status == Some(UNKNOWN)
      ensures bestSolution == None && objValue == None && name == None
    {
      lp := Some(N.Create());
      infinity := N.COIN_DBL_MAX;
      variables := [];
      hasVariableList := false;
      constraints := [];
      variableNames := {};
      constraintNames := {};
      status := Some(UNKNOWN);
      bestSolution := None;
      objValue := None;
      name := None;
    }

    /** `isDisposed`: the native problem is gone. */
    function IsDisposed(): bool
      reads this
    {
      lp.None?
    }

    /** `checkProblem`. */
    function CheckProblem(): (r: Result<()>)
      reads this
      ensures r.Err? <==> IsDisposed()
      ensures r.Err? ==> r.error == Disposed()
    {
      if lp.None? then Err(Disposed()) else Ok(())
    }

    /** `checkVariableName`: a null name or one already handed out is a duplicate-name error. */
    function CheckVariableName(name: Option<string>): (r: Result<()>)
      reads this
      ensures r.Err? <==> name.None? || name.value in variableNames
      ensures r.Err? ==> r.error.ILP? && r.error.code == ERROR_DUPLICATE_NAME
    {
      if name.None? then Err(WithCodeAndMessage(ERROR_DUPLICATE_NAME, "Undefined variable name."))
      else if name.value in variableNames
      then Err(WithCodeAndMessage(ERROR_DUPLICATE_NAME, "Duplicate variable name: " + name.value))
      else Ok(())
    }

    /** `checkConstraintName`. */
    function CheckConstraintName(name: Option<string>): (r: Result<()>)
      reads this
      ensures r.Err? <==> name.None? || name.value in constraintNames
      ensures r.Err? ==> r.error.ILP? && r.error.code == ERROR_DUPLICATE_NAME
    {
      if name.None? then Err(WithCodeAndMessage(ERROR_DUPLICATE_NAME, "Undefined constraint name."))
      else if name.value in constraintNames
      then Err(WithCodeAndMessage(ERROR_DUPLICATE_NAME, "Duplicate constraint name: " + name.value))
      else Ok(())
    }

    /**
     * `checkSolution`: a FEASIBLE or OPTIMAL status and a cached solution.
     * The `switch` on a null status throws before any test.
     */
    function CheckSolution(): (r: Result<()>)
      reads this
      ensures status.None? ==> r == Err(NullPointer)
      ensures r.Ok? <==> status.Some? && SolutionAvailable(status.value) && bestSolution.Some?
      ensures status.Some? && r.Err? ==> r.error == WithMessage("solution not available")
    {
      if status.None? then Err(NullPointer)
      else if !SolutionAvailable(status.value) then Err(WithMessage("solution not available"))
      else if bestSolution.None? then Err(WithMessage("solution not available"))
      else Ok(())
    }

    /** `getStatus`: a null status reads as UNKNOWN. */
    function GetStatus(): (r: Result<Status>)
      reads this
      ensures r.Err? <==> IsDisposed()
      ensures r.Err? ==> r.error == Disposed()
      ensures r.Ok? ==> r.value == (if status.None? then UNKNOWN else status.value)
    {
      if lp.None? then Err(Disposed())
      else if status.None? then Ok(UNKNOWN)
      else Ok(status.value)
    }

    /**
     * `getCol(col)`: the variable at a zero-based column, checked against its
     * own number; before the first `addCol` the list is null.
     */
    function GetCol(col: int): (r: Result<Variable>)
      reads this, variables, constraints
      ensures !hasVariableList ==> r == Err(NullPointer)
      ensures hasVariableList && !(0 <= col < |variables|) ==> r == Err(IndexOutOfBounds)
      ensures hasVariableList && 0 <= col < |variables| && variables[col].col == col ==> r == Ok(variables[col])
      ensures hasVariableList && 0 <= col < |variables| && variables[col].col != col ==>
        r == Err(WithMessage("Variables list corrupted"))
      ensures Valid() && 0 <= col < |variables| ==> r == Ok(variables[col])
    {
      if !hasVariableList then Err(NullPointer)
      else if !(0 <= col < |variables|) then Err(IndexOutOfBounds)
      else if variables[col].col != col then Err(WithMessage("Variables list corrupted"))
      else Ok(variables[col])
    }

    /** `dispose`: the native problem and the cached solution are dropped. */
    method Dispose()
      requires Valid()
      modifies this`lp, this`bestSolution
      ensures Valid() && IsDisposed() && bestSolution == None
    {
      lp := None;
      bestSolution := None;
    }

    function GetName(): (r: Result<Option<string>>)
      reads this
      ensures r.Err? <==> IsDisposed()
      ensures r.Ok? ==> r.value == name
    {
      if lp.None? then Err(Disposed()) else Ok(name)
    }

    method SetName(name: Option<string>) returns (r: Result<()>)
      requires Valid()
      modifies this`name
      ensures Valid()
      ensures r.Err? <==> IsDisposed()
      ensures r.Err? ==> r.error == Disposed() && this.name == old(this.name)
      ensures r.Ok? ==> GetName() == Ok(name)
    {
      var c := CheckProblem();
      if c.Err? {
        return Err(c.error);
      }
      this.name := name;
      return Ok(());
    }

    /** `getObjectiveDirection`: a positive sense minimises, anything else maximises. */
    function GetObjectiveDirection(): (r: Result<int>)
      reads this
      ensures r.Err? <==> IsDisposed()
      ensures r.Ok? ==> (r.value == MINIMIZE <==> lp.value.sense > 0.0)
      ensures r.Ok? ==> (r.value == MAXIMIZE <==> lp.value.sense <= 0.0)
    {
      if lp.None? then Err(Disposed())
      else if lp.value.sense > 0.0 then Ok(MINIMIZE)
      else Ok(MAXIMIZE)
    }

    /** `setObjectiveDirection`: MAXIMIZE sets the sense to -1, MINIMIZE to 1, anything else is illegal. */
    method SetObjectiveDirection(direction: int) returns (r: Result<()>)
      requires Valid()
      modifies this`lp
      ensures Valid()
      ensures old(lp).None? ==> r == Err(Disposed()) && lp == old(lp)
      ensures old(lp).Some? && direction != MAXIMIZE && direction != MINIMIZE ==>
        r == Err(IllegalArgument) && lp == old(lp)
      ensures old(lp).Some? && (direction == MAXIMIZE || direction == MINIMIZE) ==>
        r == Ok(()) && lp == Some(old(lp.value).(sense := if direction == MAXIMIZE then -1.0 else 1.0))
      ensures r.Ok? ==> GetObjectiveDirection() == Ok(direction)
    {
      var c := CheckProblem();
      if c.Err? {
        return Err(c.error);
      }
      if direction == MAXIMIZE {
        lp := Some(lp.value.(sense := -1.0));
      } else if direction == MINIMIZE {
        lp := Some(lp.value.(sense := 1.0));
      } else {
        return Err(IllegalArgument);
      }
      return Ok(());
    }

    /** `getObjectiveValue`: the cached objective value once a solution is available. */
    function GetObjectiveValue(): (r: Result<Option<real>>)
      reads this
      ensures IsDisposed() ==> r == Err(Disposed())
      ensures !IsDisposed() && CheckSolution().Err? ==> r == Err(CheckSolution().error)
      ensures !IsDisposed() && CheckSolution().Ok? ==> r == Ok(objValue)
    {
      var c := CheckProblem();
      if c.Err? then Err(c.error)
      else
        var s := CheckSolution();
        if s.Err? then Err(s.error) else Ok(objValue)
    }

    /**
     * `getObjectiveLinear`: one term per non-zero objective coefficient in
     * column order, or null when there is none.
     */
    method GetObjectiveLinear() returns (r: Result<Option<ConcreteLinear<Variable>>>)
      requires Valid()
      ensures IsDisposed() ==> r == Err(Disposed())
      ensures !IsDisposed() && LB.CoefTerms(N.ObjCoefficients(lp.value), variables, |variables|) == [] ==>
        r == Ok(None)
      ensures !IsDisposed() && LB.CoefTerms(N.ObjCoefficients(lp.value), variables, |variables|) != [] ==>
        r.Ok? && r.value.Some? && fresh(r.value.value) && r.value.value.Valid() &&
        r.value.value.terms == Some(LB.CoefTerms(N.ObjCoefficients(lp.value), variables, |variables|))
    {
      var c := CheckProblem();
      if c.Err? {
        return Err(c.error);
      }
      var linear := new ConcreteLinear<Variable>();
      FillTerms(N.ObjCoefficients(lp.value), linear);
      var size := linear.Size();
      if size == 0 {
        return Ok(None);
      }
      return Ok(Some(linear));
    }

    /** The loop shared by `getObjectiveLinear` and `getLinear`: one term per non-zero coefficient. */
    method FillTerms(coefs: seq<real>, linear: ConcreteLinear<Variable>)
      requires forall k :: 0 <= k < |variables| ==> variables[k].col == k
      requires variables != [] ==> hasVariableList
      requires |coefs| == |variables|
      requires linear.Valid() && linear.terms == None
      modifies linear
      ensures linear.Valid() && linear.Elements() == LB.CoefTerms(coefs, variables, |variables|)
      ensures linear.terms.Some? <==> linear.Elements() != []
    {
      for col := 0 to |coefs|
        invariant linear.Valid()
        invariant linear.Elements() == LB.CoefTerms(coefs, variables, col)
        invariant linear.terms.Some? <==> linear.Elements() != []
      {
        FillStep(coefs, col, linear);
      }
    }

    /** One turn of `FillTerms`: the term of column `col`, if its coefficient is not 0. */
    method FillStep(coefs: seq<real>, col: int, linear: ConcreteLinear<Variable>)
      requires forall k :: 0 <= k < |variables| ==> variables[k].col == k
      requires variables != [] ==> hasVariableList
      requires |coefs| == |variables| && 0 <= col < |coefs|
      requires linear.Valid() && linear.Elements() == LB.CoefTerms(coefs, variables, col)
      requires linear.terms.Some? <==> linear.Elements() != []
      modifies linear
      ensures linear.Valid() && linear.Elements() == LB.CoefTerms(coefs, variables, col + 1)
      ensures linear.terms.Some? <==> linear.Elements() != []
    {
      var coef := coefs[col];
      if coef != 0.0 {
        var v := GetCol(col);
        ghost var before := linear.Elements();
        assert Term(coef, v.value) !in before by {
          assert v.value !in variables[..col];
        }
        linear.Add(Term(coef, v.value));
      }
    }

    /**
     * `setObjectiveLinear`: a disposed variable is an illegal argument;
     * otherwise each term's coefficient is written at its column, leaving
     * the other columns' coefficients as they were.
     */
    method SetObjectiveLinear(objective: Option<seq<Term<Variable>>>) returns (r: Result<()>)
      requires Valid()
      modifies this`lp
      ensures Valid()
      ensures old(lp).None? ==> r == Err(Disposed()) && lp == old(lp)
      ensures old(lp).Some? && LB.CheckLinear(objective, DisposedIn(LB.LinearTerms(objective))).Err? ==>
        r == Err(IllegalArgument) && lp == old(lp)
      ensures old(lp).Some? && LB.CheckLinear(objective, DisposedIn(LB.LinearTerms(objective))).Ok? ==>
        var w := N.SetObjCoefficients(old(lp.value), ElemsOf(LB.LinearTerms(objective)));
        (w.Err? ==> r == Err(Native) && lp == old(lp)) && (w.Ok? ==> r == Ok(()) && lp == Some(w.value))
    {
      var c := CheckProblem();
      if c.Err? {
        return Err(c.error);
      }
      c := LB.CheckLinear(objective, DisposedIn(LB.LinearTerms(objective)));
      if c.Err? {
        return Err(c.error);
      }
      var es := Columns(LB.LinearTerms(objective));
      var w := N.SetObjCoefficients(lp.value, es);
      if w.Err? {
        return Err(w.error);
      }
      lp := Some(w.value);
      return Ok(());
    }

    /** `setLinear`'s native call: each term's coefficient written at its column in row `i`. */
    method WriteCoefficients(i: int, ts: seq<Term<Variable>>) returns (r: Result<()>)
      requires Valid() && lp.Some? && 0 <= i < |constraints|
      modifies this`lp
      ensures Valid()
      ensures !N.InRange(ElemsOf(ts), |variables|) ==> r == Err(Native) && lp == old(lp)
      ensures N.InRange(ElemsOf(ts), |variables|) ==>
        r == Ok(()) && lp == Some(N.SetCoefficients(old(lp.value), i, ElemsOf(ts)).value)
    {
      var es := Columns(ts);
      var w := N.SetCoefficients(lp.value, i, es);
      if w.Err? {
        return Err(w.error);
      }
      lp := Some(w.value);
      return Ok(());
    }

    /** `addCol(var, name)`: a free continuous column numbered by the count before, and the name registered. */
    method AddCol(v: Variable, colName: string)
      requires Valid() && lp.Some?
      requires v.home == this && v !in variables
      modifies this, v
      ensures Valid()
      ensures variables == old(variables) + [v] && v.parent == this && v.col == |old(variables)|
      ensures hasVariableList
      ensures lp == Some(AppendCol(old(lp.value), colName, infinity))
      ensures variableNames == old(variableNames) + {colName}
      ensures constraints == old(constraints) && constraintNames == old(constraintNames)
      ensures status == old(status) && bestSolution == old(bestSolution)
      ensures objValue == old(objValue) && name == old(name)
    {
      v.parent := this;
      v.col := |lp.value.cols|;
      hasVariableList := true;
      lp := Some(AppendCol(lp.value, colName, infinity));
      variables := variables + [v];
      variableNames := variableNames + {colName};
    }

    /** `new CbcVariable(this, name)`: a variable registered by `addCol`. */
    method CreateVariable(colName: string) returns (v: Variable)
      requires Valid() && lp.Some?
      modifies this
      ensures Valid() && fresh(v)
      ensures variables == old(variables) + [v] && v.col == |old(variables)|
      ensures lp == Some(AppendCol(old(lp.value), colName, infinity))
      ensures variableNames == old(variableNames) + {colName}
      ensures constraints == old(constraints) && constraintNames == old(constraintNames)
      ensures status == old(status) && bestSolution == old(bestSolution)
      ensures objValue == old(objValue) && name == old(name)
      ensures v.home == this && v.Valid() && v.Live()
    {
      v := new Variable(this);
      AddCol(v, colName);
    }

    /**
     * `addVariable(name, type)`: a new column of the given type, bounded by
     * [0,1] if BOOL and free otherwise.
     */
    method AddVariable(name: Option<string>, t: VarType) returns (r: Result<Variable>)
      requires Valid()
      modifies this
      ensures Valid()
      ensures old(lp).None? ==> r == Err(Disposed()) && unchanged(this)
      ensures old(lp).Some? && old(CheckVariableName(name)).Err? ==>
        r == Err(old(CheckVariableName(name)).error) && unchanged(this)
      ensures old(lp).Some? && old(CheckVariableName(name)).Ok? ==>
        r.Ok? && fresh(r.value) && variables == old(variables) + [r.value] &&
        variableNames == old(variableNames) + {name.value} &&
        lp == Some(N.WithCol(AppendCol(old(lp.value), name.value, infinity), |old(variables)|,
                             Typed(FreshCol(name.value, infinity), t))) &&
        constraints == old(constraints) && constraintNames == old(constraintNames) &&
        status == old(status) && bestSolution == old(bestSolution)
      ensures r.Ok? ==> r.value.Valid() && r.value.Live()
      ensures r.Ok? ==> r.value.GetType() == Ok(t) && r.value.GetName() == Ok(name.value)
      ensures r.Ok? ==> r.value.GetLowerBound() == Ok(if t == BOOL then Some(0.0) else None)
      ensures r.Ok? ==> r.value.GetUpperBound() == Ok(if t == BOOL then Some(1.0) else None)
    {
      var c := CheckProblem();
      if c.Err? {
        return Err(c.error);
      }
      c := CheckVariableName(name);
      if c.Err? {
        return Err(c.error);
      }
      r := NewVariable(name, t);
    }

    /** `addVariable` once the problem and the name are checked. */
    method NewVariable(name: Option<string>, t: VarType) returns (r: Result<Variable>)
      requires Valid() && lp.Some? && CheckVariableName(name).Ok?
      modifies this
      ensures Valid()
      ensures r.Ok? && fresh(r.value) && variables == old(variables) + [r.value] &&
        variableNames == old(variableNames) + {name.value} &&
        lp == Some(N.WithCol(AppendCol(old(lp.value), name.value, infinity), |old(variables)|,
                             Typed(FreshCol(name.value, infinity), t))) &&
        constraints == old(constraints) && constraintNames == old(constraintNames) &&
        status == old(status) && bestSolution == old(bestSolution)
      ensures r.Ok? ==> r.value.Valid() && r.value.Live()
      ensures r.Ok? ==> r.value.GetType() == Ok(t) && r.value.GetName() == Ok(name.value)
      ensures r.Ok? ==> r.value.GetLowerBound() == Ok(if t == BOOL then Some(0.0) else None)
      ensures r.Ok? ==> r.value.GetUpperBound() == Ok(if t == BOOL then Some(1.0) else None)
    {
      var v := CreateVariable(name.value);
      ghost var added := lp.value;
      var s := v.SetType(t);
      ghost var typed := lp.value;
      assert typed.cols == added.cols[v.col := Typed(FreshCol(name.value, infinity), t)];
      if t == INTEGER || t == REAL {
        s := v.SetLowerBound(None);
        assert lp.value.cols == typed.cols;
        s := v.SetUpperBound(None);
        assert lp.value.cols == typed.cols;
      }
      assert lp.value == typed;
      NewVariableType(name.value, t);
      return Ok(v);
    }

    /**
     * `addRow(constraint, name, linear, lb, ub)`: one native call writes the
     * row with its coefficients and bounds, a null bound written as
     * -/+infinity; the row is numbered by the count before and the name
     * registered.  A column the native problem lacks is refused.
     */
    method AddRow(c: Constraint, rowName: string, linear: Option<seq<Term<Variable>>>,
                  lb: Option<Number>, ub: Option<Number>) returns (r: Result<()>)
      requires Valid() && lp.Some?
      requires c.home == this && c !in constraints
      modifies this, c
      ensures Valid()
      ensures variables == old(variables) && variableNames == old(variableNames)
      ensures status == old(status) && bestSolution == old(bestSolution)
      ensures objValue == old(objValue) && name == old(name)
      ensures var w := old(N.AddRow(lp.value, ElemsOf(LB.LinearTerms(linear)), WriteLower(lb, infinity), WriteUpper(ub, infinity)));
        (w.Err? ==> r == Err(Native) && lp == old(lp) && constraints == old(constraints) &&
                    constraintNames == old(constraintNames)) &&
        (w.Ok? ==> r == Ok(()) && lp == Some(w.value) && constraints == old(constraints) + [c] &&
                   c.parent == this && c.row == |old(constraints)| &&
                   constraintNames == old(constraintNames) + {rowName})
    {
      var es := Columns(LB.LinearTerms(linear));
      var w := N.AddRow(lp.value, es, WriteLower(lb, infinity), WriteUpper(ub, infinity));
      if w.Err? {
        return Err(w.error);
      }
      AttachRow(c, w.value, rowName);
      return Ok(());
    }

    /** The bookkeeping of `addRow` once the native row exists: the row is numbered and the name registered. */
    method AttachRow(c: Constraint, q: N.Lp, rowName: string)
      requires Valid() && lp.Some? && c.home == this && c !in constraints
      requires N.Wf(q) && |q.cols| == |variables| && |q.rows| == |constraints| + 1
      modifies this, c
      ensures Valid()
      ensures lp == Some(q) && constraints == old(constraints) + [c]
      ensures c.parent == this && c.row == |old(constraints)|
      ensures constraintNames == old(constraintNames) + {rowName}
      ensures variables == old(variables) && variableNames == old(variableNames)
      ensures status == old(status) && bestSolution == old(bestSolution)
      ensures objValue == old(objValue) && name == old(name)
    {
      c.parent := this;
      c.row := |constraints|;
      lp := Some(q);
      constraints := constraints + [c];
      constraintNames := constraintNames + {rowName};
    }

    /** `new CbcConstraint(this, name, linear, lb, ub)`: the row added, then named. */
    method CreateConstraint(rowName: string, linear: Option<seq<Term<Variable>>>,
                            lb: Option<Number>, ub: Option<Number>) returns (r: Result<Constraint>)
      requires Valid() && lp.Some?
      modifies this
      ensures Valid()
      ensures variables == old(variables) && variableNames == old(variableNames)
      ensures status == old(status) && bestSolution == old(bestSolution)
      ensures var w := old(N.AddRow(lp.value, ElemsOf(LB.LinearTerms(linear)),
                                    WriteLower(lb, infinity), WriteUpper(ub, infinity)));
        (w.Err? ==> r == Err(Native) && lp == old(lp) && constraints == old(constraints)) &&
        (w.Ok? ==> r.Ok? && fresh(r.value) && constraints == old(constraints) + [r.value] &&
                   constraintNames == old(constraintNames) + {rowName} &&
                   lp == Some(N.WithRow(w.value, |old(constraints)|, rowName, WriteLower(lb, infinity),
                                        WriteUpper(ub, infinity))))
      ensures r.Ok? ==> r.value.home == this && r.value.Valid() && r.value.Live()
      ensures r.Ok? ==> r.value.GetName() == Ok(rowName) && old(N.InRange(ElemsOf(LB.LinearTerms(linear)), |variables|))
      ensures r.Ok? ==> r.value.GetLowerBound() == Ok(NormalLower(lb, infinity))
      ensures r.Ok? ==> r.value.GetUpperBound() == Ok(NormalUpper(ub, infinity))
      ensures r.Ok? ==> r.value.Row().coefs == old(N.Written(N.Zeros(|variables|), ElemsOf(LB.LinearTerms(linear))))
    {
      var c := new Constraint(this);
      var added := AddRow(c, rowName, linear, lb, ub);
      if added.Err? {
        return Err(added.error);
      }
      var s := c.SetName(rowName);
      return Ok(c);
    }

    /** `addConstraint(name)`: a new empty, unbounded row. */
    method AddConstraint(name: Option<string>) returns (r: Result<Constraint>)
      requires Valid()
      modifies this
      ensures Valid()
      ensures old(lp).None? ==> r == Err(Disposed()) && unchanged(this)
      ensures old(lp).Some? && old(CheckConstraintName(name)).Err? ==>
        r == Err(old(CheckConstraintName(name)).error) && unchanged(this)
      ensures old(lp).Some? && old(CheckConstraintName(name)).Ok? ==>
        r.Ok? && constraints == old(constraints) + [r.value] &&
        constraintNames == old(constraintNames) + {name.value} &&
        variables == old(variables) && status == old(status)
      ensures r.Ok? ==> r.value.home == this && r.value.Valid() && r.value.Live()
      ensures r.Ok? ==> r.value.GetName() == Ok(name.value)
      ensures r.Ok? ==> r.value.GetLowerBound() == Ok(None) && r.value.GetUpperBound() == Ok(None)
      ensures r.Ok? ==> forall j :: 0 <= j < |variables| ==> r.value.Row().coefs[j] == 0.0
    {
      var c := CheckProblem();
      if c.Err? {
        return Err(c.error);
      }
      c := CheckConstraintName(name);
      if c.Err? {
        return Err(c.error);
      }
      assert N.InRange(ElemsOf(LB.LinearTerms(None)), |variables|);
      r := CreateConstraint(name.value, None, None, None);
    }

    /**
     * `addConstraint(name, linear, lb, ub)`: the problem, the name and the
     * linear are all checked before anything is created, and the row is
     * written in one native call.
     */
    method AddConstraintWith(name: Option<string>, linear: Option<seq<Term<Variable>>>,
                             lb: Option<Number>, ub: Option<Number>) returns (r: Result<Constraint>)
      requires Valid()
      modifies this
      ensures Valid()
      ensures old(lp).None? ==> r == Err(Disposed()) && unchanged(this)
      ensures old(lp).Some? && old(CheckConstraintName(name)).Err? ==>
        r == Err(old(CheckConstraintName(name)).error) && unchanged(this)
      ensures old(lp).Some? && old(CheckConstraintName(name)).Ok? &&
              old(LB.CheckLinear(linear, DisposedIn(LB.LinearTerms(linear)))).Err? ==>
        r == Err(IllegalArgument) && unchanged(this)
      ensures old(lp).Some? && old(CheckConstraintName(name)).Ok? &&
              old(LB.CheckLinear(linear, DisposedIn(LB.LinearTerms(linear)))).Ok? ==>
        (r.Ok? <==> N.InRange(ElemsOf(LB.LinearTerms(linear)), |old(variables)|)) &&
        (r.Err? ==> r.error == Native && lp == old(lp) && constraints == old(constraints))
      ensures r.Ok? ==> (constraints == old(constraints) + [r.value] && variables == old(variables) &&
        constraintNames == old(constraintNames) + {name.value} && status == old(status))
      ensures r.Ok? ==> r.value.home == this && r.value.Valid() && r.value.Live()
      ensures r.Ok? ==> r.value.GetName() == Ok(name.value) && N.InRange(ElemsOf(LB.LinearTerms(linear)), |variables|)
      ensures r.Ok? ==> r.value.GetLowerBound() == Ok(NormalLower(lb, infinity))
      ensures r.Ok? ==> r.value.GetUpperBound() == Ok(NormalUpper(ub, infinity))
      ensures r.Ok? ==> r.value.Row().coefs == N.Written(N.Zeros(|variables|), ElemsOf(LB.LinearTerms(linear)))
    {
      var c := CheckProblem();
      if c.Err? {
        return Err(c.error);
      }
      c := CheckConstraintName(name);
      if c.Err? {
        return Err(c.error);
      }
      c := LB.CheckLinear(linear, DisposedIn(LB.LinearTerms(linear)));
      if c.Err? {
        return Err(c.error);
      }
      r := CreateConstraint(name.value, linear, lb, ub);
    }

    /** The renumbering loop of `removeCol`: the variables from `index` on move down one column. */
    method ShiftCols(index: int)
      requires 0 <= index <= |variables|
      requires forall i :: 0 <= i < index ==> variables[i].col == i
      requires forall i :: index <= i < |variables| ==> variables[i].col == i + 1
      modifies variables
      ensures forall i :: 0 <= i < |variables| ==> variables[i].col == i
      ensures forall i :: 0 <= i < |variables| ==> variables[i].parent == old(variables[i].parent)
    {
      var k := index;
      while k < |variables|
        invariant index <= k <= |variables|
        invariant forall i :: 0 <= i < k ==> variables[i].col == i
        invariant forall i :: k <= i < |variables| ==> variables[i].col == i + 1
        invariant forall i :: 0 <= i < |variables| ==> variables[i].parent == old(variables[i].parent)
      {
        variables[k].col := k;
        k := k + 1;
      }
    }

    /** The renumbering loop of `removeRow`. */
    method ShiftRows(index: int)
      requires 0 <= index <= |constraints|
      requires forall i :: 0 <= i < index ==> constraints[i].row == i
      requires forall i :: index <= i < |constraints| ==> constraints[i].row == i + 1
      modifies constraints
      ensures forall i :: 0 <= i < |constraints| ==> constraints[i].row == i
      ensures forall i :: 0 <= i < |constraints| ==> constraints[i].parent == old(constraints[i].parent)
    {
      var k := index;
      while k < |constraints|
        invariant index <= k <= |constraints|
        invariant forall i :: 0 <= i < k ==> constraints[i].row == i
        invariant forall i :: k <= i < |constraints| ==> constraints[i].row == i + 1
        invariant forall i :: 0 <= i < |constraints| ==> constraints[i].parent == old(constraints[i].parent)
      {
        constraints[k].row := k;
        k := k + 1;
      }
    }

    /**
     * `removeCol(var)`: the column leaves the native problem and the list,
     * the name is released, the variable is cleared, the cached solution
     * loses the removed column's value and every later variable's column
     * goes down by one.  The cached solution is compacted with `Compact`
     * (the source's `CompactAsWritten` differs on short arrays).
     */
    method RemoveCol(v: Variable) returns (r: Result<()>)
      requires Valid()
      modifies this, variables
      ensures Valid()
      ensures v !in old(variables) ==> r == Err(Runtime) && unchanged(this) && unchanged(old(variables))
      ensures v in old(variables) && old(lp).None? ==>
        r == Err(Disposed()) && unchanged(this) && unchanged(old(variables))
      ensures v in old(variables) && old(lp).Some? ==>
        r == Ok(()) && v.parent == null && v.col == 0 &&
        variables == old(variables)[..old(v.col)] + old(variables)[old(v.col) + 1..] &&
        lp == Some(N.DeleteCol(old(lp.value), old(v.col))) &&
        variableNames == old(variableNames) - {old(lp.value.cols[v.col].name)} &&
        bestSolution == (if old(bestSolution).None? then None else Some(Compact(old(bestSolution.value), old(v.col)))) &&
        constraints == old(constraints) && constraintNames == old(constraintNames) &&
        status == old(status) && objValue == old(objValue)
    {
      if v !in variables {
        return Err(Runtime);
      }
      var index := v.col;
      assert variables[index] == v;
      assert v.Valid();
      var colName := v.GetName();
      if colName.Err? {
        return Err(colName.error);
      }
      DropCol(v, colName.value);
      ShiftCols(index);
      return Ok(());
    }

    /** The part of `removeCol` before the renumbering: the column, list entry, name and cached value go. */
    method DropCol(v: Variable, colName: string)
      requires Valid() && lp.Some? && 0 <= v.col < |variables| && variables[v.col] == v
      modifies this`lp, this`variables, this`variableNames, this`bestSolution, v
      ensures lp == Some(N.DeleteCol(old(lp.value), old(v.col)))
      ensures variables == old(variables)[..old(v.col)] + old(variables)[old(v.col) + 1..]
      ensures variableNames == old(variableNames) - {colName}
      ensures bestSolution == (if old(bestSolution).None? then None else Some(Compact(old(bestSolution.value), old(v.col))))
      ensures v.parent == null && v.col == 0
      ensures forall i :: 0 <= i < |variables| ==> variables[i].parent == this && variables[i].home == this
      ensures forall i :: 0 <= i < old(v.col) ==> variables[i].col == i
      ensures forall i :: old(v.col) <= i < |variables| ==> variables[i].col == i + 1
      ensures N.Wf(lp.value) && |lp.value.cols| == |variables| && |lp.value.rows| == |constraints|
    {
      var index := v.col;
      forall i | 0 <= i < |variables| && i != index
        ensures variables[i] != v
      {
        assert variables[i].col != v.col;
      }
      lp := Some(N.DeleteCol(lp.value, index));
      ghost var removed := variables;
      variables := variables[..index] + variables[index + 1..];
      variableNames := variableNames - {colName};
      v.col := 0;
      v.parent := null;
      if bestSolution.Some? {
        bestSolution := Some(Compact(bestSolution.value, index));
      }
      assert forall i :: 0 <= i < |variables| ==> variables[i] == (if i < index then removed[i] else removed[i + 1]);
    }

    /**
     * `removeRow(constraint)`: the row leaves the native problem and the
     * list, the name is released, the constraint is cleared and every later
     * row goes down by one.
     */
    method RemoveRow(c: Constraint) returns (r: Result<()>)
      requires Valid()
      modifies this, constraints
      ensures Valid()
      ensures c !in old(constraints) ==> r == Err(Runtime) && unchanged(this) && unchanged(old(constraints))
      ensures c in old(constraints) && old(lp).None? ==>
        r == Err(Disposed()) && unchanged(this) && unchanged(old(constraints))
      ensures c in old(constraints) && old(lp).Some? ==>
        r == Ok(()) && c.parent == null && c.row == 0 &&
        constraints == old(constraints)[..old(c.row)] + old(constraints)[old(c.row) + 1..] &&
        lp == Some(N.DeleteRow(old(lp.value), old(c.row))) &&
        constraintNames == old(constraintNames) - {old(lp.value.rows[c.row].name)} &&
        variables == old(variables) && variableNames == old(variableNames) &&
        status == old(status) && bestSolution == old(bestSolution)
    {
      if c !in constraints {
        return Err(Runtime);
      }
      var index := c.row;
      assert constraints[index] == c;
      assert c.Valid();
      var rowName := c.GetName();
      if rowName.Err? {
        return Err(rowName.error);
      }
      DropRow(c, rowName.value);
      ShiftRows(index);
      return Ok(());
    }

    /** The part of `removeRow` before the renumbering: the row, list entry and name go. */
    method DropRow(c: Constraint, rowName: string)
      requires Valid() && lp.Some? && 0 <= c.row < |constraints| && constraints[c.row] == c
      modifies this`lp, this`constraints, this`constraintNames, c
      ensures lp == Some(N.DeleteRow(old(lp.value), old(c.row)))
      ensures constraints == old(constraints)[..old(c.row)] + old(constraints)[old(c.row) + 1..]
      ensures constraintNames == old(constraintNames) - {rowName}
      ensures c.parent == null && c.row == 0
      ensures forall i :: 0 <= i < |constraints| ==> constraints[i].parent == this && constraints[i].home == this
      ensures forall i :: 0 <= i < old(c.row) ==> constraints[i].row == i
      ensures forall i :: old(c.row) <= i < |constraints| ==> constraints[i].row == i + 1
      ensures N.Wf(lp.value) && |lp.value.cols| == |variables| && |lp.value.rows| == |constraints|
    {
      var index := c.row;
      forall i | 0 <= i < |constraints| && i != index
        ensures constraints[i] != c
      {
        assert constraints[i].row != c.row;
      }
      lp := Some(N.DeleteRow(lp.value, index));
      ghost var removed := constraints;
      constraints := constraints[..index] + constraints[index + 1..];
      constraintNames := constraintNames - {rowName};
      c.row := 0;
      c.parent := null;
      assert forall i :: 0 <= i < |constraints| ==>
        constraints[i] == (if i < index then removed[i] else removed[i + 1]);
    }
  }

  class Variable {
    var col: int
    var parent: Problem?
    /** The problem this variable was created for. */
    ghost const home: Problem

    /** A variable not yet registered: `addCol` sets `parent` and `col`. */
    constructor(home: Problem)
      ensures this.home == home && parent == null && col == 0
    {
      this.home := home;
      parent := null;
      col := 0;
    }

    ghost predicate Valid()
      reads this, home, home.variables, home.constraints
    {
      home.Valid() &&
      (parent == null ==> col == 0) &&
      (parent != null ==> parent == home && 0 <= col < |home.variables| && home.variables[col] == this)
    }

    /** `isDisposed`: no parent, or a negative column. */
    function IsDisposed(): bool
      reads this
    {
      parent == null || col < 0
    }

    /** Live: part of a problem that is not disposed. */
    ghost predicate Live()
      reads this, home
    {
      !IsDisposed() && home.lp.Some?
    }

    /** The native column of a live variable. */
    function Column(): N.Col
      requires Valid() && Live()
      reads this, home, home.variables, home.constraints
    {
      parent.lp.value.cols[col]
    }

    /** `checkVariable`. */
    function CheckVariable(): (r: Result<()>)
      requires Valid()
      reads this, home, home.variables, home.constraints
      ensures r.Ok? <==> Live()
      ensures r.Err? ==> r.error == Disposed()
    {
      if IsDisposed() then Err(Disposed()) else parent.CheckProblem()
    }

    /** `getLowerBound`: the column's lower bound, `-infinity` reading as null. */
    function GetLowerBound(): (r: Result<Option<real>>)
      requires Valid()
      reads this, home, home.variables, home.constraints
      ensures r.Ok? <==> Live()
      ensures r.Err? ==> r.error == Disposed()
      ensures r.Ok? ==> r.value == ReadLower(Column().lower, home.infinity)
    {
      var c := CheckVariable();
      if c.Err? then Err(c.error) else Ok(ReadLower(Column().lower, parent.infinity))
    }

    /** `getUpperBound`: the column's upper bound, `infinity` reading as null. */
    function GetUpperBound(): (r: Result<Option<real>>)
      requires Valid()
      reads this, home, home.variables, home.constraints
      ensures r.Ok? <==> Live()
      ensures r.Err? ==> r.error == Disposed()
      ensures r.Ok? ==> r.value == ReadUpper(Column().upper, home.infinity)
    {
      var c := CheckVariable();
      if c.Err? then Err(c.error) else Ok(ReadUpper(Column().upper, parent.infinity))
    }

    /** `getName` checks only the problem: a disposed variable has no parent to check. */
    function GetName(): (r: Result<string>)
      requires Valid()
      reads this, home, home.variables, home.constraints
      ensures parent == null ==> r == Err(NullPointer)
      ensures parent != null && home.lp.None? ==> r == Err(Disposed())
      ensures parent != null && home.lp.Some? ==> r == Ok(Column().name)
    {
      if parent == null then Err(NullPointer)
      else if parent.lp.None? then Err(Disposed())
      else Ok(Column().name)
    }

    /**
     * `getType`: BOOL for a binary column, INTEGER for another integer
     * column, REAL for a continuous one.  The fall-through error of the
     * source needs a column that is neither integer nor continuous, which
     * the flag model has none of.
     */
    function GetType(): (r: Result<VarType>)
      requires Valid()
      reads this, home, home.variables, home.constraints
      ensures r.Ok? <==> Live()
      ensures r.Err? ==> r.error == Disposed()
      ensures r.Ok? && r.value == BOOL ==> N.IsBinary(Column())
      ensures r.Ok? && r.value == INTEGER ==> Column().integer && !N.IsBinary(Column())
      ensures r.Ok? ==> (r.value == REAL <==> !Column().integer)
    {
      var c := CheckVariable();
      if c.Err? then Err(c.error) else Ok(TypeOf(Column()))
    }

    /**
     * `setLowerBound(lb)`: the column's lower bound, null written as
     * `-infinity`.  The status the solver left is kept.
     */
    method SetLowerBound(lb: Option<Number>) returns (r: Result<()>)
      requires Valid()
      modifies home`lp
      ensures Valid()
      ensures r.Ok? <==> old(Live())
      ensures r.Err? ==> r.error == Disposed() && unchanged(home)
      ensures r.Ok? ==> home.lp == Some(old(N.WithCol(home.lp.value, col,
        Column().(lower := WriteLower(lb, home.infinity)))))
      ensures r.Ok? ==> GetLowerBound() == Ok(NormalLower(lb, home.infinity))
      ensures r.Ok? ==> GetUpperBound() == old(GetUpperBound()) && Column().integer == old(Column().integer)
    {
      var c := CheckVariable();
      if c.Err? {
        return Err(c.error);
      }
      parent.lp := Some(N.WithCol(parent.lp.value, col, Column().(lower := WriteLower(lb, parent.infinity))));
      return Ok(());
    }

    /**
     * `setUpperBound(ub)`: the column's upper bound, null written as
     * `infinity`.  The status the solver left is kept.
     */
    method SetUpperBound(ub: Option<Number>) returns (r: Result<()>)
      requires Valid()
      modifies home`lp
      ensures Valid()
      ensures r.Ok? <==> old(Live())
      ensures r.Err? ==> r.error == Disposed() && unchanged(home)
      ensures r.Ok? ==> home.lp == Some(old(N.WithCol(home.lp.value, col,
        Column().(upper := WriteUpper(ub, home.infinity)))))
      ensures r.Ok? ==> GetUpperBound() == Ok(NormalUpper(ub, home.infinity))
      ensures r.Ok? ==> GetLowerBound() == old(GetLowerBound()) && Column().integer == old(Column().integer)
    {
      var c := CheckVariable();
      if c.Err? {
        return Err(c.error);
      }
      parent.lp := Some(N.WithCol(parent.lp.value, col, Column().(upper := WriteUpper(ub, parent.infinity))));
      return Ok(());
    }

    /**
     * `setType(type)`: BOOL makes the column integer and bounded by [0,1],
     * INTEGER makes it integer, REAL continuous.
     */
    method SetType(t: VarType) returns (r: Result<()>)
      requires Valid()
      modifies home`lp
      ensures Valid()
      ensures r.Ok? <==> old(Live())
      ensures r.Err? ==> r.error == Disposed() && unchanged(home)
      ensures r.Ok? ==> home.lp == Some(old(N.WithCol(home.lp.value, col, Typed(Column(), t))))
      ensures r.Ok? && t != INTEGER ==> GetType() == Ok(t)
      ensures r.Ok? && t == BOOL ==> GetLowerBound() == Ok(Some(0.0)) && GetUpperBound() == Ok(Some(1.0))
    {
      var c := CheckVariable();
      if c.Err? {
        return Err(c.error);
      }
      TypedReadsBack(Column(), t);
      parent.lp := Some(N.WithCol(parent.lp.value, col, Typed(Column(), t)));
      return Ok(());
    }

    /**
     * `getValue`: the cached best solution's value for the column.  A column
     * added after the solve lies past the cached array.
     */
    function GetValue(): (r: Result<real>)
      requires Valid()
      reads this, home, home.variables, home.constraints
      ensures !Live() ==> r == Err(Disposed())
      ensures Live() && home.CheckSolution().Err? ==> r == Err(home.CheckSolution().error)
      ensures Live() && home.CheckSolution().Ok? ==>
        (ValueAt(home.bestSolution.value, col).None? ==> r == Err(IndexOutOfBounds)) &&
        (ValueAt(home.bestSolution.value, col).Some? ==> r == Ok(ValueAt(home.bestSolution.value, col).value))
    {
      var c := CheckVariable();
      if c.Err? then Err(c.error)
      else
        var s := parent.CheckSolution();
        if s.Err? then Err(s.error)
        else if col < |parent.bestSolution.value| then Ok(parent.bestSolution.value[col])
        else Err(IndexOutOfBounds)
    }

    /** `dispose`: removes the column, unless already disposed. */
    method Dispose() returns (r: Result<()>)
      requires Valid()
      modifies home, home.variables
      ensures Valid()
      ensures old(IsDisposed()) ==> r == Ok(()) && unchanged(home) && unchanged(old(home.variables))
      ensures !old(IsDisposed()) && old(home.lp).None? ==> r == Err(Disposed()) && unchanged(home)
      ensures !old(IsDisposed()) && old(home.lp).Some? ==>
        r == Ok(()) && IsDisposed() &&
        home.variables == old(home.variables)[..old(col)] + old(home.variables)[old(col) + 1..] &&
        home.lp == Some(N.DeleteCol(old(home.lp.value), old(col))) &&
        home.bestSolution == (if old(home.bestSolution).None? then None
                              else Some(Compact(old(home.bestSolution.value), old(col))))
    {
      if IsDisposed() {
        return Ok(());
      }
      r := parent.RemoveCol(this);
    }
  }

  class Constraint {
    var row: int
    var parent: Problem?
    ghost const home: Problem

    /** A constraint not yet registered: `addRow` sets `parent` and `row`. */
    constructor(home: Problem)
      ensures this.home == home && parent == null && row == 0
    {
      this.home := home;
      parent := null;
      row := 0;
    }

    ghost predicate Valid()
      reads this, home, home.variables, home.constraints
    {
      home.Valid() &&
      (parent == null ==> row == 0) &&
      (parent != null ==> parent == home && 0 <= row < |home.constraints| && home.constraints[row] == this)
    }

    /** `isDisposed`: no parent, or a negative row. */
    function IsDisposed(): bool
      reads this
    {
      parent == null || row < 0
    }

    ghost predicate Live()
      reads this, home
    {
      !IsDisposed() && home.lp.Some?
    }

    /** The native row of a live constraint. */
    function Row(): N.Row
      requires Valid() && Live()
      reads this, home, home.variables, home.constraints
    {
      parent.lp.value.rows[row]
    }

    /** `checkConstraint`. */
    function CheckConstraint(): (r: Result<()>)
      requires Valid()
      reads this, home, home.variables, home.constraints
      ensures r.Ok? <==> Live()
      ensures r.Err? ==> r.error == Disposed()
    {
      if IsDisposed() then Err(Disposed()) else parent.CheckProblem()
    }

    function GetName(): (r: Result<string>)
      requires Valid()
      reads this, home, home.variables, home.constraints
      ensures r.Ok? <==> Live()
      ensures r.Err? ==> r.error == Disposed()
      ensures r.Ok? ==> r.value == Row().name
    {
      var c := CheckConstraint();
      if c.Err? then Err(c.error) else Ok(Row().name)
    }

    /** `getLowerBound`: `-infinity` reads as null. */
    function GetLowerBound(): (r: Result<Option<real>>)
      requires Valid()
      reads this, home, home.variables, home.constraints
      ensures r.Ok? <==> Live()
      ensures r.Err? ==> r.error == Disposed()
      ensures r.Ok? ==> r.value == ReadLower(Row().lower, home.infinity)
    {
      var c := CheckConstraint();
      if c.Err? then Err(c.error) else Ok(ReadLower(Row().lower, parent.infinity))
    }

    /** `getUpperBound`: `infinity` reads as null. */
    function GetUpperBound(): (r: Result<Option<real>>)
      requires Valid()
      reads this, home, home.variables, home.constraints
      ensures r.Ok? <==> Live()
      ensures r.Err? ==> r.error == Disposed()
      ensures r.Ok? ==> r.value == ReadUpper(Row().upper, home.infinity)
    {
      var c := CheckConstraint();
      if c.Err? then Err(c.error) else Ok(ReadUpper(Row().upper, parent.infinity))
    }

    /** `getValue`: once the checks pass, the operation is unsupported. */
    function GetValue(): (r: Result<real>)
      requires Valid()
      reads this, home, home.variables, home.constraints
      ensures r.Err?
      ensures !Live() ==> r.error == Disposed()
      ensures Live() && home.CheckSolution().Err? ==> r.error == home.CheckSolution().error
      ensures Live() && home.CheckSolution().Ok? ==> r.error == UnsupportedOperation
    {
      var c := CheckConstraint();
      if c.Err? then Err(c.error)
      else
        var s := parent.CheckSolution();
        if s.Err? then Err(s.error) else Err(UnsupportedOperation)
    }

    /** The private `setName(name)` the constructor calls. */
    method SetName(name: string) returns (r: Result<()>)
      requires Valid()
      modifies home`lp
      ensures Valid()
      ensures r.Ok? <==> old(Live())
      ensures r.Err? ==> r.error == Disposed() && unchanged(home)
      ensures r.Ok? ==> home.lp == Some(old(N.WithRow(home.lp.value, row, name, Row().lower, Row().upper)))
      ensures r.Ok? ==> GetName() == Ok(name)
    {
      var c := CheckConstraint();
      if c.Err? {
        return Err(c.error);
      }
      parent.lp := Some(N.WithRow(parent.lp.value, row, name, Row().lower, Row().upper));
      return Ok(());
    }

    /** `setLowerBound(lb)`: null written as `-infinity`; the status becomes UNKNOWN. */
    method SetLowerBound(lb: Option<Number>) returns (r: Result<()>)
      requires Valid()
      modifies home`lp, home`status
      ensures Valid()
      ensures r.Ok? <==> old(Live())
      ensures r.Err? ==> r.error == Disposed() && unchanged(home)
      ensures r.Ok? ==> home.lp == Some(old(N.WithRow(home.lp.value, row, Row().name,
        WriteLower(lb, home.infinity), Row().upper))) && home.status == Some(UNKNOWN)
      ensures r.Ok? ==> GetLowerBound() == Ok(NormalLower(lb, home.infinity))
      ensures r.Ok? ==> GetUpperBound() == old(GetUpperBound()) && Row().coefs == old(Row().coefs)
    {
      var c := CheckConstraint();
      if c.Err? {
        return Err(c.error);
      }
      parent.lp := Some(N.WithRow(parent.lp.value, row, Row().name, WriteLower(lb, parent.infinity), Row().upper));
      parent.status := Some(UNKNOWN);
      return Ok(());
    }

    /** `setUpperBound(ub)`: null written as `infinity`; the status becomes UNKNOWN. */
    method SetUpperBound(ub: Option<Number>) returns (r: Result<()>)
      requires Valid()
      modifies home`lp, home`status
      ensures Valid()
      ensures r.Ok? <==> old(Live())
      ensures r.Err? ==> r.error == Disposed() && unchanged(home)
      ensures r.Ok? ==> home.lp == Some(old(N.WithRow(home.lp.value, row, Row().name,
        Row().lower, WriteUpper(ub, home.infinity)))) && home.status == Some(UNKNOWN)
      ensures r.Ok? ==> GetUpperBound() == Ok(NormalUpper(ub, home.infinity))
      ensures r.Ok? ==> GetLowerBound() == old(GetLowerBound()) && Row().coefs == old(Row().coefs)
    {
      var c := CheckConstraint();
      if c.Err? {
        return Err(c.error);
      }
      parent.lp := Some(N.WithRow(parent.lp.value, row, Row().name, Row().lower, WriteUpper(ub, parent.infinity)));
      parent.status := Some(UNKNOWN);
      return Ok(());
    }

    /**
     * `setLinear(linear)`: the status becomes UNKNOWN before the linear is
     * checked; then each term's coefficient is written at its column,
     * leaving the other coefficients of the row as they were.
     */
    method SetLinear(linear: Option<seq<Term<Variable>>>) returns (r: Result<()>)
      requires Valid()
      modifies home`lp, home`status
      ensures Valid()
      ensures !old(Live()) ==> r == Err(Disposed()) && unchanged(home)
      ensures old(Live()) ==> home.status == Some(UNKNOWN)
      ensures old(Live()) && LB.CheckLinear(linear, DisposedIn(LB.LinearTerms(linear))).Err? ==>
        r == Err(IllegalArgument) && home.lp == old(home.lp)
      ensures old(Live()) && LB.CheckLinear(linear, DisposedIn(LB.LinearTerms(linear))).Ok? &&
              !N.InRange(ElemsOf(LB.LinearTerms(linear)), |home.variables|) ==>
        r == Err(Native) && home.lp == old(home.lp)
      ensures old(Live()) && LB.CheckLinear(linear, DisposedIn(LB.LinearTerms(linear))).Ok? &&
              N.InRange(ElemsOf(LB.LinearTerms(linear)), |home.variables|) ==>
        r == Ok(()) && home.lp == Some(old(N.SetCoefficients(home.lp.value, row, ElemsOf(LB.LinearTerms(linear))).value))
      ensures r.Ok? ==> Row().coefs == N.Written(old(Row().coefs), ElemsOf(LB.LinearTerms(linear)))
      ensures r.Ok? ==> Row().lower == old(Row().lower) && Row().upper == old(Row().upper)
    {
      var c := CheckConstraint();
      if c.Err? {
        return Err(c.error);
      }
      r := ReplaceLinear(linear);
    }

    /** `setLinear` on a live constraint: the status reset, the linear checked, then the writes. */
    method ReplaceLinear(linear: Option<seq<Term<Variable>>>) returns (r: Result<()>)
      requires Valid() && Live()
      modifies home`lp, home`status
      ensures Valid() && home.status == Some(UNKNOWN)
      ensures LB.CheckLinear(linear, DisposedIn(LB.LinearTerms(linear))).Err? ==>
        r == Err(IllegalArgument) && home.lp == old(home.lp)
      ensures LB.CheckLinear(linear, DisposedIn(LB.LinearTerms(linear))).Ok? &&
              !N.InRange(ElemsOf(LB.LinearTerms(linear)), |home.variables|) ==>
        r == Err(Native) && home.lp == old(home.lp)
      ensures LB.CheckLinear(linear, DisposedIn(LB.LinearTerms(linear))).Ok? &&
              N.InRange(ElemsOf(LB.LinearTerms(linear)), |home.variables|) ==>
        r == Ok(()) && home.lp == Some(old(N.SetCoefficients(home.lp.value, row, ElemsOf(LB.LinearTerms(linear))).value))
      ensures r.Ok? ==> Row().coefs == N.Written(old(Row().coefs), ElemsOf(LB.LinearTerms(linear)))
      ensures r.Ok? ==> Row().lower == old(Row().lower) && Row().upper == old(Row().upper)
    {
      parent.status := Some(UNKNOWN);
      var c := LB.CheckLinear(linear, DisposedIn(LB.LinearTerms(linear)));
      if c.Err? {
        return Err(c.error);
      }
      r := StoreRow(LB.LinearTerms(linear));
    }

    /** The coefficient writes of `setLinear`, after its checks: the row's bounds stay. */
    method StoreRow(ts: seq<Term<Variable>>) returns (r: Result<()>)
      requires Valid() && Live()
      modifies home`lp
      ensures Valid()
      ensures !N.InRange(ElemsOf(ts), |home.variables|) ==> r == Err(Native) && home.lp == old(home.lp)
      ensures N.InRange(ElemsOf(ts), |home.variables|) ==>
        r == Ok(()) && home.lp == Some(old(N.SetCoefficients(home.lp.value, row, ElemsOf(ts)).value))
      ensures r.Ok? ==> Row().coefs == N.Written(old(Row().coefs), ElemsOf(ts))
      ensures r.Ok? ==> Row().lower == old(Row().lower) && Row().upper == old(Row().upper)
    {
      r := parent.WriteCoefficients(row, ts);
    }

    /**
     * `getLinear`: a fresh linear holding one term per non-zero coefficient
     * of the row, in column order; never null.  The column count is the
     * size of the problem's variable list, which is null (so the call throws)
     * until a variable was added.
     */
    method GetLinear() returns (r: Result<ConcreteLinear<Variable>>)
      requires Valid()
      ensures r.Ok? <==> Live() && home.hasVariableList
      ensures !Live() ==> r == Err(Disposed())
      ensures Live() && !home.hasVariableList ==> r == Err(NullPointer)
      ensures r.Ok? ==> (fresh(r.value) && r.value.Valid() &&
        r.value.Elements() == LB.CoefTerms(Row().coefs, home.variables, |home.variables|))
    {
      var c := CheckConstraint();
      if c.Err? {
        return Err(c.error);
      }
      if !parent.hasVariableList {
        return Err(NullPointer);
      }
      var linear := new ConcreteLinear<Variable>();
      parent.FillTerms(Row().coefs, linear);
      return Ok(linear);
    }

    /** `isEmpty`: `getLinear().size() == 0`, that is, every coefficient of the row is 0. */
    method IsEmpty() returns (r: Result<bool>)
      requires Valid()
      ensures r.Ok? <==> Live() && home.hasVariableList
      ensures !Live() ==> r == Err(Disposed())
      ensures Live() && !home.hasVariableList ==> r == Err(NullPointer)
      ensures r.Ok? ==> (r.value <==> forall j :: 0 <= j < |home.variables| ==> Row().coefs[j] == 0.0)
    {
      var g := GetLinear();
      if g.Err? {
        return Err(g.error);
      }
      var n := g.value.Size();
      LB.CoefTermsEmpty(Row().coefs, home.variables, |home.variables|);
      return Ok(n == 0);
    }

    /** `dispose`: removes the row, unless already disposed. */
    method Dispose() returns (r: Result<()>)
      requires Valid()
      modifies home, home.constraints
      ensures Valid()
      ensures old(IsDisposed()) ==> r == Ok(()) && unchanged(home) && unchanged(old(home.constraints))
      ensures !old(IsDisposed()) && old(home.lp).None? ==> r == Err(Disposed()) && unchanged(home)
      ensures !old(IsDisposed()) && old(home.lp).Some? ==>
        r == Ok(()) && IsDisposed() &&
        home.constraints == old(home.constraints)[..old(row)] + old(home.constraints)[old(row) + 1..] &&
        home.lp == Some(N.DeleteRow(old(home.lp.value), old(row))) && home.status == old(home.status)
    {
      if IsDisposed() {
        return Ok(());
      }
      r := parent.RemoveRow(this);
    }
  }
}
