/**
 * The utilities of `com.patrikdufresne.ilp.util` (`Bound.create/restore`,
 * `BoundSnapshot`, `ValueSnapshot`, `ConstraintSnapshot`, `Constraints`,
 * `Variables`) run against the GLPK variables and constraints.  The getters
 * return `Double` values, which box as `RealNum`.
 */
module Util {
  import opened Wrappers
  import opened Numbers
  import opened Terms
  import opened LinearExpr
  import opened ILPErrors
  import opened Bounds
  import N = GLPKNative
  import opened GLPKBounds
  import opened GLPKRows
  import opened GLPK
  import LB = LinearBuilders
  import Linears
  import Types

  /** A bound read from GLPK and written back reads back the same. */
  lemma CapturedBoundsReadBack(b: N.Bnds)
    ensures NormalLower(AsReal(Boxed(Lower(b)))) == Lower(b)
    ensures NormalUpper(AsReal(Boxed(Upper(b)))) == Upper(b)
  {
    NormalIsIdempotent(N.Lb(b));
    NormalIsIdempotent(N.Ub(b));
  }

  /** `Bound.create(variable)`: the variable's current bounds. */
  function VariableBound(v: Variable): (r: Result<Bound>)
    requires v.Valid()
    reads v, v.home, v.home.variables, v.home.constraints
    ensures r.Ok? <==> v.Live()
    ensures r.Err? ==> r.error == Disposed()
    ensures r.Ok? ==> AsReal(r.value.lower) == Lower(v.Column().bnds) && AsReal(r.value.upper) == Upper(v.Column().bnds)
  {
    var lb := v.GetLowerBound();
    if lb.Err? then Err(lb.error)
    else
      var ub := v.GetUpperBound();
      Ok(Bound(Boxed(lb.value), Boxed(ub.value)))
  }

  /** `Bound.create(constraint)`: the constraint's current bounds. */
  function ConstraintBound(c: Constraint): (r: Result<Bound>)
    requires c.Valid()
    reads c, c.home, c.home.variables, c.home.constraints
    ensures r.Ok? <==> c.Live()
    ensures r.Err? ==> r.error == Disposed()
    ensures r.Ok? ==> AsReal(r.value.lower) == Lower(c.Row().bnds) && AsReal(r.value.upper) == Upper(c.Row().bnds)
  {
    var lb := c.GetLowerBound();
    if lb.Err? then Err(lb.error)
    else
      var ub := c.GetUpperBound();
      Ok(Bound(Boxed(lb.value), Boxed(ub.value)))
  }

  /**
   * `bound.restore(variable)`: the lower bound, then the upper bound.  Only
   * the bounds of this variable's column change.
   */
  method RestoreVariable(b: Bound, v: Variable) returns (r: Result<()>)
    requires v.Valid()
    modifies v.home`lp
    ensures v.Valid()
    ensures r.Ok? <==> old(v.Live())
    ensures r.Err? ==> r.error == Disposed() && unchanged(v.home)
    ensures r.Ok? ==> v.GetLowerBound() == Ok(NormalLower(AsReal(b.lower)))
    ensures r.Ok? ==> v.GetUpperBound() == Ok(NormalUpper(AsReal(b.upper)))
    ensures r.Ok? ==> v.Column() == old(v.Column()).(bnds := v.Column().bnds)
    ensures r.Ok? ==> v.home.lp.value == old(v.home.lp.value).(cols := old(v.home.lp.value.cols)[v.col - 1 := v.Column()])
  {
    var s := v.SetLowerBound(b.lower);
    if s.Err? {
      return Err(s.error);
    }
    s := v.SetUpperBound(b.upper);
    return Ok(());
  }

  /** `bound.restore(constraint)`: the lower bound, then the upper bound. */
  method RestoreConstraint(b: Bound, c: Constraint) returns (r: Result<()>)
    requires c.Valid()
    modifies c.home`lp
    ensures c.Valid()
    ensures r.Ok? <==> old(c.Live())
    ensures r.Err? ==> r.error == Disposed() && unchanged(c.home)
    ensures r.Ok? ==> c.GetLowerBound() == Ok(NormalLower(AsReal(b.lower)))
    ensures r.Ok? ==> c.GetUpperBound() == Ok(NormalUpper(AsReal(b.upper)))
    ensures r.Ok? ==> c.Row() == old(c.Row()).(bnds := c.Row().bnds)
    ensures r.Ok? ==> c.home.lp.value == old(c.home.lp.value).(rows := old(c.home.lp.value.rows)[c.row - 1 := c.Row()])
  {
    var s := c.SetLowerBound(b.lower);
    if s.Err? {
      return Err(s.error);
    }
    s := c.SetUpperBound(b.upper);
    return Ok(());
  }

  /** `Variables.isFixed(var)`: a set lower bound equal to the upper bound. */
  function IsFixed(v: Variable): (r: Result<bool>)
    requires v.Valid()
    reads v, v.home, v.home.variables, v.home.constraints
    ensures r.Ok? <==> v.Live()
    ensures r.Err? ==> r.error == Disposed()
    ensures r.Ok? ==> (r.value <==> Lower(v.Column().bnds).Some? && Lower(v.Column().bnds) == Upper(v.Column().bnds))
    ensures r.Ok? && Lower(v.Column().bnds).None? ==> !r.value
    ensures r.Ok? && Lower(v.Column().bnds).Some? && Upper(v.Column().bnds).None? ==> !r.value
  {
    var lb := v.GetLowerBound();
    if lb.Err? then Err(lb.error)
    else
      var ub := v.GetUpperBound();
      Ok(lb.value.Some? && ub.value.Some? && lb.value.value == ub.value.value)
  }

  /** Both bounds satisfied: a null side always holds (`isSatisfied`'s range test). */
  predicate InRange(lb: Option<real>, ub: Option<real>, x: real) {
    (lb.None? || lb.value <= x) && (ub.None? || x <= ub.value)
  }

  /** A `ConstraintSnapshot`: a captured name, an immutable copy of the linear and the bounds. */
  class ConstraintSnapshot {
    const name: Option<string>
    const linear: ImmutableLinear<Variable>
    const bound: Bound

    /** The constructor once its null checks passed. */
    constructor(name: Option<string>, linear: ConcreteLinear<Variable>, bound: Bound)
      ensures this.name == name && this.bound == bound
      ensures this.linear.terms == linear.Elements() && fresh(this.linear)
    {
      this.name := name;
      this.linear := new ImmutableLinear.FromLinear(linear);
      this.bound := bound;
    }

    /**
     * `restore(lp)`: `lp.addConstraint(name, linear, lower, upper)`, so a
     * live constraint of that name makes it fail with a duplicate name.
     */
    method Restore(lp: Problem?) returns (r: Result<Constraint>)
      requires lp != null ==> lp.Valid()
      modifies lp
      ensures lp != null ==> lp.Valid()
      ensures lp == null ==> r == Err(IllegalArgument)
      ensures lp != null && old(lp.lp).None? ==> r == Err(Disposed()) && unchanged(lp)
      ensures lp != null && old(lp.lp).Some? && old(lp.CheckConstraintName(name)).Err? ==>
        r == Err(old(lp.CheckConstraintName(name)).error) && unchanged(lp)
      ensures lp != null && old(lp.lp).Some? && old(lp.CheckConstraintName(name)).Ok? && TooLong(name) ==>
        r == Err(IllegalArgument)
      ensures lp != null && old(lp.lp).Some? && old(lp.CheckConstraintName(name)).Ok? && !TooLong(name) &&
              LB.CheckLinear(Some(linear.terms), DisposedIn(linear.terms)).Err? ==>
        r == Err(IllegalArgument)
      ensures lp != null && old(lp.lp).Some? && old(lp.CheckConstraintName(name)).Ok? && !TooLong(name) &&
              LB.CheckLinear(Some(linear.terms), DisposedIn(linear.terms)).Ok? ==>
        (r.Ok? <==> N.MatRowAccepted(ElemsOf(linear.terms), |lp.variables|))
      ensures r.Ok? ==> r.value.Valid() && r.value.Live()
      ensures r.Ok? ==> r.value.GetName() == Ok(N.StoredName(name))
      ensures r.Ok? ==> r.value.Row().elems == N.NonZero(ElemsOf(linear.terms))
      ensures r.Ok? ==> r.value.GetLowerBound() == Ok(NormalLower(AsReal(bound.lower)))
      ensures r.Ok? ==> r.value.GetUpperBound() == Ok(NormalUpper(AsReal(bound.upper)))
    {
      if lp == null {
        return Err(IllegalArgument);
      }
      r := lp.AddConstraintWith(name, Some(linear.terms), bound.lower, bound.upper);
    }
  }

  /** `new ConstraintSnapshot(name, linear, bound)`: a null bound or a null linear is refused. */
  method NewConstraintSnapshot(name: Option<string>, linear: ConcreteLinear?<Variable>, bound: Option<Bound>)
    returns (r: Result<ConstraintSnapshot>)
    ensures bound.None? || linear == null <==> r.Err?
    ensures r.Err? ==> r.error == IllegalArgument
    ensures r.Ok? ==> r.value.name == name && r.value.bound == bound.value
    ensures r.Ok? ==> r.value.linear.terms == linear.Elements()
  {
    if bound.None? {
      return Err(IllegalArgument);
    }
    if linear == null {
      return Err(IllegalArgument);
    }
    var snapshot := new ConstraintSnapshot(name, linear, bound.value);
    return Ok(snapshot);
  }

  /**
   * `ConstraintSnapshot.create(constraint)`: a null or disposed constraint is
   * an illegal argument; otherwise its name, bounds and linear are captured.
   */
  method CaptureConstraint(c: Constraint?) returns (r: Result<ConstraintSnapshot>)
    requires c != null ==> c.Valid()
    ensures c == null || c.IsDisposed() ==> r == Err(IllegalArgument)
    ensures c != null && !c.IsDisposed() && c.home.lp.None? ==> r == Err(Disposed())
    ensures c != null && c.Live() ==> r.Ok?
    ensures r.Ok? ==> c != null && c.Live() && r.value.name == c.Row().name
    ensures r.Ok? ==> AsReal(r.value.bound.lower) == Lower(c.Row().bnds)
    ensures r.Ok? ==> AsReal(r.value.bound.upper) == Upper(c.Row().bnds)
    ensures r.Ok? ==> r.value.linear.terms == RowTerms(c.Row().elems, c.home.variables)
  {
    if c == null || c.IsDisposed() {
      return Err(IllegalArgument);
    }
    var name := c.GetName();
    if name.Err? {
      return Err(name.error);
    }
    var bound := ConstraintBound(c);
    var linear := c.GetLinear();
    r := NewConstraintSnapshot(name.value, linear.value, Some(bound.value));
  }

  /**
   * The value of a row's linear under a snapshot: the sum over the terms
   * `getLinear` rebuilds, or an error when a variable has no value.
   */
  ghost function RowSum(c: Constraint, values: map<Variable, real>): (r: Result<real>)
    requires c.Valid() && c.Live()
    reads c, c.home, c.home.variables, c.home.constraints
  {
    var ts := RowTerms(c.Row().elems, c.home.variables);
    if Linears.Covers(ts, values) then Ok(Linears.Sum(ts, values)) else Err(NullPointer)
  }

  /**
   * A `ValueSnapshot`: values captured once and never updated in place;
   * `put`, `putAll`, `remove` and `clear` throw.
   */
  datatype ValueSnapshot = ValueSnapshot(values: map<Variable, real>)
  {
    method Put(v: Variable, x: Number) returns (r: Result<Option<Number>>)
      ensures r == Err(UnsupportedOperation)
    {
      r := Err(UnsupportedOperation);
    }

    method PutAll(m: map<Variable, Number>) returns (r: Result<()>)
      ensures r == Err(UnsupportedOperation)
    {
      r := Err(UnsupportedOperation);
    }

    method Remove(v: Variable) returns (r: Result<Option<Number>>)
      ensures r == Err(UnsupportedOperation)
    {
      r := Err(UnsupportedOperation);
    }

    method Clear() returns (r: Result<()>)
      ensures r == Err(UnsupportedOperation)
    {
      r := Err(UnsupportedOperation);
    }
  }

  /**
   * `Constraints.isSatisfied(constraint, snapshot)`: the value of the
   * constraint's linear lies within its bounds.
   */
  method IsSatisfied(c: Constraint?, snapshot: Option<ValueSnapshot>) returns (r: Result<bool>)
    requires c != null ==> c.Valid()
    ensures c == null || snapshot.None? ==> r == Err(IllegalArgument)
    ensures c != null && snapshot.Some? && !c.Live() ==> r == Err(Disposed())
    ensures c != null && snapshot.Some? && c.Live() ==>
      (RowSum(c, snapshot.value.values).Err? ==> r == Err(NullPointer)) &&
      (RowSum(c, snapshot.value.values).Ok? ==>
         r == Ok(InRange(Lower(c.Row().bnds), Upper(c.Row().bnds), RowSum(c, snapshot.value.values).value)))
  {
    if c == null || snapshot.None? {
      return Err(IllegalArgument);
    }
    var linear := c.GetLinear();
    if linear.Err? {
      return Err(linear.error);
    }
    var ts := linear.value.Elements();
    r := SatisfiedBy(c, ts, snapshot.value.values);
  }

  /** The rest of `isSatisfied` once the row's terms are known: their value, then the bounds. */
  method SatisfiedBy(c: Constraint, ts: seq<Term<Variable>>, values: map<Variable, real>) returns (r: Result<bool>)
    requires c.Valid() && c.Live()
    requires ts == RowTerms(c.Row().elems, c.home.variables)
    ensures RowSum(c, values).Err? ==> r == Err(NullPointer)
    ensures RowSum(c, values).Ok? ==> r == Ok(InRange(Lower(c.Row().bnds), Upper(c.Row().bnds), RowSum(c, values).value))
  {
    var value := Linears.Compute(ts, Some(values));
    if value.Err? {
      return Err(value.error);
    }
    var lb := c.GetLowerBound();
    var ub := c.GetUpperBound();
    return Ok((lb.value.None? || lb.value.value <= value.value) && (ub.value.None? || ub.value.value >= value.value));
  }

  /** The bounds of a live variable read back as a bound prescribes once written. */
  ghost predicate Restored(v: Variable, b: Bound)
    requires v.Valid() && v.Live()
    reads v, v.home, v.home.variables, v.home.constraints
  {
    Lower(v.Column().bnds) == NormalLower(AsReal(b.lower)) &&
    Upper(v.Column().bnds) == NormalUpper(AsReal(b.upper))
  }

  /** A captured bound restores the very bounds it was captured from. */
  lemma CaptureThenRestore(v: Variable)
    requires v.Valid() && v.Live()
    ensures VariableBound(v).Ok? && Restored(v, VariableBound(v).value)
  {
    CapturedBoundsReadBack(v.Column().bnds);
  }

  /**
   * One step of `BoundSnapshot.restore`: restoring `w` leaves every other
   * variable valid, exactly as live as before, and keeps the variables
   * already restored restored.
   */
  method RestoreOne(w: Variable, bounds: map<Variable, Bound>, ghost todo: set<Variable>) returns (r: Result<()>)
    requires w in todo && todo <= bounds.Keys
    requires forall v :: v in bounds ==> v.Valid()
    requires forall v :: v in bounds && v !in todo ==> v.Live() && Restored(v, bounds[v])
    modifies w.home`lp
    ensures forall v :: v in bounds ==> v.Valid() && (v.Live() <==> old(v.Live()))
    ensures r.Ok? <==> old(w.Live())
    ensures r.Err? ==> r.error == Disposed()
    ensures r.Ok? ==> forall v :: v in bounds && v !in todo - {w} ==> v.Live() && Restored(v, bounds[v])
  {
    r := RestoreVariable(bounds[w], w);
    forall v | v in bounds && v != w
      ensures v.Valid() && (v.Live() <==> old(v.Live()))
      ensures old(v.Live()) ==> v.Column() == old(v.Column())
    {
      if v.home == w.home && old(v.Live()) && r.Ok? {
        assert v.home.variables[v.col - 1] == v;
        assert v.col != w.col;
      }
    }
  }

  /** A `BoundSnapshot`: bounds captured once and never updated in place; `put`, `remove` and `clear` throw. */
  datatype BoundSnapshot = BoundSnapshot(bounds: map<Variable, Bound>)
  {
    /** `getLower(var)`: null for a variable not in the snapshot. */
    function GetLower(v: Variable): (r: Option<Number>)
      ensures v !in bounds ==> r.None?
      ensures v in bounds ==> r == bounds[v].lower
    {
      if v in bounds then bounds[v].lower else None
    }

    /** `getUpper(var)`: null for a variable not in the snapshot. */
    function GetUpper(v: Variable): (r: Option<Number>)
      ensures v !in bounds ==> r.None?
      ensures v in bounds ==> r == bounds[v].upper
    {
      if v in bounds then bounds[v].upper else None
    }

    method Put(v: Variable, b: Bound) returns (r: Result<Option<Bound>>)
      ensures r == Err(UnsupportedOperation)
    {
      r := Err(UnsupportedOperation);
    }

    method PutAll(m: map<Variable, Bound>) returns (r: Result<()>)
      ensures r == Err(UnsupportedOperation)
    {
      r := Err(UnsupportedOperation);
    }

    method Remove(v: Variable) returns (r: Result<Option<Bound>>)
      ensures r == Err(UnsupportedOperation)
    {
      r := Err(UnsupportedOperation);
    }

    method Clear() returns (r: Result<()>)
      ensures r == Err(UnsupportedOperation)
    {
      r := Err(UnsupportedOperation);
    }

    /**
     * `restore()`: writes each captured bound back, in no fixed order; the
     * first disposed variable stops it.
     */
    method Restore() returns (r: Result<()>)
      requires forall v :: v in bounds ==> v.Valid()
      modifies (set v | v in bounds :: v.home)`lp
      ensures forall v :: v in bounds ==> v.Valid()
      ensures r.Ok? <==> forall v :: v in bounds ==> old(v.Live())
      ensures r.Err? ==> r.error == Disposed()
      ensures r.Ok? ==> forall v :: v in bounds ==> v.Live() && Restored(v, bounds[v])
    {
      var todo := bounds.Keys;
      while todo != {}
        invariant todo <= bounds.Keys
        invariant forall v :: v in bounds ==> v.Valid() && (v.Live() <==> old(v.Live()))
        invariant forall v :: v in bounds && v !in todo ==> v.Live() && Restored(v, bounds[v])
        decreases |todo|
      {
        var w :| w in todo;
        var s := RestoreOne(w, bounds, todo);
        if s.Err? {
          return Err(s.error);
        }
        RemoveShrinks(todo, w);
        todo := todo - {w};
      }
      return Ok(());
    }
  }

  /**
   * `BoundSnapshot.create(vars)`: the bounds of every variable of the
   * collection; a disposed one makes it fail.
   */
  method CreateBoundSnapshot(vars: seq<Variable>) returns (r: Result<BoundSnapshot>)
    requires forall k :: 0 <= k < |vars| ==> vars[k].Valid()
    ensures r.Ok? <==> forall k :: 0 <= k < |vars| ==> vars[k].Live()
    ensures r.Err? ==> r.error == Disposed()
    ensures r.Ok? ==> r.value.bounds.Keys == Elems(vars)
    ensures r.Ok? ==> forall v :: v in r.value.bounds ==> v.Valid() && v.Live() && r.value.bounds[v] == VariableBound(v).value
  {
    var m: map<Variable, Bound> := map[];
    var k := 0;
    while k < |vars|
      invariant 0 <= k <= |vars|
      invariant forall j :: 0 <= j < k ==> vars[j].Live()
      invariant m.Keys == Elems(vars[..k])
      invariant forall v :: v in m ==> v.Valid() && v.Live() && m[v] == VariableBound(v).value
    {
      var b := VariableBound(vars[k]);
      if b.Err? {
        return Err(b.error);
      }
      assert vars[..k + 1] == vars[..k] + [vars[k]];
      m := m[vars[k] := b.value];
      k := k + 1;
    }
    assert vars[..k] == vars;
    return Ok(BoundSnapshot(m));
  }

  /** Every variable of a fresh `BoundSnapshot` already has the bounds it would restore. */
  lemma SnapshotReadsBack(vars: seq<Variable>, bounds: map<Variable, Bound>)
    requires Elems(vars) == bounds.Keys
    requires forall v :: v in bounds ==> v.Valid() && v.Live() && bounds[v] == VariableBound(v).value
    ensures forall k :: 0 <= k < |vars| ==> vars[k] in bounds && Restored(vars[k], bounds[vars[k]])
  {
    forall k | 0 <= k < |vars|
      ensures vars[k] in bounds && Restored(vars[k], bounds[vars[k]])
    {
      assert vars[k] in Elems(vars);
      CaptureThenRestore(vars[k]);
    }
  }

  /** A variable `getValue` answers for: live, and its problem has a solution. */
  ghost predicate Ready(v: Variable)
    reads v, v.home`lp, v.home`status
  {
    !v.IsDisposed() && v.home.lp.Some? && v.home.status.Some? && Types.SolutionAvailable(v.home.status.value)
  }

  /** `Ready` reads only the fields it needs, so a MIP cache update keeps it. */
  lemma ReadyMeans(v: Variable)
    ensures Ready(v) <==> v.Live() && v.home.CheckSolution().Ok?
  {
  }

  /**
   * `ValueSnapshot.create(vars)`: the value of every variable of the
   * collection in the current solution.  Only MIP caches may change.
   */
  method CreateValueSnapshot(vars: seq<Variable>) returns (r: Result<ValueSnapshot>)
    requires forall k :: 0 <= k < |vars| ==> vars[k].Valid()
    modifies (set k | 0 <= k < |vars| :: vars[k].home)`mip
    ensures forall k :: 0 <= k < |vars| ==> vars[k].Valid()
    ensures r.Ok? <==> forall k :: 0 <= k < |vars| ==> vars[k].Live() && vars[k].home.CheckSolution().Ok?
    ensures r.Ok? ==> r.value.values.Keys == Elems(vars)
    ensures r.Ok? ==> forall k :: 0 <= k < |vars| ==> vars[k].Valid() && vars[k].Live() && r.value.values[vars[k]] == ColumnValue(vars[k].home.lp.value, vars[k].col)
  {
    var c := CollectValues(vars);
    if c.Err? {
      return Err(c.error);
    }
    return Ok(ValueSnapshot(ByPosition(vars, c.value)));
  }

  /**
   * The map `ValueSnapshot.create` fills: each variable to the value taken
   * at its position; a variable listed twice has the same value both times.
   */
  function ByPosition<K>(keys: seq<K>, vals: seq<real>): (m: map<K, real>)
    requires |vals| == |keys|
    requires forall i, j :: 0 <= i < |keys| && 0 <= j < |keys| && keys[i] == keys[j] ==> vals[i] == vals[j]
    ensures m.Keys == Elems(keys)
    ensures forall k :: 0 <= k < |keys| ==> keys[k] in m && m[keys[k]] == vals[k]
  {
    if keys == [] then map[]
    else
      var m := ByPosition(keys[1..], vals[1..]);
      assert forall k :: 0 < k < |keys| ==> keys[k] == keys[1..][k - 1];
      m[keys[0] := vals[0]]
  }

  /**
   * The `getValue` calls of `ValueSnapshot.create`, in the order of the
   * collection: the values by position, or the first failure.
   */
  method CollectValues(vars: seq<Variable>) returns (r: Result<seq<real>>)
    requires forall k :: 0 <= k < |vars| ==> vars[k].Valid()
    modifies (set k | 0 <= k < |vars| :: vars[k].home)`mip
    ensures forall k :: 0 <= k < |vars| ==> vars[k].Valid()
    ensures r.Ok? <==> forall k :: 0 <= k < |vars| ==> vars[k].Live() && vars[k].home.CheckSolution().Ok?
    ensures r.Ok? ==> |r.value| == |vars|
    ensures r.Ok? ==> forall k :: 0 <= k < |vars| ==> vars[k].Valid() && vars[k].Live() && r.value[k] == ColumnValue(vars[k].home.lp.value, vars[k].col)
  {
    var vals: seq<real> := [];
    var k := 0;
    while k < |vars|
      invariant 0 <= k <= |vars| && |vals| == k
      invariant forall j :: 0 <= j < |vars| ==> vars[j].Valid()
      invariant forall j :: 0 <= j < k ==> Ready(vars[j])
      invariant forall j :: 0 <= j < k ==>
        vars[j].Valid() && vars[j].Live() && vals[j] == ColumnValue(vars[j].home.lp.value, vars[j].col)
    {
      var x := AppendValue(vars, k, vals);
      if x.Err? {
        ReadyMeans(vars[k]);
        return Err(x.error);
      }
      vals := x.value;
      k := k + 1;
    }
    forall j | 0 <= j < |vars| ensures vars[j].Live() && vars[j].home.CheckSolution().Ok? {
      ReadyMeans(vars[j]);
    }
    return Ok(vals);
  }

  /** One turn of `ValueSnapshot.create`'s loop: the variable's value added after the earlier ones. */
  method AppendValue(vars: seq<Variable>, k: nat, vals: seq<real>) returns (r: Result<seq<real>>)
    requires k < |vars| && |vals| == k
    requires forall j :: 0 <= j < |vars| ==> vars[j].Valid()
    requires forall j :: 0 <= j < k ==> Ready(vars[j])
    requires forall j :: 0 <= j < k ==>
      vars[j].Valid() && vars[j].Live() && vals[j] == ColumnValue(vars[j].home.lp.value, vars[j].col)
    modifies vars[k].home`mip
    ensures forall j :: 0 <= j < |vars| ==> vars[j].Valid()
    ensures r.Ok? <==> Ready(vars[k])
    ensures r.Ok? ==> forall j :: 0 <= j < k + 1 ==> Ready(vars[j])
    ensures r.Err? ==> !old(vars[k].Live()) || vars[k].home.CheckSolution().Err?
    ensures r.Ok? ==> |r.value| == k + 1
    ensures r.Ok? ==> forall j :: 0 <= j < k + 1 ==>
      vars[j].Valid() && vars[j].Live() && r.value[j] == ColumnValue(vars[j].home.lp.value, vars[j].col)
  {
    var x := ValueStep(vars, k);
    if x.Err? {
      return Err(x.error);
    }
    r := Ok(vals + [x.value]);
  }

  /**
   * The `getValue` call itself.  Only the MIP cache of the variable's problem
   * may change, so every variable of the collection stays valid, with the
   * same native problem and the same solution check.
   */
  method ValueStep(vars: seq<Variable>, k: nat) returns (r: Result<real>)
    requires k < |vars|
    requires forall j :: 0 <= j < |vars| ==> vars[j].Valid()
    requires forall j :: 0 <= j < k ==> Ready(vars[j])
    modifies vars[k].home`mip
    ensures forall j :: 0 <= j < |vars| ==> vars[j].Valid()
    ensures forall j :: 0 <= j < |vars| ==> vars[j].home.lp == old(vars[j].home.lp)
    ensures forall j :: 0 <= j < |vars| ==> vars[j].Live() == old(vars[j].Live())
    ensures r.Ok? <==> Ready(vars[k])
    ensures r.Ok? ==> forall j :: 0 <= j < k + 1 ==> Ready(vars[j])
    ensures r.Err? ==> !old(vars[k].Live()) || vars[k].home.CheckSolution().Err?
    ensures r.Ok? ==> vars[k].Valid() && vars[k].Live() && r.value == ColumnValue(vars[k].home.lp.value, vars[k].col)
  {
    var w := vars[k];
    r := w.GetValue();
    forall j | 0 <= j < |vars|
      ensures vars[j].Valid()
      ensures vars[j].home.lp == old(vars[j].home.lp)
      ensures vars[j].Live() == old(vars[j].Live())
      ensures j < k ==> Ready(vars[j])
      ensures j == k && r.Ok? ==> Ready(vars[j])
    {
      if vars[j].home == w.home {
        assert w.home.Valid();
      } else {
        assert unchanged(vars[j].home);
      }
    }
  }

  /**
   * `Constraints.release(constraint)`: a snapshot of the constraint, then its
   * disposal.
   */
  method Release(c: Constraint?) returns (r: Result<ConstraintSnapshot>)
    requires c != null ==> c.Valid()
    modifies if c == null then {} else {c.home}, if c == null then [] else c.home.constraints
    ensures c == null || old(c.IsDisposed()) ==> r == Err(IllegalArgument)
    ensures c != null ==> c.Valid()
    ensures c != null && !old(c.IsDisposed()) && old(c.home.lp).None? ==> r == Err(Disposed())
    ensures c != null && old(c.Live()) ==>
      r.Ok? && c.IsDisposed() &&
      r.value.name == old(c.Row().name) &&
      AsReal(r.value.bound.lower) == old(Lower(c.Row().bnds)) &&
      AsReal(r.value.bound.upper) == old(Upper(c.Row().bnds)) &&
      r.value.linear.terms == old(RowTerms(c.Row().elems, c.home.variables)) &&
      c.home.lp == Some(N.DelRow(old(c.home.lp.value), old(c.row)))
  {
    if c == null || c.IsDisposed() {
      return Err(IllegalArgument);
    }
    r := CaptureConstraint(c);
    if r.Err? {
      return r;
    }
    var d := c.Dispose();
  }
}
