/**
 * The utilities of the legacy `ilp` tree (`com.patrikdufresne.ilp.util`:
 * `BoundSnapshot`, `ConstraintSnapshot`, `Variables`) run against the
 * legacy GLPK variables and constraints.  A variable reports its bounds
 * boxed for its type, so an integer variable's bounds are captured as
 * truncated `Integer`s; a constraint reports `Double`s.
 */
module LegacyUtil {
  import opened Wrappers
  import opened Numbers
  import opened Types
  import opened Terms
  import opened LinearExpr
  import opened ILPErrors
  import opened Bounds
  import N = GLPKNative
  import opened GLPKBounds
  import opened GLPKRows
  import opened LegacyGLPK
  import LB = LinearBuilders

  /** `new Bound(var.getLowerBound(), var.getUpperBound())`, as `BoundSnapshot.create` captures it. */
  function VariableBound(v: Variable): (r: Result<Bound>)
    requires v.Valid()
    reads v, v.home, v.home.variables, v.home.constraints
    ensures r.Ok? <==> v.Live()
    ensures r.Err? ==> r.error == Disposed()
    ensures r.Ok? ==> r.value == Captured(v.Column())
  {
    var lb := v.GetLowerBound();
    if lb.Err? then Err(lb.error)
    else
      var ub := v.GetUpperBound();
      Ok(Bound(lb.value, ub.value))
  }

  /** The bound a column's getters report: each side boxed for the column's type. */
  function Captured(c: N.Col): Bound {
    Bound(Valued(ColType(c), Lower(c.bnds)), Valued(ColType(c), Upper(c.bnds)))
  }

  /** `new Bound(constraint.getLowerBound(), constraint.getUpperBound())`. */
  function ConstraintBound(c: Constraint): (r: Result<Bound>)
    requires c.Valid()
    reads c, c.home, c.home.variables, c.home.constraints
    ensures r.Ok? <==> c.Live()
    ensures r.Err? ==> r.error == Disposed()
    ensures r.Ok? ==> AsReal(r.value.lower) == Lower(c.Row().bnds) && AsReal(r.value.upper) == Upper(c.Row().bnds)
  {
    var lb := c.GetLowerBound();
    if lb.Err? then Err(lb.error)
    else
      var ub := c.GetUpperBound();
      Ok(Bound(Boxed(lb.value), Boxed(ub.value)))
  }

  /**
   * The bounds of a live variable once `b` was written back with
   * `setLowerBound` then `setUpperBound`: the upper bound as written, the
   * lower bound as written and then re-read (boxed) by `setUpperBound`.
   */
  ghost predicate Restored(v: Variable, b: Bound)
    requires v.Valid() && v.Live()
    reads v, v.home, v.home.variables, v.home.constraints
  {
    Lower(v.Column().bnds) == AsReal(Valued(ColType(v.Column()), NormalLower(AsReal(b.lower)))) &&
    Upper(v.Column().bnds) == NormalUpper(AsReal(b.upper))
  }

  /**
   * One entry of `BoundSnapshot.restore`: the lower bound, then the upper
   * bound.  Only the bounds of this variable's column change, and the
   * problem is marked dirty.
   */
  method RestoreVariable(b: Bound, v: Variable) returns (r: Result<()>)
    requires v.Valid()
    modifies v.home`lp, v.home`dirty
    ensures v.Valid()
    ensures r.Ok? <==> old(v.Live())
    ensures r.Err? ==> r.error == Disposed() && unchanged(v.home)
    ensures r.Ok? ==> v.Live() && v.home.dirty && Restored(v, b)
    ensures r.Ok? ==> v.Column() == old(v.Column()).(bnds := v.Column().bnds)
    ensures r.Ok? ==> v.home.lp.value.rows == old(v.home.lp.value.rows)
    ensures r.Ok? ==> v.home.lp.value.cols == old(v.home.lp.value.cols)[v.col - 1 := v.Column()]
  {
    var s := v.SetLowerBound(b.lower);
    if s.Err? {
      return Err(s.error);
    }
    ghost var c1 := v.Column();
    s := v.SetUpperBound(b.upper);
    ValuedByIntegrality(c1, v.Column(), NormalLower(AsReal(b.lower)));
    return Ok(());
  }

  /** `Value` tells only REAL from the integer types, and those follow the column's integrality. */
  lemma ValuedByIntegrality(c: N.Col, d: N.Col, x: Option<real>)
    requires c.integer == d.integer
    ensures Valued(ColType(c), x) == Valued(ColType(d), x)
  {
  }

  /** A whole number within the range of `int` survives Java's `(int)` cast. */
  lemma WholeCastsBack(k: int)
    requires INT_MIN <= k <= INT_MAX
    ensures IntCast(k as real) == k
  {
    if k < 0 {
      assert -(k as real) == (-k) as real;
      assert ((-k) as real).Floor == -k;
    }
  }

  /**
   * A bound captured from a column and written back to a column of the same
   * integrality reads back as captured: the truncation happens once, at
   * capture, and restoring is then exact.
   */
  lemma CaptureThenRestore(c: N.Col, d: N.Col)
    requires d.integer == c.integer
    requires Lower(d.bnds) == AsReal(Valued(ColType(d), NormalLower(AsReal(Captured(c).lower))))
    requires Upper(d.bnds) == NormalUpper(AsReal(Captured(c).upper))
    ensures Captured(d) == Captured(c)
  {
    var t := ColType(c);
    ValuedByIntegrality(c, d, Lower(c.bnds));
    if t != REAL {
      if Lower(c.bnds).Some? {
        WholeCastsBack(IntCast(Lower(c.bnds).value));
      }
      if Upper(c.bnds).Some? {
        var k := IntCast(Upper(c.bnds).value);
        WholeCastsBack(k);
        ValuedByIntegrality(c, d, Some(k as real));
      }
    } else {
      ValuedByIntegrality(c, d, Upper(c.bnds));
    }
  }

  /**
   * Restoring a captured bound is not exact for the stored bounds
   * themselves: an INTEGER column bounded by [0.5, 7.5] is captured as
   * [0, 7] and restored as [0, 7].
   */
  lemma RestoreOfFractionalIsTruncated()
    ensures var c := N.Col(None, true, N.Bnds(N.DB, 0.5, 7.5), 0.0, 0.0, 0.0, 0.0);
      Captured(c) == Bound(Some(IntNum(0)), Some(IntNum(7))) &&
      AsReal(Captured(c).lower) == Some(0.0) && AsReal(Captured(c).upper) == Some(7.0)
  {
    assert (0.5).Floor == 0;
    assert (7.5).Floor == 7;
  }

  /**
   * `Variables.isFixed(var)`: a non-null lower bound `equals` to the upper
   * bound.  Both are boxed for the same type, so `equals` compares the
   * values GLPK holds for a REAL variable and their truncations otherwise.
   */
  function IsFixed(v: Variable): (r: Result<bool>)
    requires v.Valid()
    reads v, v.home, v.home.variables, v.home.constraints
    ensures r.Ok? <==> v.Live()
    ensures r.Err? ==> r.error == Disposed()
    ensures r.Ok? && Lower(v.Column().bnds).None? ==> !r.value
    ensures r.Ok? && Upper(v.Column().bnds).None? ==> !r.value
    ensures r.Ok? && ColType(v.Column()) == REAL ==>
      (r.value <==> Lower(v.Column().bnds).Some? && Lower(v.Column().bnds) == Upper(v.Column().bnds))
    ensures r.Ok? && ColType(v.Column()) != REAL ==>
      (r.value <==> Lower(v.Column().bnds).Some? && Upper(v.Column().bnds).Some? &&
                    IntCast(Lower(v.Column().bnds).value) == IntCast(Upper(v.Column().bnds).value))
  {
    var lb := v.GetLowerBound();
    if lb.Err? then Err(lb.error)
    else
      var ub := v.GetUpperBound();
      Ok(lb.value.Some? && ub.value.Some? && JavaEquals(lb.value.value, ub.value.value))
  }

  /** An INTEGER column bounded by [2.25, 2.75] holds no integer, yet `isFixed` reports it fixed. */
  lemma FractionalRangeReadsFixed()
    ensures var c := N.Col(None, true, N.Bnds(N.DB, 2.25, 2.75), 0.0, 0.0, 0.0, 0.0);
      ColType(c) == INTEGER && Lower(c.bnds) != Upper(c.bnds) &&
      IntCast(Lower(c.bnds).value) == IntCast(Upper(c.bnds).value)
  {
    assert (2.25).Floor == 2;
    assert (2.75).Floor == 2;
  }

  /**
   * One step of `BoundSnapshot.restore`: restoring `w` leaves every other
   * variable valid, exactly as live as before, and keeps the variables
   * already restored restored.
   */
  method RestoreOne(w: Variable, bounds: map<Variable, Bound>, ghost todo: set<Variable>) returns (r: Result<()>)
    requires w in todo && todo <= bounds.Keys
    requires forall v :: v in bounds ==> v.Valid()
    requires forall v :: v in bounds && v !in todo ==> v.Live() && Restored(v, bounds[v])
    modifies w.home`lp, w.home`dirty
    ensures forall v :: v in bounds ==> v.Valid() && (v.Live() <==> old(v.Live()))
    ensures r.Ok? <==> old(w.Live())
    ensures r.Err? ==> r.error == Disposed()
    ensures r.Ok? ==> forall v :: v in bounds && v !in todo - {w} ==> v.Live() && Restored(v, bounds[v])
  {
    r := RestoreVariable(bounds[w], w);
    forall v | v in bounds && v != w
      ensures v.Valid() && (v.Live() <==> old(v.Live()))
      ensures old(v.Live()) ==> v.Column() == old(v.Column())
    {
      if v.home == w.home && old(v.Live()) && r.Ok? {
        assert v.home.variables[v.col - 1] == v && w.home.variables[w.col - 1] == w;
        assert v.col != w.col;
      }
    }
  }

  /** A legacy `BoundSnapshot`: bounds captured once and never updated in place; `put`, `remove` and `clear` throw. */
  datatype BoundSnapshot = BoundSnapshot(bounds: map<Variable, Bound>)
  {
    /** `getLower(var)`: null for a variable not in the snapshot. */
    function GetLower(v: Variable): (r: Option<Number>)
      ensures v !in bounds ==> r.None?
      ensures v in bounds ==> r == bounds[v].lower
    {
      if v in bounds then bounds[v].lower else None
    }

    /** `getUpper(var)`: null for a variable not in the snapshot. */
    function GetUpper(v: Variable): (r: Option<Number>)
      ensures v !in bounds ==> r.None?
      ensures v in bounds ==> r == bounds[v].upper
    {
      if v in bounds then bounds[v].upper else None
    }

    method Put(v: Variable, b: Bound) returns (r: Result<Option<Bound>>)
      ensures r == Err(UnsupportedOperation)
    {
      r := Err(UnsupportedOperation);
    }

    method PutAll(m: map<Variable, Bound>) returns (r: Result<()>)
      ensures r == Err(UnsupportedOperation)
    {
      r := Err(UnsupportedOperation);
    }

    method Remove(v: Variable) returns (r: Result<Option<Bound>>)
      ensures r == Err(UnsupportedOperation)
    {
      r := Err(UnsupportedOperation);
    }

    method Clear() returns (r: Result<()>)
      ensures r == Err(UnsupportedOperation)
    {
      r := Err(UnsupportedOperation);
    }

    /**
     * `restore()`: writes each captured bound back, in no fixed order; the
     * first disposed variable stops it.
     */
    method Restore() returns (r: Result<()>)
      requires forall v :: v in bounds ==> v.Valid()
      modifies (set v | v in bounds :: v.home)`lp, (set v | v in bounds :: v.home)`dirty
      ensures forall v :: v in bounds ==> v.Valid()
      ensures r.Ok? <==> forall v :: v in bounds ==> old(v.Live())
      ensures r.Err? ==> r.error == Disposed()
      ensures r.Ok? ==> forall v :: v in bounds ==> v.Live() && Restored(v, bounds[v])
    {
      var todo := bounds.Keys;
      while todo != {}
        invariant todo <= bounds.Keys
        invariant forall v :: v in bounds ==> v.Valid() && (v.Live() <==> old(v.Live()))
        invariant forall v :: v in bounds && v !in todo ==> v.Live() && Restored(v, bounds[v])
        decreases |todo|
      {
        var w :| w in todo;
        var s := RestoreOne(w, bounds, todo);
        if s.Err? {
          return Err(s.error);
        }
        RemoveShrinks(todo, w);
        todo := todo - {w};
      }
      return Ok(());
    }
  }

  /**
   * `BoundSnapshot.create(vars)`: the bounds every variable of the
   * collection reports; a disposed one makes it fail.
   */
  method CreateBoundSnapshot(vars: seq<Variable>) returns (r: Result<BoundSnapshot>)
    requires forall k :: 0 <= k < |vars| ==> vars[k].Valid()
    ensures r.Ok? <==> forall k :: 0 <= k < |vars| ==> vars[k].Live()
    ensures r.Err? ==> r.error == Disposed()
    ensures r.Ok? ==> r.value.bounds.Keys == Elems(vars)
    ensures r.Ok? ==> forall v :: v in r.value.bounds ==> v.Valid() && v.Live() && r.value.bounds[v] == Captured(v.Column())
  {
    var m: map<Variable, Bound> := map[];
    var k := 0;
    while k < |vars|
      invariant 0 <= k <= |vars|
      invariant forall j :: 0 <= j < k ==> vars[j].Live()
      invariant m.Keys == Elems(vars[..k])
      invariant forall v :: v in m ==> v.Valid() && v.Live() && m[v] == Captured(v.Column())
    {
      var b := VariableBound(vars[k]);
      if b.Err? {
        return Err(b.error);
      }
      assert vars[..k + 1] == vars[..k] + [vars[k]];
      m := m[vars[k] := b.value];
      k := k + 1;
    }
    assert vars[..k] == vars;
    return Ok(BoundSnapshot(m));
  }

  /** A captured variable whose integrality is unchanged reports its captured bound again after `restore`. */
  lemma SnapshotRestoresCaptured(v: Variable, captured: N.Col, b: Bound)
    requires v.Valid() && v.Live() && b == Captured(captured)
    requires v.Column().integer == captured.integer && Restored(v, b)
    ensures VariableBound(v) == Ok(b)
  {
    CaptureThenRestore(captured, v.Column());
  }

  /** A legacy `ConstraintSnapshot`: a captured name, bounds and, for a non-empty row, an immutable linear. */
  class ConstraintSnapshot {
    const name: Option<string>
    /** Null when the captured constraint was empty. */
    const linear: ImmutableLinear?<Variable>
    const bound: Bound

    /** The constructor once its null check on the bound passed. */
    constructor(name: Option<string>, linear: ConcreteLinear?<Variable>, bound: Bound)
      ensures this.name == name && this.bound == bound
      ensures linear == null ==> this.linear == null
      ensures linear != null ==> this.linear != null && fresh(this.linear) && this.linear.terms == linear.Elements()
    {
      this.name := name;
      if linear == null {
        this.linear := null;
      } else {
        this.linear := new ImmutableLinear.FromLinear(linear);
      }
      this.bound := bound;
    }

    /** The terms `restore` writes, nothing for a null linear. */
    function Terms(): seq<Term<Variable>>
      reads this
    {
      if linear == null then [] else linear.terms
    }

    /**
     * `restore(lp)`: a new constraint, then its name, then its linear when
     * there is one, then its lower and upper bounds.  A failing step leaves
     * the constraint added.
     */
    method Restore(lp: Problem?) returns (r: Result<Constraint>)
      requires lp != null ==> lp.Valid()
      modifies lp
      ensures lp != null ==> lp.Valid()
      ensures lp == null ==> r == Err(IllegalArgument)
      ensures lp != null && old(lp.lp).None? ==> r == Err(Disposed()) && unchanged(lp)
      ensures lp != null && old(lp.lp).Some? ==> |lp.constraints| == |old(lp.constraints)| + 1 && lp.dirty
      ensures lp != null && old(lp.lp).Some? && TooLong(name) ==> r == Err(IllegalArgument)
      ensures lp != null && old(lp.lp).Some? && !TooLong(name) && linear == null ==> r.Ok?
      ensures lp != null && old(lp.lp).Some? && !TooLong(name) && linear != null &&
              LB.CheckLinear(Some(linear.terms), DisposedIn(linear.terms)).Err? ==>
        r == Err(IllegalArgument)
      ensures lp != null && old(lp.lp).Some? && !TooLong(name) && linear != null &&
              LB.CheckLinear(Some(linear.terms), DisposedIn(linear.terms)).Ok? ==>
        (r.Ok? <==> N.MatRowAccepted(ElemsOf(linear.terms), |lp.variables|))
      ensures r.Ok? ==> r.value.Valid() && r.value.Live() && r.value.GetName() == Ok(N.StoredName(name))
      ensures r.Ok? ==> r.value.Row().elems == N.NonZero(ElemsOf(Terms()))
      ensures r.Ok? ==> r.value.GetLowerBound() == Ok(NormalLower(AsReal(bound.lower)))
      ensures r.Ok? ==> r.value.GetUpperBound() == Ok(NormalUpper(AsReal(bound.upper)))
    {
      if lp == null {
        return Err(IllegalArgument);
      }
      r := lp.AddConstraint();
      if r.Err? {
        return;
      }
      var c := r.value;
      assert c.home == lp by {
        assert lp.constraints[|lp.constraints| - 1] == c;
      }
      ghost var vs := lp.variables;
      r := Configure(c);
      assert lp.variables == vs;
    }

    /** The steps of `restore` once the constraint exists. */
    method Configure(c: Constraint) returns (r: Result<Constraint>)
      requires c.Valid() && c.Live() && c.Row() == N.NewRow
      modifies c.home`lp, c.home`dirty
      ensures c.Valid() && |c.home.constraints| == old(|c.home.constraints|) && c.home.dirty
      ensures TooLong(name) ==> r == Err(IllegalArgument)
      ensures !TooLong(name) && linear == null ==> r.Ok?
      ensures !TooLong(name) && linear != null &&
              LB.CheckLinear(Some(linear.terms), DisposedIn(linear.terms)).Err? ==>
        r == Err(IllegalArgument)
      ensures !TooLong(name) && linear != null &&
              LB.CheckLinear(Some(linear.terms), DisposedIn(linear.terms)).Ok? ==>
        (r.Ok? <==> N.MatRowAccepted(ElemsOf(linear.terms), |c.home.variables|))
      ensures r.Ok? ==> r.value == c && c.Live() && c.GetName() == Ok(N.StoredName(name))
      ensures r.Ok? ==> c.Row().elems == N.NonZero(ElemsOf(Terms()))
      ensures r.Ok? ==> c.GetLowerBound() == Ok(NormalLower(AsReal(bound.lower)))
      ensures r.Ok? ==> c.GetUpperBound() == Ok(NormalUpper(AsReal(bound.upper)))
    {
      var s := c.SetName(name);
      if s.Err? {
        return Err(s.error);
      }
      assert c.home.dirty;
      r := WriteRow(c);
    }

    /** `setLinear` when there is a linear, then `setLowerBound` and `setUpperBound`. */
    method WriteRow(c: Constraint) returns (r: Result<Constraint>)
      requires c.Valid() && c.Live() && c.Row().elems == [] && c.home.dirty
      modifies c.home`lp, c.home`dirty
      ensures c.Valid() && c.home.dirty
      ensures linear == null ==> r.Ok?
      ensures linear != null && LB.CheckLinear(Some(linear.terms), DisposedIn(linear.terms)).Err? ==>
        r == Err(IllegalArgument)
      ensures linear != null && LB.CheckLinear(Some(linear.terms), DisposedIn(linear.terms)).Ok? ==>
        (r.Ok? <==> N.MatRowAccepted(ElemsOf(linear.terms), |c.home.variables|))
      ensures r.Ok? ==> r.value == c && c.Live() && c.Row().name == old(c.Row().name)
      ensures r.Ok? ==> c.Row().elems == N.NonZero(ElemsOf(Terms()))
      ensures r.Ok? ==> c.GetLowerBound() == Ok(NormalLower(AsReal(bound.lower)))
      ensures r.Ok? ==> c.GetUpperBound() == Ok(NormalUpper(AsReal(bound.upper)))
    {
      if linear != null {
        var s := c.SetLinear(Some(linear.terms));
        if s.Err? {
          return Err(s.error);
        }
      }
      WriteBounds(c, bound);
      return Ok(c);
    }
  }

  /** `setLowerBound` then `setUpperBound` on a live constraint: its name and elements are kept. */
  method WriteBounds(c: Constraint, bound: Bound)
    requires c.Valid() && c.Live()
    modifies c.home`lp, c.home`dirty
    ensures c.Valid() && c.Live() && c.home.dirty
    ensures c.Row().name == old(c.Row().name) && c.Row().elems == old(c.Row().elems)
    ensures c.GetLowerBound() == Ok(NormalLower(AsReal(bound.lower)))
    ensures c.GetUpperBound() == Ok(NormalUpper(AsReal(bound.upper)))
  {
    var s := c.SetLowerBound(bound.lower);
    s := c.SetUpperBound(bound.upper);
  }

  /** `new ConstraintSnapshot(name, linear, bound)`: only a null bound is refused; the linear may be null. */
  method NewConstraintSnapshot(name: Option<string>, linear: ConcreteLinear?<Variable>, bound: Option<Bound>)
    returns (r: Result<ConstraintSnapshot>)
    ensures bound.None? <==> r.Err?
    ensures r.Err? ==> r.error == IllegalArgument
    ensures r.Ok? ==> r.value.name == name && r.value.bound == bound.value
    ensures r.Ok? ==> (r.value.linear == null <==> linear == null)
    ensures r.Ok? && linear != null ==> r.value.Terms() == linear.Elements()
  {
    if bound.None? {
      return Err(IllegalArgument);
    }
    var snapshot := new ConstraintSnapshot(name, linear, bound.value);
    return Ok(snapshot);
  }

  /**
   * `ConstraintSnapshot.create(constraint)`: a null or disposed constraint
   * is an illegal argument; otherwise its name, bounds and linear (null for
   * an empty row) are captured.
   */
  method CaptureConstraint(c: Constraint?) returns (r: Result<ConstraintSnapshot>)
    requires c != null ==> c.Valid()
    ensures c == null || c.IsDisposed() ==> r == Err(IllegalArgument)
    ensures c != null && !c.IsDisposed() && c.home.lp.None? ==> r == Err(Disposed())
    ensures c != null && c.Live() ==> r.Ok?
    ensures r.Ok? ==> c != null && c.Live() && r.value.name == c.Row().name
    ensures r.Ok? ==> AsReal(r.value.bound.lower) == Lower(c.Row().bnds)
    ensures r.Ok? ==> AsReal(r.value.bound.upper) == Upper(c.Row().bnds)
    ensures r.Ok? ==> (r.value.linear == null <==> c.Row().elems == [])
    ensures r.Ok? ==> r.value.Terms() == RowTerms(c.Row().elems, c.home.variables)
  {
    if c == null || c.IsDisposed() {
      return Err(IllegalArgument);
    }
    var name := c.GetName();
    if name.Err? {
      return Err(name.error);
    }
    var bound := ConstraintBound(c);
    var linear := c.GetLinear();
    if linear.value.None? {
      r := NewConstraintSnapshot(name.value, null, Some(bound.value));
      assert RowTerms(c.Row().elems, c.home.variables) == [];
    } else {
      r := NewConstraintSnapshot(name.value, linear.value.value, Some(bound.value));
    }
  }
}
