/**
 * The part of the OR-Tools linear solver (`MPSolver`, `MPObjective`,
 * `MPVariable`, `MPConstraint`, reached through its Java bindings) that the
 * OR-Tools wrapper calls, as values.  Coefficients are kept in maps keyed by
 * the variable they belong to; a null variable is `None`.  The bindings are
 * not part of this model: each call is given the meaning the OR-Tools
 * documentation states for it.
 */
module ORNative {
  import opened Wrappers

  /**
   * `MPSolver.infinity()` is IEEE positive infinity, which no real is; it
   * stands here as 2^1024, the first power of two past every finite double,
   * so no finite bound a caller passes is equal to it.
   */
  const INFINITY: real := 179769313486231590772930519078902473361797697894230657273430081157732675805500963132708477322407536021120113879871393357658789768814416622492847430639474124377767893424865485276302219601246094119453082952085005768838150682342462881473913110540827237163350510684586298239947245938479716304835356329624224137216.0

  /** A variable: its name, bounds, integrality and the value the last solve gave it. */
  datatype Var = Var(name: string, lb: real, ub: real, integer: bool, solutionValue: real)

  /** A constraint: its name, bounds, coefficients and the dual value of the last solve. */
  datatype Con<V> = Con(name: string, lb: real, ub: real, coefs: map<V, real>, dualValue: real)

  /** A solver: its name, the objective's direction and coefficients, and the last objective value. */
  datatype Solver<V> = Solver(name: string, maximize: bool, obj: map<V, real>, objectiveValue: real)

  /** One `setCoefficient(var, coef)` call. */
  datatype Write<V> = Write(key: Option<V>, coef: real)

  /** `new MPSolver(name, type)`: a minimising solver with an empty objective. */
  function Create<V(==)>(name: string): (s: Solver<V>)
    ensures s.name == name && !s.maximize && s.obj == map[]
  {
    Solver(name, false, map[], 0.0)
  }

  /** `makeVar(lb, ub, integer, name)`. */
  function MakeVar(lb: real, ub: real, integer: bool, name: string): (v: Var)
    ensures v.lb == lb && v.ub == ub && v.integer == integer && v.name == name
  {
    Var(name, lb, ub, integer, 0.0)
  }

  /** `makeBoolVar(name)`: an integer variable bounded by [0,1]. */
  function MakeBoolVar(name: string): (v: Var)
    ensures v == MakeVar(0.0, 1.0, true, name)
  {
    MakeVar(0.0, 1.0, true, name)
  }

  /** `makeConstraint(name)`: unbounded and empty; `makeConstraint()` is the same with an empty name. */
  function MakeConstraint<V(==)>(name: string): (c: Con<V>)
    ensures c.name == name && c.lb == -INFINITY && c.ub == INFINITY && c.coefs == map[]
  {
    Con(name, -INFINITY, INFINITY, map[], 0.0)
  }

  /** `getCoefficient(var)`: 0 for a null variable or one without a coefficient. */
  function Coefficient<V(==)>(m: map<V, real>, key: Option<V>): (x: real)
    ensures key.None? ==> x == 0.0
    ensures key.Some? && key.value in m ==> x == m[key.value]
    ensures key.Some? && key.value !in m ==> x == 0.0
  {
    if key.None? || key.value !in m then 0.0 else m[key.value]
  }

  /** `setCoefficient(var, coef)`: a null variable is ignored. */
  function SetCoefficient<V(==)>(m: map<V, real>, key: Option<V>, coef: real): (q: map<V, real>)
    ensures key.None? ==> q == m
    ensures key.Some? ==> Coefficient(q, key) == coef
    ensures q.Keys <= m.Keys + (if key.None? then {} else {key.value})
    ensures forall x :: x in m.Keys + q.Keys && Some(x) != key ==> Coefficient(q, Some(x)) == Coefficient(m, Some(x))
  {
    if key.None? then m else m[key.value := coef]
  }

  /** `MPObjective.clear()`: no coefficient is left and the direction returns to minimisation. */
  function ClearObjective<V(==)>(s: Solver<V>): (q: Solver<V>)
    ensures q.obj == map[] && !q.maximize
    ensures q.name == s.name && q.objectiveValue == s.objectiveValue
  {
    s.(obj := map[], maximize := false)
  }

  /** The coefficients after each write of `ws` in turn. */
  function Applied<V(==)>(m: map<V, real>, ws: seq<Write<V>>): map<V, real>
    decreases |ws|
  {
    if ws == [] then m else Applied(SetCoefficient(m, ws[0].key, ws[0].coef), ws[1..])
  }

  /** The coefficient the last write of `ws` to `x` gives, if any. */
  function LastWrite<V(==)>(ws: seq<Write<V>>, x: V): (r: Option<real>)
    ensures r.None? <==> forall k :: 0 <= k < |ws| ==> ws[k].key != Some(x)
    decreases |ws|
  {
    if ws == [] then None
    else
      var rest := LastWrite(ws[1..], x);
      assert forall k :: 1 <= k < |ws| ==> ws[k] == ws[1..][k - 1];
      if rest.Some? then rest
      else if ws[0].key == Some(x) then Some(ws[0].coef)
      else None
  }

  /** Applying `ws` gives each variable its last written coefficient and leaves the others alone. */
  lemma {:induction false} AppliedSpec<V>(m: map<V, real>, ws: seq<Write<V>>, x: V)
    ensures Coefficient(Applied(m, ws), Some(x)) ==
      (if LastWrite(ws, x).Some? then LastWrite(ws, x).value else Coefficient(m, Some(x)))
    decreases |ws|
  {
    if ws != [] {
      AppliedSpec(SetCoefficient(m, ws[0].key, ws[0].coef), ws[1..], x);
    }
  }

  /** With distinct keys, the last write to a key is its only write. */
  lemma {:induction false} LastWriteDistinct<V>(ws: seq<Write<V>>, k: int)
    requires 0 <= k < |ws| && ws[k].key.Some?
    requires forall a, b :: 0 <= a < b < |ws| ==> ws[a].key != ws[b].key
    ensures LastWrite(ws, ws[k].key.value) == Some(ws[k].coef)
    decreases |ws|
  {
    assert forall a :: 0 <= a < |ws[1..]| ==> ws[1..][a] == ws[a + 1];
    if k > 0 {
      LastWriteDistinct(ws[1..], k - 1);
    }
  }
}
