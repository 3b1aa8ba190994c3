/**
 * The part of the CBC solver interface (an `OsiClpSolverInterface` reached
 * through the cbc4j bindings) that the CBC wrapper calls, as a value.
 * Columns and rows are numbered from 0; every row holds one coefficient per
 * column.  The bindings themselves are not part of this model: each call is
 * given the meaning of the `OsiSolverInterface` operation it is named after.
 */
module CbcNative {
  import opened Wrappers

  /** `COIN_DBL_MAX`, what `getInfinity` reports for the Clp interface. */
  const COIN_DBL_MAX: real := 179769313486231570814527423731704356798070567525844996598917476803157260780028538760589558632766878171540458953514382464234321326889464182768467546703537516986049910576551282076245490090389328944075868508455133942304583236903222948165808559332123348274797826204144723168738177180919299881250404026184124858368.0

  /** A column: its name, bounds, integrality and objective coefficient. */
  datatype Col = Col(name: string, lower: real, upper: real, integer: bool, obj: real)

  /** A row: its name, bounds and one coefficient per column. */
  datatype Row = Row(name: string, lower: real, upper: real, coefs: seq<real>)

  /** A problem: the objective sense (1 minimises, -1 maximises), columns and rows. */
  datatype Lp = Lp(sense: real, cols: seq<Col>, rows: seq<Row>)

  /** One entry of the parallel column/coefficient arrays the wrapper passes. */
  datatype Elem = Elem(col: int, val: real)

  /** Every row is as wide as the column list. */
  predicate Wf(lp: Lp) {
    forall i :: 0 <= i < |lp.rows| ==> |lp.rows[i].coefs| == |lp.cols|
  }

  /** `newOsiClpSolverInterface`: empty, minimising. */
  function Create(): (lp: Lp)
    ensures Wf(lp) && lp.cols == [] && lp.rows == [] && lp.sense == 1.0
  {
    Lp(1.0, [], [])
  }

  function Zeros(n: nat): (z: seq<real>)
    ensures |z| == n && forall j :: 0 <= j < n ==> z[j] == 0.0
  {
    seq(n, _ => 0.0)
  }

  /** Every column index of `es` names a column of a problem with `n` columns. */
  predicate InRange(es: seq<Elem>, n: int) {
    forall k :: 0 <= k < |es| ==> 0 <= es[k].col < n
  }

  /** The coefficients after each `(col, val)` of `es` was written in turn. */
  function Written(coefs: seq<real>, es: seq<Elem>): (w: seq<real>)
    requires InRange(es, |coefs|)
    ensures |w| == |coefs|
    decreases |es|
  {
    if es == [] then coefs
    else Written(coefs[es[0].col := es[0].val], es[1..])
  }

  /** The value the last entry of `es` for column `j` carries, if any. */
  function LastWrite(es: seq<Elem>, j: int): (r: Option<real>)
    ensures r.None? <==> forall k :: 0 <= k < |es| ==> es[k].col != j
  {
    if es == [] then None
    else
      var rest := LastWrite(es[1..], j);
      assert forall k :: 1 <= k < |es| ==> es[k] == es[1..][k - 1];
      if rest.Some? then rest
      else if es[0].col == j then Some(es[0].val)
      else None
  }

  /** Writing `es` sets each column to its last written value and leaves every other column alone. */
  lemma {:induction false} WrittenSpec(coefs: seq<real>, es: seq<Elem>)
    requires InRange(es, |coefs|)
    ensures forall j :: 0 <= j < |coefs| ==>
      Written(coefs, es)[j] == (if LastWrite(es, j).Some? then LastWrite(es, j).value else coefs[j])
    decreases |es|
  {
    if es != [] {
      var next := coefs[es[0].col := es[0].val];
      assert InRange(es[1..], |next|) by {
        assert forall k :: 0 <= k < |es[1..]| ==> es[1..][k] == es[k + 1];
      }
      WrittenSpec(next, es[1..]);
    }
  }

  /** With distinct columns, the last write to a column is its only write. */
  lemma {:induction false} LastWriteDistinct(es: seq<Elem>, k: int)
    requires 0 <= k < |es|
    requires forall a, b :: 0 <= a < b < |es| ==> es[a].col != es[b].col
    ensures LastWrite(es, es[k].col) == Some(es[k].val)
  {
    if k > 0 {
      assert forall a, b :: 0 <= a < b < |es[1..]| ==> es[1..][a].col != es[1..][b].col by {
        assert forall a :: 0 <= a < |es[1..]| ==> es[1..][a] == es[a + 1];
      }
      LastWriteDistinct(es[1..], k - 1);
    } else {
      assert forall a :: 0 <= a < |es[1..]| ==> es[1..][a] == es[a + 1];
    }
  }

  /**
   * `addCol(lp, 0, [], [], lower, upper, 0)`: a new continuous, unnamed
   * column with objective 0 and coefficient 0 in every row.
   */
  function AddCol(lp: Lp, lower: real, upper: real): (q: Lp)
    requires Wf(lp)
    ensures Wf(q) && q.sense == lp.sense
    ensures q.cols == lp.cols + [Col("", lower, upper, false, 0.0)]
    ensures |q.rows| == |lp.rows|
    ensures forall i :: 0 <= i < |q.rows| ==>
      q.rows[i] == lp.rows[i].(coefs := lp.rows[i].coefs + [0.0])
  {
    lp.(cols := lp.cols + [Col("", lower, upper, false, 0.0)],
        rows := seq(|lp.rows|, i requires 0 <= i < |lp.rows| => lp.rows[i].(coefs := lp.rows[i].coefs + [0.0])))
  }

  /** `deleteCols(lp, 1, [j])`: column `j` leaves the column list and every row. */
  function DeleteCol(lp: Lp, j: int): (q: Lp)
    requires Wf(lp) && 0 <= j < |lp.cols|
    ensures Wf(q) && q.sense == lp.sense
    ensures q.cols == lp.cols[..j] + lp.cols[j + 1..]
    ensures |q.rows| == |lp.rows|
    ensures forall i :: 0 <= i < |q.rows| ==>
      q.rows[i] == lp.rows[i].(coefs := lp.rows[i].coefs[..j] + lp.rows[i].coefs[j + 1..])
  {
    lp.(cols := lp.cols[..j] + lp.cols[j + 1..],
        rows := seq(|lp.rows|, i requires 0 <= i < |lp.rows| =>
          lp.rows[i].(coefs := lp.rows[i].coefs[..j] + lp.rows[i].coefs[j + 1..])))
  }

  /**
   * `addRow(lp, n, columns, coefs, lower, upper)`: a new unnamed row whose
   * coefficients are the listed ones and 0 elsewhere.  A column the problem
   * does not have is refused.
   */
  function AddRow(lp: Lp, es: seq<Elem>, lower: real, upper: real): (r: Result<Lp>)
    requires Wf(lp)
    ensures r.Ok? <==> InRange(es, |lp.cols|)
    ensures r.Err? ==> r.error == Native
    ensures r.Ok? ==> (Wf(r.value) && r.value.cols == lp.cols && r.value.sense == lp.sense &&
      r.value.rows == lp.rows + [Row("", lower, upper, Written(Zeros(|lp.cols|), es))])
  {
    if !InRange(es, |lp.cols|) then Err(Native)
    else Ok(lp.(rows := lp.rows + [Row("", lower, upper, Written(Zeros(|lp.cols|), es))]))
  }

  /** `deleteRows(lp, 1, [i])`. */
  function DeleteRow(lp: Lp, i: int): (q: Lp)
    requires Wf(lp) && 0 <= i < |lp.rows|
    ensures Wf(q) && q.cols == lp.cols && q.sense == lp.sense
    ensures q.rows == lp.rows[..i] + lp.rows[i + 1..]
  {
    lp.(rows := lp.rows[..i] + lp.rows[i + 1..])
  }

  /** `setCoefficients(lp, i, n, columns, coefs)`: each listed coefficient of row `i` written in turn. */
  function SetCoefficients(lp: Lp, i: int, es: seq<Elem>): (r: Result<Lp>)
    requires Wf(lp) && 0 <= i < |lp.rows|
    ensures r.Ok? <==> InRange(es, |lp.cols|)
    ensures r.Err? ==> r.error == Native
    ensures r.Ok? ==> (Wf(r.value) && r.value.cols == lp.cols && r.value.sense == lp.sense &&
      r.value.rows == lp.rows[i := lp.rows[i].(coefs := Written(lp.rows[i].coefs, es))])
  {
    if !InRange(es, |lp.cols|) then Err(Native)
    else Ok(lp.(rows := lp.rows[i := lp.rows[i].(coefs := Written(lp.rows[i].coefs, es))]))
  }

  /** `getObjCoefficients`: one coefficient per column. */
  function ObjCoefficients(lp: Lp): (c: seq<real>)
    ensures |c| == |lp.cols| && forall j :: 0 <= j < |lp.cols| ==> c[j] == lp.cols[j].obj
  {
    seq(|lp.cols|, j requires 0 <= j < |lp.cols| => lp.cols[j].obj)
  }

  /** `setObjCoefficients(lp, n, columns, coefs)`: each listed objective coefficient written in turn. */
  function SetObjCoefficients(lp: Lp, es: seq<Elem>): (r: Result<Lp>)
    requires Wf(lp)
    ensures r.Ok? <==> InRange(es, |lp.cols|)
    ensures r.Err? ==> r.error == Native
    ensures r.Ok? ==> (Wf(r.value) && r.value.rows == lp.rows && r.value.sense == lp.sense &&
      |r.value.cols| == |lp.cols| &&
      ObjCoefficients(r.value) == Written(ObjCoefficients(lp), es) &&
      forall j :: 0 <= j < |lp.cols| ==> r.value.cols[j] == lp.cols[j].(obj := r.value.cols[j].obj))
  {
    if !InRange(es, |lp.cols|) then Err(Native)
    else
      var w := Written(ObjCoefficients(lp), es);
      var q := lp.(cols := seq(|lp.cols|, j requires 0 <= j < |lp.cols| => lp.cols[j].(obj := w[j])));
      assert ObjCoefficients(q) == w;
      Ok(q)
  }

  /** A column replaced in place; rows and sense unchanged. */
  function WithCol(lp: Lp, j: int, c: Col): (q: Lp)
    requires Wf(lp) && 0 <= j < |lp.cols|
    ensures Wf(q) && q.cols == lp.cols[j := c] && q.rows == lp.rows && q.sense == lp.sense
  {
    lp.(cols := lp.cols[j := c])
  }

  /** A row's name or bounds replaced in place; its coefficients unchanged. */
  function WithRow(lp: Lp, i: int, name: string, lower: real, upper: real): (q: Lp)
    requires Wf(lp) && 0 <= i < |lp.rows|
    ensures Wf(q) && q.cols == lp.cols && q.sense == lp.sense
    ensures q.rows == lp.rows[i := Row(name, lower, upper, lp.rows[i].coefs)]
  {
    lp.(rows := lp.rows[i := Row(name, lower, upper, lp.rows[i].coefs)])
  }

  /**
   * `isBinary`: an integer column whose bounds are each 0 or 1.  `isInteger`
   * is the integrality flag and `isContinuous` its negation.
   */
  predicate IsBinary(c: Col) {
    c.integer && (c.lower == 0.0 || c.lower == 1.0) && (c.upper == 0.0 || c.upper == 1.0)
  }
}
