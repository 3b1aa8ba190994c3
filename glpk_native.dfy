/**
 * The part of the GLPK C library the Java wrappers drive, as a value: a
 * problem object with its columns, rows, constraint matrix and objective.
 * Every `glp_*` call the wrappers make is a function from the old problem
 * to the new one (or to the value it reports).  Column and row numbers are
 * 1-based, as in GLPK.  A call GLPK rejects with a fatal error is `Err(Native)`.
 */
module GLPKNative {
  import opened Wrappers

  /** `DBL_MAX` of C, `Double.MAX_VALUE` of Java: reported for a missing bound. */
  const DBL_MAX: real := 179769313486231570814527423731704356798070567525844996598917476803157260780028538760589558632766878171540458953514382464234321326889464182768467546703537516986049910576551282076245490090389328944075868508455133942304583236903222948165808559332123348274797826204144723168738177180919299881250404026184124858368.0

  /** `GLP_FR`, `GLP_LO`, `GLP_UP`, `GLP_DB`, `GLP_FX`. */
  datatype BndType = FR | LO | UP | DB | FX

  /** The kind `glp_get_col_kind` reports: `GLP_CV`, `GLP_IV` or `GLP_BV`. */
  datatype ColKind = CV | IV | BV

  /** A bound type with the two stored values. */
  datatype Bnds = Bnds(typ: BndType, lb: real, ub: real)

  /** One element of the constraint matrix in a row: column number and value. */
  datatype Elem = Elem(col: int, val: real)

  /** `prim`, `mipVal` and `dual` are what the last simplex and MIP solutions reported. */
  datatype Col = Col(name: Option<string>, integer: bool, bnds: Bnds, coef: real,
                     prim: real, mipVal: real, dual: real)

  datatype Row = Row(name: Option<string>, bnds: Bnds, elems: seq<Elem>, prim: real, mipVal: real, dual: real)

  /**
   * `objVal` and `mipObjVal` are what the last simplex and MIP solutions
   * reported; `lpStatus`, `mipStatus`, `primStat` and `dualStat` are the
   * codes `glp_get_status`, `glp_mip_status`, `glp_get_prim_stat` and
   * `glp_get_dual_stat` report.
   */
  datatype Prob = Prob(name: Option<string>, objName: Option<string>, maximize: bool, c0: real,
                       cols: seq<Col>, rows: seq<Row>, objVal: real, mipObjVal: real,
                       lpStatus: int, mipStatus: int, primStat: int, dualStat: int)

  /** The solution status codes of `glpk.h`. */
  const GLP_UNDEF: int := 1
  const GLP_FEAS: int := 2
  const GLP_INFEAS: int := 3
  const GLP_NOFEAS: int := 4
  const GLP_OPT: int := 5
  const GLP_UNBND: int := 6

  /** Which values `glp_set_col_bnds`/`glp_set_row_bnds` keep for each type. */
  function SetBnds(typ: BndType, lb: real, ub: real): (b: Bnds)
    ensures b.typ == typ
    ensures typ in {LO, DB, FX} ==> b.lb == lb
    ensures typ in {UP, DB} ==> b.ub == ub
    ensures typ == FX ==> b.ub == lb
  {
    match typ
    case FR => Bnds(FR, 0.0, 0.0)
    case LO => Bnds(LO, lb, 0.0)
    case UP => Bnds(UP, 0.0, ub)
    case DB => Bnds(DB, lb, ub)
    case FX => Bnds(FX, lb, lb)
  }

  /** `glp_get_col_lb`/`glp_get_row_lb`: `-DBL_MAX` when there is no lower bound. */
  function Lb(b: Bnds): real {
    if b.typ == FR || b.typ == UP then -DBL_MAX else b.lb
  }

  /** `glp_get_col_ub`/`glp_get_row_ub`: `+DBL_MAX` when there is no upper bound. */
  function Ub(b: Bnds): real {
    if b.typ == FR || b.typ == LO then DBL_MAX else b.ub
  }

  /** `glp_get_col_kind`: an integer column double-bounded by 0 and 1 is reported binary. */
  function KindOf(c: Col): ColKind {
    if !c.integer then CV
    else if c.bnds.typ == DB && c.bnds.lb == 0.0 && c.bnds.ub == 1.0 then BV
    else IV
  }

  /** A row's elements name existing columns, each at most once, with non-zero values. */
  predicate RowWf(es: seq<Elem>, n: int) {
    (forall k :: 0 <= k < |es| ==> 1 <= es[k].col <= n && es[k].val != 0.0) &&
    (forall k, l :: 0 <= k < l < |es| ==> es[k].col != es[l].col)
  }

  predicate Wf(p: Prob) {
    forall i :: 0 <= i < |p.rows| ==> RowWf(p.rows[i].elems, |p.cols|)
  }

  /** `glp_create_prob`: no name, minimisation, no rows and no columns. */
  function Create(): (p: Prob)
    ensures Wf(p) && p.cols == [] && p.rows == [] && !p.maximize
  {
    Prob(None, None, false, 0.0, [], [], 0.0, 0.0, GLP_UNDEF, GLP_UNDEF, GLP_UNDEF, GLP_UNDEF)
  }

  /** The column `glp_add_cols` appends: continuous, fixed at zero, no name, zero objective. */
  const NewCol: Col := Col(None, false, Bnds(FX, 0.0, 0.0), 0.0, 0.0, 0.0, 0.0)

  /** The row `glp_add_rows` appends: free, empty, no name. */
  const NewRow: Row := Row(None, Bnds(FR, 0.0, 0.0), [], 0.0, 0.0, 0.0)

  /** `glp_add_cols(lp, 1)`; the new column's number is `|cols| + 1`. */
  function AddCol(p: Prob): (q: Prob)
    requires Wf(p)
    ensures Wf(q) && q.cols == p.cols + [NewCol] && q.rows == p.rows
    ensures q == p.(cols := p.cols + [NewCol])
  {
    p.(cols := p.cols + [NewCol])
  }

  /** `glp_add_rows(lp, 1)`; the new row's number is `|rows| + 1`. */
  function AddRow(p: Prob): (q: Prob)
    requires Wf(p)
    ensures Wf(q) && q == p.(rows := p.rows + [NewRow])
  {
    p.(rows := p.rows + [NewRow])
  }

  /** A row's elements once column `j` is deleted: its element goes, later columns shift down. */
  function DropCol(es: seq<Elem>, j: int): (r: seq<Elem>)
    ensures |r| <= |es|
  {
    if es == [] then []
    else
      var rest := DropCol(es[1..], j);
      if es[0].col == j then rest
      else [Elem(if es[0].col > j then es[0].col - 1 else es[0].col, es[0].val)] + rest
  }

  lemma {:induction false} DropColElems(es: seq<Elem>, j: int, e: Elem)
    ensures e in DropCol(es, j) <==>
      exists k :: 0 <= k < |es| && es[k].col != j && es[k].val == e.val &&
        e.col == (if es[k].col > j then es[k].col - 1 else es[k].col)
  {
    if es != [] {
      DropColElems(es[1..], j, e);
      if exists k :: 0 <= k < |es[1..]| && es[1..][k].col != j && es[1..][k].val == e.val &&
          e.col == (if es[1..][k].col > j then es[1..][k].col - 1 else es[1..][k].col)
      {
        var k :| 0 <= k < |es[1..]| && es[1..][k].col != j && es[1..][k].val == e.val &&
          e.col == (if es[1..][k].col > j then es[1..][k].col - 1 else es[1..][k].col);
        assert es[k + 1] == es[1..][k];
      }
      if exists k :: 0 <= k < |es| && es[k].col != j && es[k].val == e.val &&
          e.col == (if es[k].col > j then es[k].col - 1 else es[k].col)
      {
        var k :| 0 <= k < |es| && es[k].col != j && es[k].val == e.val &&
          e.col == (if es[k].col > j then es[k].col - 1 else es[k].col);
        if k > 0 {
          assert es[1..][k - 1] == es[k];
        }
      }
    }
  }

  lemma {:induction false} DropColWf(es: seq<Elem>, n: int, j: int)
    requires RowWf(es, n) && 1 <= j <= n
    ensures RowWf(DropCol(es, j), n - 1)
  {
    if es != [] {
      assert RowWf(es[1..], n);
      DropColWf(es[1..], n, j);
      if es[0].col != j {
        var c := if es[0].col > j then es[0].col - 1 else es[0].col;
        DropColMisses(es, j, c);
        PrependWf(Elem(c, es[0].val), DropCol(es[1..], j), n - 1);
      }
    }
  }

  /** The renumbered head column is not among the renumbered tail columns. */
  lemma DropColMisses(es: seq<Elem>, j: int, c: int)
    requires es != [] && es[0].col != j
    requires forall k :: 1 <= k < |es| ==> es[0].col != es[k].col
    requires c == if es[0].col > j then es[0].col - 1 else es[0].col
    ensures forall e | e in DropCol(es[1..], j) :: e.col != c
  {
    forall e | e in DropCol(es[1..], j) ensures e.col != c {
      DropColElems(es[1..], j, e);
      var k :| 0 <= k < |es[1..]| && es[1..][k].col != j && es[1..][k].val == e.val &&
        e.col == (if es[1..][k].col > j then es[1..][k].col - 1 else es[1..][k].col);
      assert es[1..][k] == es[k + 1];
    }
  }

  /** Prepending an element whose column the rest does not use keeps a row well formed. */
  lemma PrependWf(h: Elem, rest: seq<Elem>, n: int)
    requires RowWf(rest, n) && 1 <= h.col <= n && h.val != 0.0
    requires forall e | e in rest :: e.col != h.col
    ensures RowWf([h] + rest, n)
  {
    var r := [h] + rest;
    forall k, l | 0 <= k < l < |r| ensures r[k].col != r[l].col {
      if k == 0 {
        assert r[l] in rest;
      } else {
        assert r[k] == rest[k - 1] && r[l] == rest[l - 1];
      }
    }
  }

  /** `glp_del_cols` of one column: it leaves the matrix and later columns are renumbered. */
  function DelCol(p: Prob, j: int): (q: Prob)
    requires Wf(p) && 1 <= j <= |p.cols|
    ensures Wf(q)
    ensures q.cols == p.cols[..j - 1] + p.cols[j..]
    ensures |q.rows| == |p.rows|
    ensures forall i :: 0 <= i < |p.rows| ==>
      q.rows[i] == p.rows[i].(elems := DropCol(p.rows[i].elems, j))
    ensures q.name == p.name && q.objName == p.objName && q.maximize == p.maximize && q.c0 == p.c0
  {
    var rows := seq(|p.rows|, i requires 0 <= i < |p.rows| =>
      p.rows[i].(elems := DropCol(p.rows[i].elems, j)));
    forall i | 0 <= i < |rows| ensures RowWf(rows[i].elems, |p.cols| - 1) {
      DropColWf(p.rows[i].elems, |p.cols|, j);
    }
    p.(cols := p.cols[..j - 1] + p.cols[j..], rows := rows)
  }

  /** `glp_del_rows` of one row: later rows are renumbered. */
  function DelRow(p: Prob, i: int): (q: Prob)
    requires Wf(p) && 1 <= i <= |p.rows|
    ensures Wf(q) && q == p.(rows := p.rows[..i - 1] + p.rows[i..])
  {
    var q := p.(rows := p.rows[..i - 1] + p.rows[i..]);
    assert forall k :: 0 <= k < |q.rows| ==> q.rows[k] == (if k < i - 1 then p.rows[k] else p.rows[k + 1]);
    q
  }

  /** `glp_set_prob_name`. */
  function SetProbName(p: Prob, name: Option<string>): (q: Prob)
    requires Wf(p)
    ensures Wf(q) && q == p.(name := StoredName(name))
  {
    p.(name := StoredName(name))
  }

  /** `glp_set_obj_name`. */
  function SetObjName(p: Prob, name: Option<string>): (q: Prob)
    requires Wf(p)
    ensures Wf(q) && q == p.(objName := StoredName(name))
  {
    p.(objName := StoredName(name))
  }

  /** A null or empty name erases the name (`glp_set_*_name`). */
  function StoredName(name: Option<string>): (r: Option<string>)
    ensures r.Some? <==> name.Some? && name.value != ""
    ensures r.Some? ==> r == name
  {
    if name.None? || name.value == "" then None else name
  }

  function SetColName(p: Prob, j: int, name: Option<string>): (q: Prob)
    requires Wf(p) && 1 <= j <= |p.cols|
    ensures Wf(q) && q == p.(cols := p.cols[j - 1 := p.cols[j - 1].(name := StoredName(name))])
  {
    p.(cols := p.cols[j - 1 := p.cols[j - 1].(name := StoredName(name))])
  }

  function SetRowName(p: Prob, i: int, name: Option<string>): (q: Prob)
    requires Wf(p) && 1 <= i <= |p.rows|
    ensures Wf(q) && q == p.(rows := p.rows[i - 1 := p.rows[i - 1].(name := StoredName(name))])
  {
    var q := p.(rows := p.rows[i - 1 := p.rows[i - 1].(name := StoredName(name))]);
    assert forall k :: 0 <= k < |q.rows| ==> q.rows[k].elems == p.rows[k].elems;
    q
  }

  function SetColBnds(p: Prob, j: int, typ: BndType, lb: real, ub: real): (q: Prob)
    requires Wf(p) && 1 <= j <= |p.cols|
    ensures Wf(q) && q == p.(cols := p.cols[j - 1 := p.cols[j - 1].(bnds := SetBnds(typ, lb, ub))])
  {
    p.(cols := p.cols[j - 1 := p.cols[j - 1].(bnds := SetBnds(typ, lb, ub))])
  }

  function SetRowBnds(p: Prob, i: int, typ: BndType, lb: real, ub: real): (q: Prob)
    requires Wf(p) && 1 <= i <= |p.rows|
    ensures Wf(q) && q == p.(rows := p.rows[i - 1 := p.rows[i - 1].(bnds := SetBnds(typ, lb, ub))])
  {
    var q := p.(rows := p.rows[i - 1 := p.rows[i - 1].(bnds := SetBnds(typ, lb, ub))]);
    assert forall k :: 0 <= k < |q.rows| ==> q.rows[k].elems == p.rows[k].elems;
    q
  }

  /** `glp_set_col_kind` with `GLP_IV` (`integer`) or `GLP_CV`. */
  function SetColKind(p: Prob, j: int, integer: bool): (q: Prob)
    requires Wf(p) && 1 <= j <= |p.cols|
    ensures Wf(q) && q == p.(cols := p.cols[j - 1 := p.cols[j - 1].(integer := integer)])
  {
    p.(cols := p.cols[j - 1 := p.cols[j - 1].(integer := integer)])
  }

  /** `glp_set_obj_coef`: column 0 is the constant term; a number past the last column is fatal. */
  function SetObjCoef(p: Prob, j: int, coef: real): (r: Result<Prob>)
    requires Wf(p)
    ensures r.Err? <==> !(0 <= j <= |p.cols|)
    ensures r.Err? ==> r.error == Native
    ensures r.Ok? ==> Wf(r.value) && r.value.rows == p.rows && |r.value.cols| == |p.cols|
    ensures r.Ok? && j == 0 ==> r.value == p.(c0 := coef)
    ensures r.Ok? && j > 0 ==> r.value == p.(cols := p.cols[j - 1 := p.cols[j - 1].(coef := coef)])
  {
    if j == 0 then Ok(p.(c0 := coef))
    else if 1 <= j <= |p.cols| then Ok(p.(cols := p.cols[j - 1 := p.cols[j - 1].(coef := coef)]))
    else Err(Native)
  }

  /** `glp_set_obj_dir` with `GLP_MAX` (`maximize`) or `GLP_MIN`. */
  function SetObjDir(p: Prob, maximize: bool): (q: Prob)
    requires Wf(p)
    ensures Wf(q) && q == p.(maximize := maximize)
  {
    p.(maximize := maximize)
  }

  /** The elements `glp_set_mat_row` stores: the non-zero ones. */
  function NonZero(es: seq<Elem>): (r: seq<Elem>)
    ensures |r| <= |es|
  {
    if es == [] then []
    else if es[0].val == 0.0 then NonZero(es[1..])
    else [es[0]] + NonZero(es[1..])
  }

  /** `glp_set_mat_row` accepts only existing, pairwise distinct column numbers. */
  predicate MatRowAccepted(es: seq<Elem>, n: int) {
    (forall k :: 0 <= k < |es| ==> 1 <= es[k].col <= n) &&
    (forall k, l :: 0 <= k < l < |es| ==> es[k].col != es[l].col)
  }

  /** The stored elements are exactly the non-zero ones written. */
  lemma {:induction false} NonZeroElems(es: seq<Elem>, e: Elem)
    ensures e in NonZero(es) <==> e in es && e.val != 0.0
  {
    if es != [] {
      NonZeroElems(es[1..], e);
      assert es == [es[0]] + es[1..];
    }
  }

  lemma {:induction false} NonZeroWf(es: seq<Elem>, n: int)
    requires MatRowAccepted(es, n)
    ensures RowWf(NonZero(es), n)
  {
    if es != [] {
      var tail := es[1..];
      assert MatRowAccepted(tail, n);
      NonZeroWf(tail, n);
      var rest := NonZero(tail);
      if es[0].val != 0.0 {
        var r := [es[0]] + rest;
        forall k, l | 0 <= k < l < |r| ensures r[k].col != r[l].col {
          if k == 0 {
            assert r[l] == rest[l - 1];
            NonZeroElems(tail, r[l]);
            var m :| 0 <= m < |tail| && tail[m] == r[l];
            assert es[m + 1] == r[l];
          } else {
            assert r[k] == rest[k - 1] && r[l] == rest[l - 1];
          }
        }
        forall k | 0 <= k < |r| ensures 1 <= r[k].col <= n && r[k].val != 0.0 {
          if k > 0 {
            assert r[k] == rest[k - 1];
          }
        }
      }
    }
  }

  /** `glp_set_mat_row(lp, i, len, ind, val)`: replaces the row's elements. */
  function SetMatRow(p: Prob, i: int, es: seq<Elem>): (r: Result<Prob>)
    requires Wf(p) && 1 <= i <= |p.rows|
    ensures r.Err? <==> !MatRowAccepted(es, |p.cols|)
    ensures r.Err? ==> r.error == Native
    ensures r.Ok? ==> Wf(r.value)
    ensures r.Ok? ==> r.value == p.(rows := p.rows[i - 1 := p.rows[i - 1].(elems := NonZero(es))])
  {
    if !MatRowAccepted(es, |p.cols|) then Err(Native)
    else
      NonZeroWf(es, |p.cols|);
      var q := p.(rows := p.rows[i - 1 := p.rows[i - 1].(elems := NonZero(es))]);
      assert forall k :: 0 <= k < |q.rows| && k != i - 1 ==> q.rows[k] == p.rows[k];
      Ok(q)
  }
}
