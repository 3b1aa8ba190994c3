/**
 * What both GLPK wrappers (the GLPK module and the legacy `ilp` tree) do
 * between Java bounds and GLPK bounds: `boundedType` picks the bound type,
 * a missing bound is written as 0 and read back through the `DBL_MAX`
 * sentinel, and the column kind is mapped to a `VarType`.
 */
module GLPKBounds {
  import opened Wrappers
  import opened Numbers
  import opened Types
  import opened GLPKNative

  /** `boundedType(lb, ub)`, on the bounds' `doubleValue()`s. */
  function BoundedType(lb: Option<real>, ub: Option<real>): (t: BndType)
    ensures t == FX <==> lb.Some? && ub.Some? && ub.value == lb.value
    ensures t == DB <==> lb.Some? && ub.Some? && ub.value != lb.value
    ensures t == LO <==> lb.Some? && ub.None?
    ensures t == UP <==> lb.None? && ub.Some?
    ensures t == FR <==> lb.None? && ub.None?
  {
    if ub.Some? && lb.Some? then (if ub.value == lb.value then FX else DB)
    else if ub.None? && lb.Some? then LO
    else if ub.Some? && lb.None? then UP
    else FR
  }

  /** `Number.doubleValue()` of a nullable bound. */
  function AsReal(n: Option<Number>): (r: Option<real>)
    ensures r.Some? <==> n.Some?
    ensures n.Some? ==> r.value == DoubleValue(n.value)
  {
    if n.None? then None else Some(DoubleValue(n.value))
  }

  /** `Double.valueOf` on a nullable bound read from the problem, as the snapshots box it. */
  function Boxed(x: Option<real>): (r: Option<Number>)
    ensures r.None? <==> x.None?
    ensures r.Some? ==> r.value == RealNum(x.value) && AsReal(r) == x
  {
    if x.None? then None else Some(RealNum(x.value))
  }

  /** The value written for a bound: `b != null ? b.doubleValue() : 0`. */
  function Written(b: Option<real>): real {
    if b.None? then 0.0 else b.value
  }

  /** What the setters store for a pair of bounds. */
  function Store(lb: Option<real>, ub: Option<real>): Bnds {
    SetBnds(BoundedType(lb, ub), Written(lb), Written(ub))
  }

  /** The getters' sentinel test: `-DBL_MAX` reads back as a null lower bound. */
  function LowerOf(x: real): (r: Option<real>)
    ensures r.None? <==> x == -DBL_MAX
    ensures r.Some? ==> r.value == x
  {
    if x == -DBL_MAX then None else Some(x)
  }

  /** `DBL_MAX` reads back as a null upper bound. */
  function UpperOf(x: real): (r: Option<real>)
    ensures r.None? <==> x == DBL_MAX
    ensures r.Some? ==> r.value == x
  {
    if x == DBL_MAX then None else Some(x)
  }

  /** The lower bound `getLowerBound` reports for stored bounds. */
  function Lower(b: Bnds): Option<real> {
    LowerOf(Lb(b))
  }

  /** The upper bound `getUpperBound` reports for stored bounds. */
  function Upper(b: Bnds): Option<real> {
    UpperOf(Ub(b))
  }

  /** A bound as it reads back after being written: the sentinel value itself reads as null. */
  function NormalLower(lb: Option<real>): (r: Option<real>)
    ensures lb.None? ==> r.None?
    ensures lb.Some? && lb.value != -DBL_MAX ==> r == lb
  {
    if lb.None? then None else LowerOf(lb.value)
  }

  function NormalUpper(ub: Option<real>): (r: Option<real>)
    ensures ub.None? ==> r.None?
    ensures ub.Some? && ub.value != DBL_MAX ==> r == ub
  {
    if ub.None? then None else UpperOf(ub.value)
  }

  /** Whatever pair is stored, each bound reads back as written (null stays null). */
  lemma StoreReadsBack(lb: Option<real>, ub: Option<real>)
    ensures Lower(Store(lb, ub)) == NormalLower(lb)
    ensures Upper(Store(lb, ub)) == NormalUpper(ub)
  {
  }

  /** A bound that was read back reads back unchanged when written again. */
  lemma NormalIsIdempotent(x: real)
    ensures NormalLower(LowerOf(x)) == LowerOf(x)
    ensures NormalUpper(UpperOf(x)) == UpperOf(x)
  {
  }

  /** `setLowerBound(lb)` re-reads the upper bound and stores both: the upper bound is kept. */
  lemma SetLowerKeepsUpper(b: Bnds, lb: Option<real>)
    ensures Upper(Store(lb, Upper(b))) == Upper(b)
    ensures Lower(Store(lb, Upper(b))) == NormalLower(lb)
  {
    StoreReadsBack(lb, Upper(b));
    NormalIsIdempotent(Ub(b));
  }

  /** `setUpperBound(ub)` re-reads the lower bound: the lower bound is kept. */
  lemma SetUpperKeepsLower(b: Bnds, ub: Option<real>)
    ensures Lower(Store(Lower(b), ub)) == Lower(b)
    ensures Upper(Store(Lower(b), ub)) == NormalUpper(ub)
  {
    StoreReadsBack(Lower(b), ub);
    NormalIsIdempotent(Lb(b));
  }

  /** `getType`: `GLP_BV` is BOOL, `GLP_IV` is INTEGER, `GLP_CV` is REAL. */
  function TypeOf(k: ColKind): (t: VarType)
    ensures (t == BOOL <==> k == BV) && (t == INTEGER <==> k == IV) && (t == REAL <==> k == CV)
  {
    match k
    case BV => BOOL
    case IV => INTEGER
    case CV => REAL
  }

  /** The column `setType(t)` leaves: BOOL is integer with bounds [0,1], INTEGER only integer, REAL continuous. */
  function WithType(c: Col, t: VarType): Col {
    match t
    case BOOL => c.(integer := true, bnds := SetBnds(DB, 0.0, 1.0))
    case INTEGER => c.(integer := true)
    case REAL => c.(integer := false)
  }

  /** The native calls of `setType(t)` on column `j`: the column kind, and for BOOL the bounds [0,1]. */
  function SetColType(p: Prob, j: int, t: VarType): (q: Prob)
    requires Wf(p) && 1 <= j <= |p.cols|
    ensures Wf(q) && q == p.(cols := p.cols[j - 1 := WithType(p.cols[j - 1], t)])
  {
    match t
    case BOOL => SetColBnds(SetColKind(p, j, true), j, DB, 0.0, 1.0)
    case INTEGER => SetColKind(p, j, true)
    case REAL => SetColKind(p, j, false)
  }

  /**
   * `getType` after `setType(t)` is `t`, except that INTEGER over bounds
   * exactly [0,1] reads back as BOOL, because GLPK reports such a column binary.
   */
  lemma TypeReadsBack(c: Col, t: VarType)
    ensures t == BOOL ==> TypeOf(KindOf(WithType(c, t))) == BOOL
    ensures t == REAL ==> TypeOf(KindOf(WithType(c, t))) == REAL
    ensures t == INTEGER ==>
      TypeOf(KindOf(WithType(c, t))) == (if Lower(c.bnds) == Some(0.0) && Upper(c.bnds) == Some(1.0) &&
                                             c.bnds.typ == DB then BOOL else INTEGER)
    ensures WithType(c, t).bnds == (if t == BOOL then Store(Some(0.0), Some(1.0)) else c.bnds)
  {
  }
}
