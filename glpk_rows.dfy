/**
 * What the two GLPK backends (`com.patrikdufresne.ilp.glpk` and the legacy
 * `com.patrikdufresne.ilp.impl`) share above the native calls: the name
 * limit, the column types that make a problem a MIP, how a row and the
 * objective are written and read back as terms.  Terms are generic in the
 * variable type, so both backends' variables use the same definitions; a
 * term's column is the one the backend passes in the matching element.
 */
module GLPKRows {
  import opened Wrappers
  import opened Types
  import opened Terms
  import opened LinearExpr
  import LB = LinearBuilders
  import N = GLPKNative
  import opened GLPKBounds

  /** The longest name GLPK accepts. */
  const MAX_NAME: int := 255

  /** The type `getType` reports for each column, in column order. */
  function ColTypes(p: N.Prob): (ts: seq<VarType>)
    ensures |ts| == |p.cols|
    ensures forall j :: 0 <= j < |p.cols| ==> ts[j] == TypeOf(N.KindOf(p.cols[j]))
  {
    seq(|p.cols|, j requires 0 <= j < |p.cols| => TypeOf(N.KindOf(p.cols[j])))
  }

  /** A problem is a MIP when every column is integer. */
  lemma MIPMeansAllInteger(p: N.Prob)
    ensures LB.IsMIP(ColTypes(p)) <==> forall j :: 0 <= j < |p.cols| ==> p.cols[j].integer
  {
  }

  /** Changing names, bounds or coefficients leaves the MIP flag as it was. */
  lemma SameKindsSameMIP(p: N.Prob, q: N.Prob)
    requires |p.cols| == |q.cols|
    requires forall j :: 0 <= j < |p.cols| ==> p.cols[j].integer == q.cols[j].integer
    ensures LB.IsMIP(ColTypes(p)) == LB.IsMIP(ColTypes(q))
  {
    MIPMeansAllInteger(p);
    MIPMeansAllInteger(q);
  }

  /**
   * `String.length()`: the number of UTF-16 code units, so a character
   * outside the Basic Multilingual Plane (a surrogate pair) counts twice.
   */
  function Utf16Length(s: string): (n: nat)
    ensures |s| <= n <= 2 * |s|
  {
    if s == [] then 0 else (if s[0] as int >= 0x1_0000 then 2 else 1) + Utf16Length(s[1..])
  }

  /** A string of Basic Multilingual Plane characters has one code unit per character. */
  lemma {:induction false} BmpLength(s: string)
    requires forall i :: 0 <= i < |s| ==> s[i] as int < 0x1_0000
    ensures Utf16Length(s) == |s|
  {
    if s != [] {
      BmpLength(s[1..]);
    }
  }

  /** A string of supplementary characters has two code units per character. */
  lemma {:induction false} SupplementaryLength(s: string)
    requires forall i :: 0 <= i < |s| ==> s[i] as int >= 0x1_0000
    ensures Utf16Length(s) == 2 * |s|
  {
    if s != [] {
      SupplementaryLength(s[1..]);
    }
  }

  /** A Java string argument the bindings refuse: `length()` over 255. */
  predicate TooLong(name: Option<string>) {
    name.Some? && Utf16Length(name.value) > MAX_NAME
  }

  /** 128 copies of U+1F600 are 128 characters but 256 code units: too long. */
  lemma EmojiNameTooLong()
    ensures var s := seq(128, _ => '\U{1F600}'); |s| == 128 && TooLong(Some(s))
  {
    var s := seq(128, _ => '\U{1F600}');
    SupplementaryLength(s);
  }

  /** The terms `getLinear` rebuilds from a row: each element's variable found by column. */
  function RowTerms<V>(es: seq<N.Elem>, vars: seq<V>): (ts: seq<Term<V>>)
    requires forall k :: 0 <= k < |es| ==> 1 <= es[k].col <= |vars|
    ensures |ts| == |es|
    ensures forall k :: 0 <= k < |es| ==> ts[k] == Term(es[k].val, vars[es[k].col - 1])
  {
    seq(|es|, k requires 0 <= k < |es| && 1 <= es[k].col <= |vars| => Term(es[k].val, vars[es[k].col - 1]))
  }

  /** Reading one more element appends its term. */
  lemma RowTermsSnoc<V>(es: seq<N.Elem>, vars: seq<V>, i: int)
    requires 0 <= i < |es|
    requires forall k :: 0 <= k < |es| ==> 1 <= es[k].col <= |vars|
    ensures RowTerms(es[..i + 1], vars) == RowTerms(es[..i], vars) + [Term(es[i].val, vars[es[i].col - 1])]
  {
    assert es[..i + 1] == es[..i] + [es[i]];
  }

  /** In a well-formed row no two elements name the same column, so no term repeats. */
  lemma RowTermFresh<V>(es: seq<N.Elem>, vars: seq<V>, i: int)
    requires 0 <= i < |es| && N.RowWf(es, |vars|) && Distinct(vars)
    ensures Term(es[i].val, vars[es[i].col - 1]) !in RowTerms(es[..i], vars)
  {
    var prev := RowTerms(es[..i], vars);
    forall k | 0 <= k < i
      ensures prev[k] != Term(es[i].val, vars[es[i].col - 1])
    {
      assert es[k].col != es[i].col;
    }
  }

  /** The terms with a non-zero coefficient, in order. */
  function NonZeroTerms<V>(ts: seq<Term<V>>): (r: seq<Term<V>>)
    ensures |r| <= |ts|
  {
    if ts == [] then []
    else if ts[0].coefficient == 0.0 then NonZeroTerms(ts[1..])
    else [ts[0]] + NonZeroTerms(ts[1..])
  }

  lemma {:induction false} NonZeroTermsElems<V>(ts: seq<Term<V>>, t: Term<V>)
    ensures t in NonZeroTerms(ts) <==> t in ts && t.coefficient != 0.0
  {
    if ts != [] {
      NonZeroTermsElems(ts[1..], t);
      assert ts == [ts[0]] + ts[1..];
    }
  }

  /** Distinct terms name distinct variables. */
  ghost predicate DistinctVariables<V>(ts: seq<Term<V>>) {
    forall k, l :: 0 <= k < l < |ts| ==> ts[k].variable != ts[l].variable
  }

  /** The objective terms of the first `n` columns: one per non-zero coefficient, in column order. */
  function ObjTerms<V>(cols: seq<N.Col>, vars: seq<V>, n: nat): (ts: seq<Term<V>>)
    requires n <= |cols| && n <= |vars|
    ensures forall k :: 0 <= k < |ts| ==> ts[k].variable in vars[..n]
  {
    if n == 0 then []
    else
      var prev := ObjTerms(cols, vars, n - 1);
      assert vars[..n - 1] <= vars[..n];
      prev + (if cols[n - 1].coef != 0.0 then [Term(cols[n - 1].coef, vars[n - 1])] else [])
  }

  /**
   * One step of the `getObjectiveLinear` loop: over distinct variables, column
   * `n + 1`'s term is new, so adding it to the terms so far gives those of the
   * first `n + 1` columns.
   */
  lemma ObjTermsStep<V>(cols: seq<N.Col>, vars: seq<V>, n: nat)
    requires n < |cols| && n < |vars| && Distinct(vars)
    ensures cols[n].coef != 0.0 ==>
      Inserted(ObjTerms(cols, vars, n), Term(cols[n].coef, vars[n])) == ObjTerms(cols, vars, n + 1)
    ensures cols[n].coef == 0.0 ==> ObjTerms(cols, vars, n + 1) == ObjTerms(cols, vars, n)
  {
    assert vars[n] !in vars[..n] by {
      forall i | 0 <= i < n ensures vars[..n][i] != vars[n] {
        assert vars[i] != vars[n];
      }
    }
  }

  /**
   * The loop of `getObjectiveLinear`: a new linear, and for each column in
   * turn with a non-zero coefficient, the term of that coefficient and the
   * column's variable (what `getCol` returns) added to it.
   */
  method FillObjective<V(==)>(cols: seq<N.Col>, vars: seq<V>) returns (linear: ConcreteLinear<V>)
    requires |cols| == |vars| && Distinct(vars)
    ensures fresh(linear) && linear.Valid()
    ensures linear.Elements() == ObjTerms(cols, vars, |vars|)
  {
    linear := new ConcreteLinear<V>();
    var col := 1;
    while col < |cols| + 1
      invariant 1 <= col <= |cols| + 1
      invariant fresh(linear) && linear.Valid()
      invariant linear.Elements() == ObjTerms(cols, vars, col - 1)
    {
      var coef := cols[col - 1].coef;
      ObjTermsStep(cols, vars, col - 1);
      if coef != 0.0 {
        linear.Add(Term(coef, vars[col - 1]));
      }
      col := col + 1;
    }
  }

  /** The objective terms are the non-zero coefficients of the first `n` columns with their variables. */
  lemma {:induction false} ObjTermsElems<V>(cols: seq<N.Col>, vars: seq<V>, n: nat, t: Term<V>)
    requires n <= |cols| && n <= |vars|
    ensures t in ObjTerms(cols, vars, n) <==>
      exists j :: 0 <= j < n && cols[j].coef != 0.0 && t == Term(cols[j].coef, vars[j])
  {
    if n > 0 {
      ObjTermsElems(cols, vars, n - 1, t);
    }
  }

  /** The problem after `setObjectiveLinear` set the coefficients of the first `n` columns to zero. */
  function ZeroedUpTo(p: N.Prob, n: int): (q: N.Prob)
    ensures q.rows == p.rows && |q.cols| == |p.cols| && q.c0 == p.c0
    ensures forall j :: 0 <= j < |p.cols| ==> q.cols[j] == (if j < n then p.cols[j].(coef := 0.0) else p.cols[j])
  {
    p.(cols := seq(|p.cols|, j requires 0 <= j < |p.cols| => if j < n then p.cols[j].(coef := 0.0) else p.cols[j]))
  }

  /** The outcome of a sequence of `glp_set_obj_coef` calls: the problem reached, and whether one was fatal. */
  datatype Outcome = Outcome(prob: N.Prob, failed: bool)

  /** `glp_set_obj_coef` for each element in turn; a fatal call stops the sequence. */
  function WriteCoefs(p: N.Prob, ws: seq<N.Elem>): (o: Outcome)
    requires N.Wf(p)
    ensures N.Wf(o.prob) && o.prob.rows == p.rows && |o.prob.cols| == |p.cols|
    ensures o.failed <==> exists k :: 0 <= k < |ws| && !(0 <= ws[k].col <= |p.cols|)
    decreases |ws|
  {
    if ws == [] then Outcome(p, false)
    else
      var r := N.SetObjCoef(p, ws[0].col, ws[0].val);
      if r.Err? then Outcome(p, true)
      else
        var o := WriteCoefs(r.value, ws[1..]);
        assert forall k :: 1 <= k < |ws| ==> ws[k] == ws[1..][k - 1];
        o
  }

  lemma RowTermsCons<V>(e: N.Elem, rest: seq<N.Elem>, vars: seq<V>)
    requires 1 <= e.col <= |vars|
    requires forall k :: 0 <= k < |rest| ==> 1 <= rest[k].col <= |vars|
    ensures RowTerms([e] + rest, vars) == [Term(e.val, vars[e.col - 1])] + RowTerms(rest, vars)
  {
    var a := [e] + rest;
    assert forall k :: 1 <= k < |a| ==> a[k] == rest[k - 1];
  }

  /** Untouched by a sequence of objective writes: no write names column `j + 1`. */
  ghost predicate Untouched(ws: seq<N.Elem>, j: int) {
    forall k :: 0 <= k < |ws| ==> ws[k].col != j + 1
  }

  /** Writing objective coefficients at existing columns never fails and changes only coefficients. */
  lemma {:induction false} WriteCoefsFrame(p: N.Prob, ws: seq<N.Elem>)
    requires N.Wf(p)
    requires forall k :: 0 <= k < |ws| ==> 1 <= ws[k].col <= |p.cols|
    ensures !WriteCoefs(p, ws).failed
    ensures WriteCoefs(p, ws).prob.c0 == p.c0
    ensures forall j :: 0 <= j < |p.cols| ==>
      WriteCoefs(p, ws).prob.cols[j] == p.cols[j].(coef := WriteCoefs(p, ws).prob.cols[j].coef)
    decreases |ws|
  {
    if ws != [] {
      var q := N.SetObjCoef(p, ws[0].col, ws[0].val).value;
      var tail := ws[1..];
      assert forall k :: 0 <= k < |tail| ==> tail[k] == ws[k + 1];
      WriteCoefsFrame(q, tail);
    }
  }

  /** A column that no element names keeps its objective coefficient through the writes. */
  lemma {:induction false} WriteCoefsUntouched(p: N.Prob, ws: seq<N.Elem>, j: int)
    requires N.Wf(p) && 0 <= j < |p.cols| && Untouched(ws, j)
    requires forall k :: 0 <= k < |ws| ==> 1 <= ws[k].col <= |p.cols|
    ensures WriteCoefs(p, ws).prob.cols[j].coef == p.cols[j].coef
    decreases |ws|
  {
    if ws != [] {
      var q := N.SetObjCoef(p, ws[0].col, ws[0].val).value;
      var tail := ws[1..];
      assert forall k :: 0 <= k < |tail| ==> tail[k] == ws[k + 1];
      WriteCoefsUntouched(q, tail, j);
    }
  }

  /** Element `k` of writes at distinct existing columns leaves its value in its column. */
  lemma {:induction false} WriteCoefsWritten(p: N.Prob, ws: seq<N.Elem>, k: int)
    requires N.Wf(p) && 0 <= k < |ws|
    requires forall k :: 0 <= k < |ws| ==> 1 <= ws[k].col <= |p.cols|
    requires forall k, l :: 0 <= k < l < |ws| ==> ws[k].col != ws[l].col
    ensures WriteCoefs(p, ws).prob.cols[ws[k].col - 1].coef == ws[k].val
    decreases |ws|
  {
    var q := N.SetObjCoef(p, ws[0].col, ws[0].val).value;
    var tail := ws[1..];
    assert forall k :: 0 <= k < |tail| ==> tail[k] == ws[k + 1];
    if k == 0 {
      var j0 := ws[0].col - 1;
      assert Untouched(tail, j0) by {
        forall l | 0 <= l < |tail| ensures tail[l].col != j0 + 1 {
          assert ws[0].col != ws[l + 1].col;
        }
      }
      WriteCoefsUntouched(q, tail, j0);
    } else {
      assert forall a, b :: 0 <= a < b < |tail| ==> tail[a].col != tail[b].col;
      WriteCoefsWritten(q, tail, k - 1);
    }
  }

  /**
   * Writing objective coefficients at distinct existing columns sets each
   * written column to its value and leaves every other column's coefficient.
   */
  lemma WriteCoefsValues(p: N.Prob, ws: seq<N.Elem>)
    requires N.Wf(p)
    requires forall k :: 0 <= k < |ws| ==> 1 <= ws[k].col <= |p.cols|
    requires forall k, l :: 0 <= k < l < |ws| ==> ws[k].col != ws[l].col
    ensures forall k :: 0 <= k < |ws| ==> WriteCoefs(p, ws).prob.cols[ws[k].col - 1].coef == ws[k].val
    ensures forall j :: 0 <= j < |p.cols| && Untouched(ws, j) ==>
      WriteCoefs(p, ws).prob.cols[j].coef == p.cols[j].coef
  {
    forall j | 0 <= j < |p.cols| && Untouched(ws, j) ensures WriteCoefs(p, ws).prob.cols[j].coef == p.cols[j].coef {
      WriteCoefsUntouched(p, ws, j);
    }
    forall k | 0 <= k < |ws| ensures WriteCoefs(p, ws).prob.cols[ws[k].col - 1].coef == ws[k].val {
      WriteCoefsWritten(p, ws, k);
    }
  }

  /** A non-zero coefficient at a variable's own column yields its term. */
  lemma ColumnTermInObjective<V>(cols: seq<N.Col>, vars: seq<V>, t: Term<V>, c: int)
    requires |cols| == |vars| && 1 <= c <= |cols|
    requires vars[c - 1] == t.variable && cols[c - 1].coef == t.coefficient && t.coefficient != 0.0
    ensures t in ObjTerms(cols, vars, |vars|)
  {
    ObjTermsElems(cols, vars, |vars|, t);
    assert Term(cols[c - 1].coef, vars[c - 1]) == t;
  }

  /**
   * The elements `ws` a backend passes for terms `ts` of problem `vars`: one
   * per term, at the column where the term's variable sits, with its
   * coefficient.
   */
  ghost predicate Placed<V>(ts: seq<Term<V>>, ws: seq<N.Elem>, vars: seq<V>) {
    |ws| == |ts| &&
    forall k :: 0 <= k < |ts| ==>
      ws[k].val == ts[k].coefficient && 1 <= ws[k].col <= |vars| && vars[ws[k].col - 1] == ts[k].variable
  }

  /** Placed elements of terms over distinct variables name distinct existing columns. */
  lemma PlacedRowAccepted<V>(ts: seq<Term<V>>, es: seq<N.Elem>, vars: seq<V>)
    requires Placed(ts, es, vars) && DistinctVariables(ts)
    ensures N.MatRowAccepted(es, |vars|)
    ensures N.RowWf(N.NonZero(es), |vars|)
  {
    forall k, l | 0 <= k < l < |es| ensures es[k].col != es[l].col {
      assert ts[k].variable != ts[l].variable;
    }
    N.NonZeroWf(es, |vars|);
  }

  /**
   * Writing placed elements of terms over distinct variables as a row is
   * accepted by GLPK, and reading the row back rebuilds exactly the terms
   * with a non-zero coefficient.
   */
  lemma {:induction false} PlacedRowRoundTrip<V>(ts: seq<Term<V>>, es: seq<N.Elem>, vars: seq<V>)
    requires Placed(ts, es, vars) && DistinctVariables(ts)
    ensures N.MatRowAccepted(es, |vars|)
    ensures N.RowWf(N.NonZero(es), |vars|)
    ensures RowTerms(N.NonZero(es), vars) == NonZeroTerms(ts)
  {
    PlacedRowAccepted(ts, es, vars);
    if ts != [] {
      var tail := ts[1..];
      assert Placed(tail, es[1..], vars) by {
        assert forall k :: 0 <= k < |tail| ==> tail[k] == ts[k + 1] && es[1..][k] == es[k + 1];
      }
      assert DistinctVariables(tail) by {
        forall k, l | 0 <= k < l < |tail| ensures tail[k].variable != tail[l].variable {
          assert tail[k] == ts[k + 1] && tail[l] == ts[l + 1];
        }
      }
      PlacedRowRoundTrip(tail, es[1..], vars);
      RowStep(ts, es, vars);
    }
  }

  /** One step of the row round trip: the head element is kept exactly when its term is. */
  lemma RowStep<V>(ts: seq<Term<V>>, es: seq<N.Elem>, vars: seq<V>)
    requires ts != [] && Placed(ts, es, vars)
    requires N.RowWf(N.NonZero(es), |vars|) && N.RowWf(N.NonZero(es[1..]), |vars|)
    requires RowTerms(N.NonZero(es[1..]), vars) == NonZeroTerms(ts[1..])
    ensures RowTerms(N.NonZero(es), vars) == NonZeroTerms(ts)
  {
    var rest := N.NonZero(es[1..]);
    assert es == [es[0]] + es[1..];
    if ts[0].coefficient != 0.0 {
      assert N.NonZero(es) == [es[0]] + rest;
      RowTermsCons(es[0], rest, vars);
    }
  }

  /**
   * Zeroing every objective coefficient and then writing placed elements of
   * terms over distinct variables never fails, and reading the objective
   * back yields the same set of terms, less those with a zero coefficient.
   */
  lemma PlacedObjectiveRoundTrip<V>(p: N.Prob, ts: seq<Term<V>>, ws: seq<N.Elem>, vars: seq<V>)
    requires N.Wf(p) && |p.cols| == |vars|
    requires Placed(ts, ws, vars) && DistinctVariables(ts)
    ensures !WriteCoefs(ZeroedUpTo(p, |p.cols|), ws).failed
    ensures Elems(ObjTerms(WriteCoefs(ZeroedUpTo(p, |p.cols|), ws).prob.cols, vars, |vars|))
         == Elems(NonZeroTerms(ts))
  {
    var z := ZeroedUpTo(p, |p.cols|);
    forall k, l | 0 <= k < l < |ws| ensures ws[k].col != ws[l].col {
      assert ts[k].variable != ts[l].variable;
    }
    WriteCoefsFrame(z, ws);
    WriteCoefsValues(z, ws);
    var cols := WriteCoefs(z, ws).prob.cols;
    assert forall j {:trigger Untouched(ws, j)} :: 0 <= j < |cols| && Untouched(ws, j) ==> cols[j].coef == 0.0 by {
      assert forall j :: 0 <= j < |cols| && Untouched(ws, j) ==> cols[j].coef == z.cols[j].coef == 0.0;
    }
    assert forall k :: 0 <= k < |ws| ==> cols[ws[k].col - 1].coef == ws[k].val;
    ObjectiveWithinWrites(cols, vars, ts, ws);
    WritesWithinObjective(cols, vars, ts, ws);
    assert WriteCoefs(z, ws).prob.cols == cols;
  }

  /** Every objective term read back from written coefficients is one of the non-zero terms. */
  lemma ObjectiveWithinWrites<V>(cols: seq<N.Col>, vars: seq<V>, ts: seq<Term<V>>, ws: seq<N.Elem>)
    requires |cols| == |vars| && Placed(ts, ws, vars)
    requires forall j {:trigger Untouched(ws, j)} :: 0 <= j < |cols| && Untouched(ws, j) ==> cols[j].coef == 0.0
    requires forall k :: 0 <= k < |ws| ==> cols[ws[k].col - 1].coef == ws[k].val
    ensures Elems(ObjTerms(cols, vars, |vars|)) <= Elems(NonZeroTerms(ts))
  {
    forall t | t in ObjTerms(cols, vars, |vars|) ensures t in NonZeroTerms(ts) {
      ObjectiveTermWritten(cols, vars, ts, ws, t);
    }
  }

  lemma ObjectiveTermWritten<V>(cols: seq<N.Col>, vars: seq<V>, ts: seq<Term<V>>, ws: seq<N.Elem>, t: Term<V>)
    requires |cols| == |vars| && Placed(ts, ws, vars)
    requires forall j {:trigger Untouched(ws, j)} :: 0 <= j < |cols| && Untouched(ws, j) ==> cols[j].coef == 0.0
    requires forall k :: 0 <= k < |ws| ==> cols[ws[k].col - 1].coef == ws[k].val
    requires t in ObjTerms(cols, vars, |vars|)
    ensures t in NonZeroTerms(ts)
  {
    ObjTermsElems(cols, vars, |vars|, t);
    var j :| 0 <= j < |vars| && cols[j].coef != 0.0 && t == Term(cols[j].coef, vars[j]);
    assert !Untouched(ws, j);
    var k :| 0 <= k < |ws| && ws[k].col == j + 1;
    assert t == ts[k];
    NonZeroTermsElems(ts, t);
  }

  /** Every non-zero term written is read back as an objective term. */
  lemma WritesWithinObjective<V>(cols: seq<N.Col>, vars: seq<V>, ts: seq<Term<V>>, ws: seq<N.Elem>)
    requires |cols| == |vars| && Placed(ts, ws, vars)
    requires forall k :: 0 <= k < |ws| ==> cols[ws[k].col - 1].coef == ws[k].val
    ensures Elems(NonZeroTerms(ts)) <= Elems(ObjTerms(cols, vars, |vars|))
  {
    forall t | t in NonZeroTerms(ts) ensures t in ObjTerms(cols, vars, |vars|) {
      NonZeroTermsElems(ts, t);
      WrittenTermInObjective(cols, vars, ts, ws, t);
    }
  }

  lemma WrittenTermInObjective<V>(cols: seq<N.Col>, vars: seq<V>, ts: seq<Term<V>>, ws: seq<N.Elem>, t: Term<V>)
    requires |cols| == |vars| && Placed(ts, ws, vars)
    requires forall k :: 0 <= k < |ws| ==> cols[ws[k].col - 1].coef == ws[k].val
    requires t in ts && t.coefficient != 0.0
    ensures t in ObjTerms(cols, vars, |vars|)
  {
    var k :| 0 <= k < |ts| && ts[k] == t;
    var c := ws[k].col;
    assert 1 <= c <= |vars| && vars[c - 1] == t.variable;
    assert cols[c - 1].coef == t.coefficient;
    ColumnTermInObjective(cols, vars, t, c);
  }
}
