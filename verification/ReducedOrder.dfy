/** When the reduction keeps more than one vector, in terms of the tree: the mean and the variance of its Elmore delays. */
module ReducedOrder {
  import opened Sums
  import opened RcTree
  import opened Lanczos
  import opened Rcmodel

  ghost function TotalCap(t: Tree): real { Sum(j => At(t.c, j), |t.c|) }

  /** The mean of the Elmore delays, weighted by capacitance. */
  ghost function Mean(t: Tree): real
    requires TotalCap(t) > 0.0
  {
    Weighted(t.c, Delays(t)) / TotalCap(t)
  }

  /** The weighted squares of the delays' distances from x. */
  ghost function SquaresFrom(t: Tree, x: real): real {
    Sum(j => Mul(At(t.c, j), Mul(TreeElmore(t, j) - x, TreeElmore(t, j) - x)), |t.c|)
  }

  /** Their variance, weighted the same way. */
  ghost function Variance(t: Tree): real
    requires TotalCap(t) > 0.0
  {
    SquaresFrom(t, Mean(t)) / TotalCap(t)
  }

  /** Two points or more, with a mean delay of 1e-13 or more and a variance of 1e-30 or more. */
  ghost predicate SpreadOut(t: Tree)
    requires TotalCap(t) > 0.0
  {
    |t.par| >= 2 && Mean(t) >= 0.0000000000001 && Variance(t) >= 0.000000000000000000000000000001
  }

  // ---- the first column ----------------------------------------------------------------------

  /** s s ctot == 1 */
  ghost predicate UnitScale(s: real, ctot: real) { Mul(Mul(s, s), ctot) == 1.0 }

  lemma ScaleIsQuotient(s: real, ctot: real, x: real)
    requires UnitScale(s, ctot) && ctot > 0.0
    ensures Mul(Mul(s, s), x) == x / ctot
  {
    var q := x / ctot;
    assert Mul(q, ctot) == x;
    assert Mul(Mul(s, s), Mul(q, ctot)) == Mul(q, Mul(Mul(s, s), ctot));
    assert Mul(q, 1.0) == q;
  }

  lemma UnitScaleOf(s: real, sqc: real, ctot: real)
    requires Inverse(s, sqc) && Squares(sqc, ctot)
    ensures UnitScale(s, ctot)
  {
    UnitProduct(s, sqc, ctot);
  }

  /** d ctot == x */
  ghost predicate Over(d: real, ctot: real, x: real) { d * ctot == x }

  lemma IsQuotient(d: real, ctot: real, x: real)
    requires Over(d, ctot, x) && ctot > 0.0
    ensures d == x / ctot
  {}

  /** x, scaled by a, is how far the delays are from d0, scaled by s. */
  ghost predicate Deviation(t: Tree, a: real, x: seq<real>, s: real, d0: real) {
    |x| == |t.par| && forall j | 0 <= j < |x| :: Mul(a, x[j]) == Mul(s, TreeElmore(t, j) - d0)
  }

  lemma EntryDeviates(y: real, a: real, x: real, d: real, s: real, pe: real, pv: real, tau: real)
    requires y == Mul(a, x) + (Mul(d, s) + Mul(pe, pv)) && pe == 0.0 && y == Mul(s, tau)
    ensures Mul(a, x) == Mul(s, tau - d)
  {
    assert Mul(pe, pv) == 0.0;
    assert Mul(s, tau - d) == Mul(s, tau) - Mul(d, s);
  }

  /** One step of the recurrence from the constant vector leaves the deviation of the delays from d0. */
  lemma {:induction false} FirstStepDeviates(t: Tree, b: Basis, s: real, a: real, x: seq<real>)
    requires t.Valid() && |b.us| >= 1 && |b.d| >= 1 && b.us[0] == Uniform(|t.par|, s)
    requires Combines3(t.Apply(b.us[0]), a, x, b.d[0], b.us[0], PrevE(b, 0), Prev(b, 0))
    ensures Deviation(t, a, x, s, b.d[0])
  {
    var d0 := b.d[0];
    forall j | 0 <= j < |x| ensures Mul(a, x[j]) == Mul(s, TreeElmore(t, j) - d0) {
      EntryOf(t.Apply(b.us[0]), a, x, d0, b.us[0], PrevE(b, 0), Prev(b, 0), j);
      ApplyUniform(t, s, j);
      hide Mul, TreeElmore, Combines3, RC;
      EntryDeviates(t.Apply(b.us[0])[j], a, x[j], d0, s, PrevE(b, 0), Prev(b, 0)[j], TreeElmore(t, j));
    }
  }

  lemma TermSquare(c: real, x: real, a: real, s: real, v: real)
    requires Mul(a, x) == Mul(s, v)
    ensures Mul(Mul(a, a), (c * x) * x) == Mul(Mul(s, s), Mul(c, Mul(v, v)))
  {
    assert Mul(Mul(a, a), (c * x) * x) == Mul(c, Mul(Mul(a, x), Mul(a, x)));
    assert Mul(Mul(s, s), Mul(c, Mul(v, v))) == Mul(c, Mul(Mul(s, v), Mul(s, v)));
  }

  ghost function LengthTerm(c: seq<real>, x: seq<real>, j: int): real { (At(c, j) * At(x, j)) * At(x, j) }

  ghost function SpreadTerm(t: Tree, d0: real, j: int): real { Mul(At(t.c, j), Mul(TreeElmore(t, j) - d0, TreeElmore(t, j) - d0)) }

  lemma {:induction false} DeviationTerm(t: Tree, a: real, x: seq<real>, s: real, d0: real, j: int)
    requires t.Valid() && Deviation(t, a, x, s, d0) && 0 <= j < |t.c|
    ensures Mul(Mul(a, a), LengthTerm(t.c, x, j)) == Mul(Mul(s, s), SpreadTerm(t, d0, j))
  {
    assert Mul(a, x[j]) == Mul(s, TreeElmore(t, j) - d0);
    hide Mul, TreeElmore, Deviation;
    TermSquare(t.c[j], x[j], a, s, TreeElmore(t, j) - d0);
  }

  lemma {:induction false} AsLength(c: seq<real>, x: seq<real>)
    ensures Ip(c, x, x) == Sum(j => LengthTerm(c, x, j), |c|)
  {
    hide At;
    SumEq(j => LengthTerm(c, x, j), j => (At(c, j) * At(x, j)) * At(x, j), |c|);
  }

  lemma {:induction false} AsSpread(t: Tree, d0: real)
    ensures SquaresFrom(t, d0) == Sum(j => SpreadTerm(t, d0, j), |t.c|)
  {
    hide At, TreeElmore, Mul;
    SumEq(j => SpreadTerm(t, d0, j), j => Mul(At(t.c, j), Mul(TreeElmore(t, j) - d0, TreeElmore(t, j) - d0)), |t.c|);
  }

  /** Its squared length is the spread of the delays around d0. */
  lemma {:induction false} DeviationLength(t: Tree, a: real, x: seq<real>, s: real, d0: real)
    requires t.Valid() && Deviation(t, a, x, s, d0)
    ensures Mul(Mul(a, a), Ip(t.c, x, x)) == Mul(Mul(s, s), SquaresFrom(t, d0))
  {
    var n := |t.c|;
    var f, g := j => LengthTerm(t.c, x, j), j => SpreadTerm(t, d0, j);
    hide Mul, TreeElmore, Deviation, LengthTerm, SpreadTerm, Ip, SquaresFrom;
    AsLength(t.c, x);
    AsSpread(t, d0);
    forall j | 0 <= j < n ensures Mul(Mul(a, a), f(j)) == Mul(Mul(s, s), g(j)) { DeviationTerm(t, a, x, s, d0, j); }
    SumEq(j => Mul(Mul(a, a), f(j)), j => Mul(Mul(s, s), g(j)), n);
    SumMul(Mul(a, a), f, n);
    SumMul(Mul(s, s), g, n);
  }

  lemma OneTimes(x: real)
    ensures Mul(Mul(1.0, 1.0), x) == x && Mul(x, 1.0) == x
  {}

  lemma {:induction false} FirstOver(t: Tree, s: real, sqc: real)
    requires t.Valid() && Inverse(s, sqc) && Squares(sqc, TotalCap(t))
    ensures Over(Ip(t.c, Uniform(|t.par|, s), t.Apply(Uniform(|t.par|, s))), TotalCap(t), Weighted(t.c, Delays(t)))
  {
    MeanDelay(t, s, sqc, TotalCap(t));
    hide Inverse, Squares, Weighted, TotalCap, Ip, RC, Delays;
  }

  /** d[0] is the mean of the delays. */
  lemma {:induction false} FirstIsMean(t: Tree, b: Basis, s: real, sqc: real)
    requires Reduced(t, b) && b.us[0] == Uniform(|t.par|, s) && Inverse(s, sqc) && Squares(sqc, TotalCap(t)) && TotalCap(t) > 0.0
    ensures b.d[0] == Mean(t)
  {
    FirstDiagonal(t, b);
    hide Reduced, Inverse, Squares, Weighted, TotalCap, Ip, RC, Delays, Over;
    FirstOver(t, s, sqc);
    IsQuotient(b.d[0], TotalCap(t), Weighted(t.c, Delays(t)));
  }

  lemma FirstDiagonal(t: Tree, b: Basis)
    requires Reduced(t, b)
    ensures |b.d| >= 1 && t.Valid() && |b.us[0]| == |t.par| && b.d[0] == Ip(t.c, b.us[0], t.Apply(b.us[0]))
  {}

  /** The squared length of the first remainder is the variance. */
  lemma {:induction false} RemainderIsVariance(t: Tree, b: Basis, s: real, y: seq<real>)
    requires Expanded(t, b) && |b.d| == |b.us| == 1 && b.us[0] == Uniform(|t.par|, s) && UnitScale(s, TotalCap(t)) && TotalCap(t) > 0.0
    requires b.d[0] == Mean(t) && Residual(t, b, y)
    ensures Ip(t.c, y, y) == Variance(t)
  {
    FirstStepDeviates(t, b, s, 1.0, y);
    hide Residual, Expanded, TotalCap, Mean, UnitScale;
    DeviationLength(t, 1.0, y, s, b.d[0]);
    ScaleIsQuotient(s, TotalCap(t), SquaresFrom(t, Mean(t)));
    OneTimes(Ip(t.c, y, y));
  }

  /** With a second vector, e[0]^2 is the variance. */
  lemma {:induction false} CouplingIsVariance(t: Tree, b: Basis, s: real)
    requires Expanded(t, b) && |b.us| >= 2 && |b.d| >= 1 && b.us[0] == Uniform(|t.par|, s) && UnitScale(s, TotalCap(t)) && TotalCap(t) > 0.0
    requires b.d[0] == Mean(t)
    ensures Mul(b.e[0], b.e[0]) == Variance(t)
  {
    assert ThreeTerm(t, b, 0) && Ip(t.c, b.us[1], b.us[1]) == 1.0 && t.Valid();
    FirstStepDeviates(t, b, s, b.e[0], b.us[1]);
    var e0, u1 := b.e[0], b.us[1];
    hide Expanded, TotalCap, Mean, UnitScale, Ip, ThreeTerm, Orthonormal;
    DeviationLength(t, e0, u1, s, b.d[0]);
    ScaleIsQuotient(s, TotalCap(t), SquaresFrom(t, Mean(t)));
    OneTimes(Mul(e0, e0));
  }

  /** More than one vector is kept exactly when the delays have a mean and a spread above the floors. */
  lemma {:induction false} OrderIff(t: Tree, b: Basis, s: real, sqc: real)
    requires Reduced(t, b) && b.us[0] == Uniform(|t.par|, s) && Inverse(s, sqc) && Squares(sqc, TotalCap(t)) && TotalCap(t) > 0.0
    ensures |b.us| >= 2 <==> SpreadOut(t)
    ensures b.d[0] == Mean(t)
  {
    FirstIsMean(t, b, s, sqc);
    UnitScaleOf(s, sqc, TotalCap(t));
    hide UnitScale, Inverse, Squares, TotalCap, Mean, Variance;
    if |b.us| >= 2 {
      assert Continues(b.d[0], b.e[0]);
      CouplingIsVariance(t, b, s);
    } else {
      forall y | Residual(t, b, y) ensures Ip(t.c, y, y) == Variance(t) { RemainderIsVariance(t, b, s, y); }
      OneVector(t, b);
    }
  }

  /** Why a reduction kept one vector only. */
  lemma OneVector(t: Tree, b: Basis)
    requires Reduced(t, b) && |b.us| == 1
    ensures |t.par| == 1 || b.d[0] < 0.0000000000001 || exists y :: Residual(t, b, y) && Ip(t.c, y, y) < 0.000000000000000000000000000001
  {}
}
