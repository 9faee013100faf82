/** The reduced model and the Elmore delay read from it. */
module Rcmodel {
  import opened Sums
  import opened RcTree
  import opened Lanczos

  /** arnoldi1 and its pins: order vectors over n terminals, the driver first. */
  datatype Rcmodel = Rcmodel(order: nat, n: nat, d: seq<real>, e: seq<real>, U: seq<seq<real>>,
                             pinV: seq<nat>, ctot: real, sqc: real)

  ghost predicate Sized(m: Rcmodel) {
    && |m.d| == |m.U| == m.order && (m.order > 0 ==> |m.e| == m.order - 1)
    && |m.pinV| == m.n && forall h | 0 <= h < m.order :: |m.U[h]| == m.n
  }

  /** The delay from the first column of the reduced model. */
  function ColumnDelay(d0: real, e0: real, u1: real, sqctot: real): real { d0 + e0 * u1 * sqctot }

  /** arnoldi1::elmore */
  function Elmore(m: Rcmodel, k: nat): real
    requires m.order <= |m.d| && m.order <= |m.U| && (m.order > 1 ==> |m.e| > 0 && |m.U[0]| > 0 && k < |m.U[1]|)
    requires m.order > 1 ==> m.U[0][0] != 0.0
  {
    if m.order == 0 then 0.0
    else if m.order == 1 then m.d[0]
    else
      var sqctot := 1.0 / m.U[0][0];
      ColumnDelay(m.d[0], m.e[0], m.U[1][k], sqctot)
  }

  /** The Elmore delay of point p of a tree: every capacitance charges through the resistance it shares with p. */
  ghost function TreeElmore(t: Tree, p: int): real {
    Sum(j => SharedR(t.par, t.r, p, j) * At(t.c, j), |t.par|)
  }

  /** R C applied to a constant vector. */
  lemma {:induction false} ApplyUniform(t: Tree, s: real, p: nat)
    requires t.Valid() && p < |t.par|
    ensures t.Apply(Uniform(|t.par|, s))[p] == Mul(s, TreeElmore(t, p))
  {
    var n := |t.par|;
    var q := Charges(t.c, Uniform(n, s));
    forall j | 0 <= j < n
      ensures SharedR(t.par, t.r, p, j) * At(q, j) == s * (SharedR(t.par, t.r, p, j) * At(t.c, j))
    {
      Commute(SharedR(t.par, t.r, p, j), At(t.c, j), s);
    }
    SumScale(s, j => SharedR(t.par, t.r, p, j) * At(t.c, j), j => SharedR(t.par, t.r, p, j) * At(q, j), n);
  }

  lemma Commute(x: real, c: real, s: real)
    ensures x * (c * s) == s * (x * c)
  {}

  /** s tau == x + d s: entry p of the first three-term relation. */
  ghost predicate Balanced(s: real, tau: real, x: real, d: real) { s * tau == x + d * s }

  lemma {:induction false} FirstRow(t: Tree, b: Basis, s: real, p: nat)
    requires Expanded(t, b) && |b.us| >= 2 && |b.d| >= 1 && p < |t.par|
    requires b.us[0] == Uniform(|t.par|, s)
    ensures Balanced(s, TreeElmore(t, p), Mul(b.e[0], b.us[1][p]), b.d[0])
  {
    assert ThreeTerm(t, b, 0);
    hide Expanded, Mul, Balanced, TreeElmore;
    EntryOf(t.Apply(b.us[0]), b.e[0], b.us[1], b.d[0], b.us[0], PrevE(b, 0), Prev(b, 0), p);
    ApplyUniform(t, s, p);
    hide Combines3, RC;
    FirstRowEntry(t.Apply(b.us[0])[p], b.e[0], b.us[1][p], b.d[0], s, PrevE(b, 0), Prev(b, 0)[p], TreeElmore(t, p));
  }

  lemma EntryOf(y: seq<real>, a: real, x: seq<real>, b: real, z: seq<real>, e: real, v: seq<real>, j: nat)
    requires Combines3(y, a, x, b, z, e, v) && j < |y|
    ensures y[j] == Mul(a, x[j]) + (Mul(b, z[j]) + Mul(e, v[j]))
  {}

  lemma FirstRowEntry(y: real, e: real, u: real, d: real, s: real, pe: real, pv: real, tau: real)
    requires y == Mul(e, u) + (Mul(d, s) + Mul(pe, pv)) && pe == 0.0 && y == Mul(s, tau)
    ensures Balanced(s, tau, Mul(e, u), d)
  {}

  /** d0 + e0 u1[p] / u0 is the delay of p: the first column of the reduced matrix carries R C exactly. */
  lemma {:induction false} FirstColumn(t: Tree, b: Basis, s: real, sqc: real, p: nat)
    requires Expanded(t, b) && |b.us| >= 2 && |b.d| >= 1 && p < |t.par|
    requires b.us[0] == Uniform(|t.par|, s) && Inverse(s, sqc)
    ensures ColumnDelay(b.d[0], b.e[0], b.us[1][p], sqc) == TreeElmore(t, p)
  {
    FirstRow(t, b, s, p);
    var d, e, u := b.d[0], b.e[0], b.us[1][p];
    hide Expanded, TreeElmore, Balanced, Inverse, ColumnDelay, Mul;
    Rearrange(d, e, u, s, sqc, TreeElmore(t, p));
  }

  lemma Rearrange(d: real, e: real, u: real, s: real, sqc: real, tau: real)
    requires Inverse(s, sqc) && Balanced(s, tau, Mul(e, u), d)
    ensures ColumnDelay(d, e, u, sqc) == tau
  {
    var x := Mul(e, u);
    assert (s * tau) * sqc == tau * (s * sqc);
    assert (x + d * s) * sqc == x * sqc + d * (s * sqc);
  }

  /** The delays of the points, as a vector. */
  ghost function Delays(t: Tree): (tau: seq<real>)
    ensures |tau| == |t.par| && forall p | 0 <= p < |t.par| :: tau[p] == TreeElmore(t, p)
  {
    seq(|t.par|, p => TreeElmore(t, p))
  }

  /** Total delay weighted by capacitance. */
  ghost function Weighted(c: seq<real>, tau: seq<real>): real { Sum(p => At(c, p) * At(tau, p), |c|) }

  lemma {:induction false} ConstantForm(c: seq<real>, s: real, y: seq<real>, tau: seq<real>)
    requires |c| == |tau| && Scaled(y, s, tau)
    ensures Ip(c, Uniform(|c|, s), y) == s * (s * Weighted(c, tau))
  {
    IpLinear(c, Uniform(|c|, s), y, s, tau, 0.0, tau);
    ConstantSide(c, s, tau);
  }

  lemma {:induction false} ConstantSide(c: seq<real>, s: real, tau: seq<real>)
    requires |c| == |tau|
    ensures Ip(c, Uniform(|c|, s), tau) == s * Weighted(c, tau)
  {
    var u := Uniform(|c|, s);
    var f, g := p => At(c, p) * At(tau, p), p => (At(c, p) * At(u, p)) * At(tau, p);
    forall p | 0 <= p < |c| ensures g(p) == s * f(p) { Gather(c[p], s, tau[p]); }
    hide At, Uniform;
    SumScale(s, f, g, |c|);
    SumEq(f, p => At(c, p) * At(tau, p), |c|);
    SumEq(g, p => (At(c, p) * At(u, p)) * At(tau, p), |c|);
  }

  /** With one vector only, d0 is the mean delay weighted by capacitance. */
  lemma {:induction false} MeanDelay(t: Tree, s: real, sqc: real, ctot: real)
    requires t.Valid() && Inverse(s, sqc) && Squares(sqc, ctot)
    ensures Ip(t.c, Uniform(|t.par|, s), t.Apply(Uniform(|t.par|, s))) * ctot == Weighted(t.c, Delays(t))
  {
    ScaledDelays(t, s);
    hide Weighted, Delays, Inverse, Squares, Scaled, RC, Ip;
    ConstantForm(t.c, s, t.Apply(Uniform(|t.par|, s)), Delays(t));
    MeanUnit(s, sqc, ctot, Weighted(t.c, Delays(t)));
  }

  lemma {:induction false} ScaledDelays(t: Tree, s: real)
    requires t.Valid()
    ensures Scaled(t.Apply(Uniform(|t.par|, s)), s, Delays(t))
  {
    forall p | 0 <= p < |t.par| ensures t.Apply(Uniform(|t.par|, s))[p] == s * Delays(t)[p] { ApplyUniform(t, s, p); }
  }

  lemma Gather(c: real, s: real, x: real)
    ensures (c * s) * x == s * (c * x)
  {}

  lemma MeanUnit(s: real, sqc: real, ctot: real, x: real)
    requires Inverse(s, sqc) && Squares(sqc, ctot)
    ensures (s * (s * x)) * ctot == x
  {
    UnitProduct(s, sqc, ctot);
    assert (s * (s * x)) * ctot == ((s * s) * ctot) * x;
  }
}
