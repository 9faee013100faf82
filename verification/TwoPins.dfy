/** Networks of two pins, on which the whole reduction can be followed: one whose model gives both pins the wrong Elmore delay, and
    one with a coupling capacitor. */
module TwoPins {
  import opened Common
  import opened Sums
  import opened RcTree
  import opened Lanczos
  import opened Rcmodel
  import opened ReducedOrder
  import opened RcGraph
  import opened ParasiticNet
  import opened ArnoldiReduce

  /** Pins with capacitances c0 and c1 joined by a resistance r, an external node, and capacitors between them. */
  function Pair(c0: real, c1: real, r: real, capacitors: seq<Capacitor>): Network {
    Network([Node(false, Some(0), c0), Node(false, Some(1), c1), Node(true, None, 0.0)], [Resistor(0, 1, r)], capacitors)
  }

  lemma ThreeOfTwo(s: seq<int>)
    requires |s| > 2 && forall i | 0 <= i < |s| :: 0 <= s[i] < 2
    ensures exists i, j | 0 <= i < j < |s| :: s[i] == s[j]
  {
    assert s[0] == s[1] || s[0] == s[2] || s[1] == s[2];
  }

  lemma {:induction false} OneTree(c0: real, c1: real, r: real, xs: seq<Capacitor>, f: real, t: Tree, ord: seq<int>, via: seq<int>)
    requires Spans(Pair(c0, c1, r, xs), f, 0, t, ord, via)
    ensures t.Valid() && t.par == [-1, 0] && t.r == [0.0, r] && ord == [0, 1]
    ensures t.c[0] == NodeCap(Pair(c0, c1, r, xs), f, 0) && t.c[1] == NodeCap(Pair(c0, c1, r, xs), f, 1)
  {
    hide NodeCap;
    var net := Pair(c0, c1, r, xs);
    assert net.Internal(1) && 1 in ord;
    var k :| 0 <= k < |ord| && ord[k] == 1;
    forall j | 0 <= j < |ord| ensures 0 <= ord[j] < 2 && t.c[j] == NodeCap(net, f, ord[j]) { assert Branch(net, f, t, ord, via, j); }
    if |ord| > 2 { ThreeOfTwo(ord); }
    assert Branch(net, f, t, ord, via, 1);
  }

  lemma Twice(f: int -> real)
    ensures Sum(f, 2) == f(0) + f(1)
  {
    assert Sum(f, 1) == Sum(f, 0) + f(0);
  }

  lemma {:induction false} PathsOfTwo(par: seq<int>)
    requires par == [-1, 0]
    ensures OnPath(par, 0, 0) && !OnPath(par, 1, 0) && OnPath(par, 0, 1) && OnPath(par, 1, 1)
  {}

  /** Only the far pin has a delay. */
  lemma {:induction false} DelaysOfTwo(t: Tree, r: real)
    requires t.Valid() && t.par == [-1, 0] && t.r == [0.0, r]
    ensures TreeElmore(t, 0) == 0.0 && TreeElmore(t, 1) == Mul(r, t.c[1])
    ensures TotalCap(t) == t.c[0] + t.c[1]
  {
    PathsOfTwo(t.par);
    forall p, j | 0 <= p < 2 && 0 <= j < 2 ensures SharedR(t.par, t.r, p, j) == if p == j == 1 then r else 0.0 {
      Twice(i => if OnPath(t.par, i, p) && OnPath(t.par, i, j) then At(t.r, i) else 0.0);
    }
    Twice(j => SharedR(t.par, t.r, 0, j) * At(t.c, j));
    Twice(j => SharedR(t.par, t.r, 1, j) * At(t.c, j));
    Twice(j => At(t.c, j));
  }

  /** Their mean and variance. */
  lemma {:induction false} SpreadOfTwo(t: Tree, tau: real)
    requires t.Valid() && |t.par| == 2 && TotalCap(t) > 0.0 && TreeElmore(t, 0) == 0.0 && TreeElmore(t, 1) == tau
    ensures Mean(t) == Mul(t.c[1], tau) / TotalCap(t)
    ensures Variance(t) == (Mul(t.c[0], Mul(Mean(t), Mean(t))) + Mul(t.c[1], Mul(tau - Mean(t), tau - Mean(t)))) / TotalCap(t)
  {
    hide TreeElmore;
    var d, m := Delays(t), Mean(t);
    Twice(p => At(t.c, p) * At(d, p));
    Twice(j => Mul(At(t.c, j), Mul(TreeElmore(t, j) - m, TreeElmore(t, j) - m)));
    assert Mul(0.0 - m, 0.0 - m) == Mul(m, m);
  }

  lemma {:induction false} Counts(c0: real, c1: real, r: real, xs: seq<Capacitor>)
    ensures var net := Pair(c0, c1, r, xs);
            Subs(net, 3) == 0 && Terms(net, 0) == 0 && Terms(net, 1) == 1 && Terms(net, 3) == 2
  {
    var net := Pair(c0, c1, r, xs);
    assert Subs(net, 0) == 0;
    assert Subs(net, 1) == 0;
    assert Subs(net, 2) == 0;
    assert Terms(net, 0) == 0;
    assert Terms(net, 1) == 1;
    assert Terms(net, 2) == 2;
  }

  lemma {:induction false} Shape(c0: real, c1: real, r: real, xs: seq<Capacitor>)
    requires forall e | 0 <= e < |xs| :: xs[e].node1 < 3 && xs[e].node2 < 3
    ensures var net := Pair(c0, c1, r, xs); net.Valid() && net.Terminal(0) && Attached(net, 0) && Connected(net, 0)
  {
    var net := Pair(c0, c1, r, xs);
    var g := NetGraph(net);
    Counts(c0, c1, r, xs);
    assert FirstTerm(net) == 1 && PointCount(net) == 3 && PointOf(net, 0) == 1 && PointOf(net, 1) == 2;
    assert g.ends == [(1, 2)];
    assert EdgePacking.Incident(g.ends, 1, 1) == [0];
    assert g.adj[1] == [0];
    assert WalkBetween(g, [1], 1, 1);
    assert g.Joins(0, 1, 2);
    assert WalkBetween(g, [1, 2], 1, 2);
  }

  lemma {:induction false} Outputs2(c0: real, c1: real, r: real, xs: seq<Capacitor>, t: Tree, ord: seq<int>, outV: seq<nat>, m: Rcmodel)
    requires t.Valid() && |ord| == |t.par| && ord == [0, 1] && Models(Pair(c0, c1, r, xs), t, ord, outV, m)
    ensures m.n == 2 && outV == [0, 1] && Readable(m)
    ensures forall k | 0 <= k < 2 :: Elmore(m, k) == if SpreadOut(t) then TreeElmore(t, k) else Mean(t)
  {
    hide TreeElmore, Mean, TotalCap, SpreadOut, Readable, Elmore, Terms;
    var net := Pair(c0, c1, r, xs);
    Counts(c0, c1, r, xs);
    assert TerminalExact(net, t, ord, m, 0, outV[0]) && TerminalExact(net, t, ord, m, 1, outV[1]);
  }

  lemma {:induction false} Charged(c0: real, c1: real, r: real, xs: seq<Capacitor>, num: Numbering)
    requires Mapped(Pair(c0, c1, r, xs), 3, num) && c0 > 0.0
    ensures GroundTotal(Pair(c0, c1, r, xs), num) >= c0
  {
    var net := Pair(c0, c1, r, xs);
    assert net.Internal(0) && PointOf(net, 0) < |num.nodeOf|;
    var p := PointOf(net, 0);
    assert GroundAt(net, num, p) == c0;
    OneTerm(q => GroundAt(net, num, q), |num.nodeOf|, p);
  }

  lemma {:induction false} OneTerm(f: int -> real, n: nat, p: nat)
    requires p < n && forall q | 0 <= q < n :: f(q) >= 0.0
    ensures Sum(f, n) >= f(p)
  {
    if p < n - 1 { OneTerm(f, n - 1, p); } else { SumNonNegative(f, n - 1); }
  }

  /** The whole reduction on such a network. */
  method ReducePair(c0: real, c1: real, r: real, xs: seq<Capacitor>, f: real, sqrt: real -> real)
    returns (m: Rcmodel, ghost t: Tree, ghost ord: seq<int>, ghost via: seq<int>, ghost outV: seq<nat>)
    requires IsSqrt(sqrt) && c0 >= CTOT_FLOOR && CouplingPositive(Pair(c0, c1, r, xs), f)
    requires forall e | 0 <= e < |xs| :: xs[e].node1 < 3 && xs[e].node2 < 3
    ensures Spans(Pair(c0, c1, r, xs), f, 0, t, ord, via) && Models(Pair(c0, c1, r, xs), t, ord, outV, m)
  {
    hide IsSqrt, Attached, Connected, CouplingPositive, Mapped, GroundTotal, Spans, TreeComplete, Models;
    var net := Pair(c0, c1, r, xs);
    Shape(c0, c1, r, xs);
    var reducer := new Reducer(net, f);
    var result;
    ghost var loop;
    result, t, ord, via, loop := reducer.ReduceToArnoldi(0, sqrt);
    Charged(c0, c1, r, xs, reducer.num);
    m, outV := result.value, reducer.outV;
  }

  // ---- order one -----------------------------------------------------------------------------

  const CAP := 0.00000000000001

  /** Two pins of ten femtofarads joined by one ohm: any model has one vector, and both of its delays are the mean. */
  lemma {:induction false} BothWrong(f: real, t: Tree, ord: seq<int>, via: seq<int>, outV: seq<nat>, m: Rcmodel)
    requires Spans(Pair(CAP, CAP, 1.0, []), f, 0, t, ord, via) && Models(Pair(CAP, CAP, 1.0, []), t, ord, outV, m)
    ensures m.order == 1 && m.n == 2 && outV == [0, 1] && Readable(m)
    ensures TreeElmore(t, 0) == 0.0 && TreeElmore(t, 1) == CAP
    ensures Elmore(m, 0) == Elmore(m, 1) == CAP / 2.0
  {
    hide TreeElmore, Spans, Models, NodeCap, Mean, TotalCap, SpreadOut, Elmore, Variance;
    OneTree(CAP, CAP, 1.0, [], f, t, ord, via);
    Uncoupled(CAP, CAP, 1.0, f);
    DelaysOfTwo(t, 1.0);
    UnitTimes(CAP);
    HalfMean(t);
    Outputs2(CAP, CAP, 1.0, [], t, ord, outV, m);
    OrderOne(CAP, CAP, 1.0, [], t, ord, outV, m);
  }

  lemma UnitTimes(x: real)
    ensures Mul(1.0, x) == x
  {}

  lemma Uncoupled(c0: real, c1: real, r: real, f: real)
    requires c0 > 0.0 && c1 > 0.0
    ensures NodeCap(Pair(c0, c1, r, []), f, 0) == c0 && NodeCap(Pair(c0, c1, r, []), f, 1) == c1
  {}

  lemma HalfMean(t: Tree)
    requires t.Valid() && |t.par| == 2 && t.c[0] == t.c[1] == CAP && TotalCap(t) == CAP + CAP && TreeElmore(t, 0) == 0.0 && TreeElmore(t, 1) == CAP
    ensures Mean(t) == CAP / 2.0 && !SpreadOut(t)
  {
    hide TreeElmore, TotalCap, Mean, Variance;
    SpreadOfTwo(t, CAP);
  }

  /** What a model says of its order. */
  lemma OrderOne(c0: real, c1: real, r: real, xs: seq<Capacitor>, t: Tree, ord: seq<int>, outV: seq<nat>, m: Rcmodel)
    requires t.Valid() && |ord| == |t.par| && Models(Pair(c0, c1, r, xs), t, ord, outV, m)
    ensures TotalCap(t) > 0.0 && (m.order >= 2 <==> SpreadOut(t)) && (Readable(m) ==> m.order >= 1)
  {}

  method ReduceTwoPins(sqrt: real -> real) returns (m: Rcmodel, ghost t: Tree)
    requires IsSqrt(sqrt)
    ensures m.order == 1 && m.n == 2 && Readable(m)
    ensures TreeElmore(t, 0) == 0.0 && TreeElmore(t, 1) == CAP
    ensures Elmore(m, 0) == Elmore(m, 1) == CAP / 2.0
  {
    hide IsSqrt, Spans, Models, Readable, TreeElmore;
    ghost var ord, via, outV;
    m, t, ord, via, outV := ReducePair(CAP, CAP, 1.0, [], 1.0, sqrt);
    BothWrong(1.0, t, ord, via, outV, m);
  }

  // ---- coupling ------------------------------------------------------------------------------

  /** A capacitor x from the far pin to the external node counts f times: the far pin's delay is r (c1 + f x).
      Negative capacitances to ground count as none. */
  lemma {:induction false} CoupledDelay(c0: real, c1: real, r: real, x: real, f: real, t: Tree, ord: seq<int>, via: seq<int>)
    requires Spans(Pair(c0, c1, r, [Capacitor(1, 2, x)]), f, 0, t, ord, via)
    ensures var g0, g1 := if c0 > 0.0 then c0 else 0.0, if c1 > 0.0 then c1 else 0.0;
            t.Valid() && t.par == [-1, 0] && t.c == [g0, g1 + f * x] && ord == [0, 1] && TotalCap(t) == g0 + (g1 + f * x)
            && TreeElmore(t, 0) == 0.0 && TreeElmore(t, 1) == r * (g1 + f * x)
  {
    hide Spans, TreeElmore, TotalCap;
    OneTree(c0, c1, r, [Capacitor(1, 2, x)], f, t, ord, via);
    CoupledCaps(c0, c1, r, x, f);
    DelaysOfTwo(t, r);
  }

  lemma CoupledCaps(c0: real, c1: real, r: real, x: real, f: real)
    ensures var net, g0, g1 := Pair(c0, c1, r, [Capacitor(1, 2, x)]), if c0 > 0.0 then c0 else 0.0, if c1 > 0.0 then c1 else 0.0;
            NodeCap(net, f, 0) == g0 && NodeCap(net, f, 1) == g1 + f * x
  {
    var net := Pair(c0, c1, r, [Capacitor(1, 2, x)]);
    assert EndTotal(net, 0, 0) == 0.0 && EndTotal(net, 0, 1) == 0.0;
    assert EndTotal(net, 1, 0) == 0.0 && EndTotal(net, 1, 1) == x;
  }

  /** Pins of ten femtofarads, a kilohm between them, twenty femtofarads of coupling counted twice: fifty picoseconds. */
  lemma {:induction false} FiftyPicoseconds(t: Tree, ord: seq<int>, via: seq<int>, outV: seq<nat>, m: Rcmodel)
    requires var net := Pair(CAP, CAP, 1000.0, [Capacitor(1, 2, 0.00000000000002)]);
             Spans(net, 2.0, 0, t, ord, via) && Models(net, t, ord, outV, m)
    ensures m.order >= 2 && m.n == 2 && Readable(m)
    ensures t.c == [0.00000000000001, 0.00000000000005]
    ensures Elmore(m, 0) == 0.0 && Elmore(m, 1) == 0.00000000005
  {
    hide TreeElmore, Spans, Models, Mean, TotalCap, SpreadOut, Elmore, Variance, Readable;
    var x := 0.00000000000002;
    CoupledDelay(CAP, CAP, 1000.0, x, 2.0, t, ord, via);
    Outputs2(CAP, CAP, 1000.0, [Capacitor(1, 2, x)], t, ord, outV, m);
    OrderOne(CAP, CAP, 1000.0, [Capacitor(1, 2, x)], t, ord, outV, m);
    SpreadOfTwo(t, 0.00000000005);
    FarApart(t);
  }

  lemma FarApart(t: Tree)
    requires t.Valid() && t.par == [-1, 0] && t.c == [0.00000000000001, 0.00000000000005] && TotalCap(t) == 0.00000000000006
    requires Mean(t) == Mul(t.c[1], 0.00000000005) / TotalCap(t)
    requires Variance(t) == (Mul(t.c[0], Mul(Mean(t), Mean(t))) + Mul(t.c[1], Mul(0.00000000005 - Mean(t), 0.00000000005 - Mean(t)))) / TotalCap(t)
    ensures SpreadOut(t)
  {
    hide TotalCap, Mean, Variance;
  }

  method ReduceCoupled(sqrt: real -> real) returns (m: Rcmodel)
    requires IsSqrt(sqrt)
    ensures m.order >= 2 && m.n == 2 && Readable(m) && Elmore(m, 0) == 0.0 && Elmore(m, 1) == 0.00000000005
  {
    hide IsSqrt, Spans, Models, Readable;
    ghost var t, ord, via, outV;
    var xs := [Capacitor(1, 2, 0.00000000000002)];
    assert CouplingPositive(Pair(CAP, CAP, 1000.0, xs), 2.0);
    m, t, ord, via, outV := ReducePair(CAP, CAP, 1000.0, xs, 2.0, sqrt);
    FiftyPicoseconds(t, ord, via, outV, m);
  }
}
