/** The reducer from end to end: a parasitic network in, a reduced model out. */
module ArnoldiReduce {
  import opened Common
  import opened Sums
  import opened RcTree
  import opened RcGraph
  import opened ParasiticNet
  import EdgePacking
  import DfsWalk
  import opened LoopFlag
  import opened Lanczos
  import opened Rcmodel
  import opened ReducedOrder

  // ---- capacitances --------------------------------------------------------------------------

  function Ground(net: Network, i: int): real
    requires net.Internal(i)
  {
    if net.nodes[i].cap > 0.0 then net.nodes[i].cap else 0.0
  }

  /** A node's capacitance to ground and f times the values of the capacitors that end there. */
  ghost function NodeCap(net: Network, f: real, i: int): real
    requires net.Internal(i)
  {
    Ground(net, i) + Mul(f, EndTotal(net, |net.capacitors|, i))
  }

  ghost predicate CouplingPositive(net: Network, f: real) {
    forall m | 0 <= m < |net.capacitors| :: Mul(f, net.capacitors[m].value) >= 0.0
  }

  lemma EndsScaled(f: real, e: real, v: real, at1: bool, at2: bool)
    ensures Mul(f, e + (if at1 then v else 0.0) + (if at2 then v else 0.0))
         == Mul(f, e) + (if at1 then v * f else 0.0) + (if at2 then v * f else 0.0)
  {}

  lemma {:induction false} CoupledNonNegative(net: Network, f: real, i: int, m: nat)
    requires m <= |net.capacitors| && CouplingPositive(net, f)
    ensures Mul(f, EndTotal(net, m, i)) >= 0.0
  {
    if m > 0 {
      var x := net.capacitors[m - 1];
      CoupledNonNegative(net, f, i, m - 1);
      EndsScaled(f, EndTotal(net, m - 1, i), x.value, x.node1 == i, x.node2 == i);
      assert Mul(f, x.value) >= 0.0;
    }
  }

  /** The capacitance to ground at point p, zero at the spare point. */
  ghost function GroundAt(net: Network, num: Numbering, p: int): real {
    if 0 <= p < |num.nodeOf| && net.Internal(num.nodeOf[p]) then Ground(net, num.nodeOf[p]) else 0.0
  }

  /** The capacitance to ground of the whole network, summed in point order. */
  ghost function GroundTotal(net: Network, num: Numbering): real {
    Sum(p => GroundAt(net, num, p), |num.nodeOf|)
  }

  /** c[p] for every point: what the first m coupling capacitors leave there. */
  ghost predicate CapsAt(net: Network, f: real, num: Numbering, c: seq<real>, m: nat)
    requires m <= |net.capacitors|
  {
    |c| == |num.nodeOf| && forall p | 0 <= p < |c| && net.Internal(num.nodeOf[p]) :: c[p] == Ground(net, num.nodeOf[p]) + Mul(f, EndTotal(net, m, num.nodeOf[p]))
  }

  /** The ground capacitance and in-edge resistance of one point. */
  method PointRC(net: Network, num: Numbering, p: nat, e: int) returns (cap: real, res: real)
    requires Mapped(net, |net.nodes|, num) && p < |num.nodeOf| && (num.nodeOf[p] != -1 ==> -1 <= e < |net.resistors|)
    ensures cap == GroundAt(net, num, p)
    ensures num.nodeOf[p] != -1 && e >= 0 ==> res == net.resistors[e].value
  {
    cap, res := 0.0, 0.0;
    if num.nodeOf[p] != -1 {
      var x := net.nodes[num.nodeOf[p]].cap;
      if x > 0.0 { cap := x; }
      if e >= 0 { res := net.resistors[e].value; }
    }
  }

  /** Resistances of the in-edges of the first m points that have a node. */
  ghost predicate ResAt(net: Network, num: Numbering, inEdge: seq<int>, r: seq<real>, m: nat) {
    && m <= |num.nodeOf| == |inEdge| == |r|
    && forall q | 0 <= q < m && num.nodeOf[q] != -1 && 0 <= inEdge[q] < |net.resistors| :: r[q] == net.resistors[inEdge[q]].value
  }

  ghost predicate GroundTo(net: Network, num: Numbering, c: seq<real>, m: nat) {
    m <= |c| == |num.nodeOf| && forall q | 0 <= q < m :: c[q] == GroundAt(net, num, q)
  }

  lemma {:induction false} FillNext(net: Network, num: Numbering, inEdge: seq<int>, c: seq<real>, r: seq<real>, m: nat, cap: real, res: real)
    requires GroundTo(net, num, c, m) && ResAt(net, num, inEdge, r, m) && m < |num.nodeOf|
    requires cap == GroundAt(net, num, m)
    requires num.nodeOf[m] != -1 && 0 <= inEdge[m] < |net.resistors| ==> res == net.resistors[inEdge[m]].value
    ensures GroundTo(net, num, c[m := cap], m + 1) && ResAt(net, num, inEdge, r[m := res], m + 1)
  {
    hide GroundAt;
  }

  lemma FillNone(net: Network, num: Numbering, inEdge: seq<int>, c: seq<real>, r: seq<real>)
    requires |inEdge| == |c| == |r| == |num.nodeOf|
    ensures GroundTo(net, num, c, 0) && ResAt(net, num, inEdge, r, 0)
  {}

  /** getRC, first loop: ground capacitances, resistances of the in-edges, and the total. */
  method GroundRC(net: Network, num: Numbering, inEdge: array<int>) returns (c: array<real>, r: array<real>, ctot: real)
    requires Mapped(net, |net.nodes|, num) && inEdge.Length == |num.nodeOf|
    requires forall p | 0 <= p < |num.nodeOf| && num.nodeOf[p] != -1 :: -1 <= inEdge[p] < |net.resistors|
    ensures fresh(c) && fresh(r) && c.Length == r.Length == |num.nodeOf| && c != r
    ensures GroundTo(net, num, c[..], |num.nodeOf|) && ResAt(net, num, inEdge[..], r[..], |num.nodeOf|)
    ensures ctot == GroundTotal(net, num)
  {
    hide GroundAt, ResAt, GroundTo;
    var n := |num.nodeOf|;
    c, r := new real[n], new real[n];
    ctot := 0.0;
    FillNone(net, num, inEdge[..], c[..], r[..]);
    var p := 0;
    while p < n
      invariant 0 <= p <= n && ctot == Sum(q => GroundAt(net, num, q), p)
      invariant GroundTo(net, num, c[..], p) && ResAt(net, num, inEdge[..], r[..], p)
    {
      var cap, res := PointRC(net, num, p, inEdge[p]);
      FillNext(net, num, inEdge[..], c[..], r[..], p, cap, res);
      ghost var c0, r0 := c[..], r[..];
      c[p], r[p] := cap, res;
      assert c[..] == c0[p := cap] && r[..] == r0[p := res];
      ctot := ctot + cap;
      p := p + 1;
    }
  }

  /** Add x at node i's point, unless i is external. */
  method AddAt(net: Network, num: Numbering, c: array<real>, i: nat, x: real)
    requires Mapped(net, |net.nodes|, num) && c.Length == |num.nodeOf| && i < |net.nodes|
    modifies c
    ensures forall p | 0 <= p < c.Length && net.Internal(num.nodeOf[p]) ::
              c[p] == old(c[p]) + if num.nodeOf[p] == i then x else 0.0
  {
    if !net.nodes[i].external {
      var p := num.ptMap[i];
      c[p] := c[p] + x;
    }
  }

  /** getRC, second loop: coupling capacitances. */
  method CoupleRC(net: Network, f: real, num: Numbering, c: array<real>)
    requires net.Valid() && Mapped(net, |net.nodes|, num) && c.Length == |num.nodeOf|
    requires CapsAt(net, f, num, c[..], 0)
    modifies c
    ensures CapsAt(net, f, num, c[..], |net.capacitors|)
  {
    hide CapsAt, Mapped;
    var m := 0;
    while m < |net.capacitors|
      invariant 0 <= m <= |net.capacitors| && CapsAt(net, f, num, c[..], m)
    {
      CoupleOne(net, f, num, c, m);
      m := m + 1;
    }
  }

  method CoupleOne(net: Network, f: real, num: Numbering, c: array<real>, m: nat)
    requires net.Valid() && Mapped(net, |net.nodes|, num) && c.Length == |num.nodeOf| && m < |net.capacitors|
    requires CapsAt(net, f, num, c[..], m)
    modifies c
    ensures CapsAt(net, f, num, c[..], m + 1)
  {
    hide Mapped, Ground, Mul;
    var x := net.capacitors[m];
    var v := x.value * f;
    ghost var c0 := c[..];
    AddAt(net, num, c, x.node1, v);
    AddAt(net, num, c, x.node2, v);
    forall p | 0 <= p < c.Length && net.Internal(num.nodeOf[p])
      ensures c[p] == Ground(net, num.nodeOf[p]) + Mul(f, EndTotal(net, m + 1, num.nodeOf[p]))
    {
      var i := num.nodeOf[p];
      assert c0[p] == Ground(net, i) + Mul(f, EndTotal(net, m, i));
      EndsScaled(f, EndTotal(net, m, i), x.value, x.node1 == i, x.node2 == i);
    }
  }

  // ---- from the walk to the tree -------------------------------------------------------------

  /** The resistors as pairs of points. */
  ghost function Ends(net: Network): seq<(nat, nat)>
    requires net.Valid()
  {
    seq(|net.resistors|, e requires 0 <= e < |net.resistors| =>
      (PointOf(net, net.resistors[e].node1), PointOf(net, net.resistors[e].node2)))
  }

  ghost function NetGraph(net: Network): Graph
    requires net.Valid()
  {
    EdgePacking.GraphOf(PointCount(net), Ends(net))
  }

  lemma MappedAt(net: Network, num: Numbering, i: nat)
    requires Mapped(net, |net.nodes|, num) && net.Internal(i)
    ensures i < |num.ptMap| && num.ptMap[i] == PointOf(net, i)
  {}

  lemma {:induction false} NetGraphValid(net: Network)
    requires net.Valid()
    ensures NetGraph(net).Valid()
  {
    forall e | 0 <= e < |net.resistors| ensures Ends(net)[e].0 < PointCount(net) && Ends(net)[e].1 < PointCount(net) {
      PointInRange(net, net.resistors[e].node1);
      PointInRange(net, net.resistors[e].node2);
    }
    EdgePacking.GraphOfValid(PointCount(net), Ends(net));
  }

  /** Every internal node is connected to the driver by resistors. */
  ghost predicate Connected(net: Network, drv: nat)
    requires net.Valid() && net.Internal(drv)
  {
    forall i | net.Internal(i) :: Reachable(NetGraph(net), PointOf(net, drv), PointOf(net, i))
  }

  /** A finished walk: the stack is empty. */
  ghost predicate Walked(g: Graph, p: nat, s: State) { Inv(g, p, s, -1) && |s.stack| == 0 && Tidy(g, s) }

  /** The point numbered j was entered by a resistor from the point numbered k < j; the first was not. */
  ghost predicate HangsAt(g: Graph, s: State, j: int) {
    && 0 <= j < |s.ord| && s.ord[j] < |s.inEdge| == |s.ts| == g.n && |s.from| == |g.ends|
    && (j == 0 ==> s.inEdge[s.ord[j]] == -1)
    && (j > 0 ==> 0 <= s.inEdge[s.ord[j]] < |g.ends| && s.from[s.inEdge[s.ord[j]]] < g.n
                  && s.ts[s.from[s.inEdge[s.ord[j]]]] < j && s.ord[s.ts[s.from[s.inEdge[s.ord[j]]]]] == s.from[s.inEdge[s.ord[j]]]
                  && g.Joins(s.inEdge[s.ord[j]], s.from[s.inEdge[s.ord[j]]], s.ord[j]))
  }

  /** Each numbered point but the first hangs from an earlier one. */
  lemma {:induction false} Hangs(g: Graph, p0: nat, s: State, j: nat)
    requires Walked(g, p0, s) && j < |s.ord|
    ensures HangsAt(g, s, j)
  {
    hide Worked, Stacked;
    if j > 0 {
      assert s.ord[j] != p0 by { assert s.ts[s.ord[0]] == 0 && s.ts[s.ord[j]] == j; }
      assert InTree(g, s, s.ord[j]);
      assert g.Joins(s.inEdge[s.ord[j]], s.from[s.inEdge[s.ord[j]]], s.to[s.inEdge[s.ord[j]]]);
    }
  }

  /** Row j of the tree: the capacitance of point ord[j], its in-edge's resistance and its parent's number. */
  ghost predicate Row(g: Graph, s: State, c: seq<real>, r: seq<real>, t: Tree, j: int)
    requires HangsAt(g, s, j)
  {
    && |c| == |r| == g.n && j < |t.par| == |t.r| == |t.c| && t.c[j] == c[s.ord[j]]
    && t.par[j] == (if j == 0 then -1 else s.ts[s.from[s.inEdge[s.ord[j]]]])
    && t.r[j] == (if j == 0 then 0.0 else r[s.ord[j]])
  }

  /** The tree the walk leaves, in numbering order. */
  ghost predicate TreeOf(g: Graph, s: State, c: seq<real>, r: seq<real>, t: Tree) {
    |s.ord| > 0 && Rows(g, s, c, r, t, |s.ord|)
  }

  lemma {:induction false} TreeOfValid(g: Graph, s: State, c: seq<real>, r: seq<real>, t: Tree)
    requires TreeOf(g, s, c, r, t)
    ensures t.Valid()
  {
    assert Row(g, s, c, r, t, 0);
    forall j | 1 <= j < |t.par| ensures 0 <= t.par[j] < j {
      assert HangsAt(g, s, j) && Row(g, s, c, r, t, j);
    }
  }

  /** Rows 0 to j - 1 are in place. */
  ghost predicate Rows(g: Graph, s: State, c: seq<real>, r: seq<real>, t: Tree, j: nat) {
    |t.par| == |t.r| == |t.c| == j && forall i | 0 <= i < j :: HangsAt(g, s, i) && Row(g, s, c, r, t, i)
  }

  lemma {:induction false} RowsGrow(g: Graph, s: State, c: seq<real>, r: seq<real>, t: Tree, j: nat, t': Tree)
    requires Rows(g, s, c, r, t, j) && |t'.par| == |t'.r| == |t'.c| == j + 1
    requires t'.par[..j] == t.par && t'.r[..j] == t.r && t'.c[..j] == t.c
    requires HangsAt(g, s, j) && Row(g, s, c, r, t', j)
    ensures Rows(g, s, c, r, t', j + 1)
  {
    hide HangsAt;
    forall i | 0 <= i < j ensures HangsAt(g, s, i) && Row(g, s, c, r, t', i) {
      assert Row(g, s, c, r, t, i);
      assert t'.par[..j][i] == t.par[i] && t'.r[..j][i] == t.r[i] && t'.c[..j][i] == t.c[i];
    }
  }

  /** The opening loop of makeRcmodelFromTs: copy the tree out in numbering order. */
  method FillTree(w: DfsWalk.Walker, c: seq<real>, r: seq<real>) returns (t: Tree)
    requires w.Synced() && Walked(w.g, w.drv, w.s) && |c| == |r| == w.g.n
    ensures TreeOf(w.g, w.s, c, r, t) && t.Valid()
  {
    Hangs(w.g, w.drv, w.s, 0);
    t := Tree([-1], [0.0], [c[w.ordV[0]]]);
    var j := 1;
    while j < w.ordN
      invariant 1 <= j <= w.ordN && Rows(w.g, w.s, c, r, t, j)
    {
      Hangs(w.g, w.drv, w.s, j);
      t := NextRow(w, c, r, t, j);
      j := j + 1;
    }
    TreeOfValid(w.g, w.s, c, r, t);
  }

  method NextRow(w: DfsWalk.Walker, c: seq<real>, r: seq<real>, t: Tree, j: nat) returns (t': Tree)
    requires w.Synced() && |c| == |r| == w.g.n && HangsAt(w.g, w.s, j) && j > 0 && Rows(w.g, w.s, c, r, t, j)
    ensures Rows(w.g, w.s, c, r, t', j + 1)
  {
    var p := w.ordV[j];
    t' := Tree(t.par + [w.ts[w.from[w.inEdge[p]]]], t.r + [r[p]], t.c + [c[p]]);
    RowsGrow(w.g, w.s, c, r, t, j, t');
  }

  // ---- the tree in terms of the network ------------------------------------------------------

  ghost predicate JoinsNodes(net: Network, e: int, i: int, j: int) {
    && 0 <= e < |net.resistors|
    && ((net.resistors[e].node1 == i && net.resistors[e].node2 == j) || (net.resistors[e].node1 == j && net.resistors[e].node2 == i))
  }

  /** Branch j of the tree: node ord[j], its capacitance, and the resistor via[j] to its parent. */
  ghost predicate Branch(net: Network, f: real, t: Tree, ord: seq<int>, via: seq<int>, j: int)
    requires t.Valid() && |ord| == |via| == |t.par|
  {
    && 0 <= j < |ord| && net.Internal(ord[j]) && t.c[j] == NodeCap(net, f, ord[j])
    && (j > 0 ==> JoinsNodes(net, via[j], ord[t.par[j]], ord[j]) && t.r[j] == net.resistors[via[j]].value)
  }

  /** t is a spanning tree of the network rooted at the driver. */
  ghost predicate Spans(net: Network, f: real, drv: nat, t: Tree, ord: seq<int>, via: seq<int>) {
    && t.Valid() && |ord| == |via| == |t.par| && ord[0] == drv
    && (forall i, j | 0 <= i < j < |ord| :: ord[i] != ord[j])
    && (forall j | 0 <= j < |ord| :: Branch(net, f, t, ord, via, j))
    && (forall i | net.Internal(i) :: i in ord)
  }

  /** The driver's walk, seen through the numbering. */
  ghost predicate Setting(net: Network, drv: nat, num: Numbering, s: State) {
    && net.Valid() && net.Internal(drv) && Mapped(net, |net.nodes|, num)
    && Walked(NetGraph(net), PointOf(net, drv), s)
  }

  ghost function NodeOrder(num: Numbering, s: State): seq<int>
  {
    seq(|s.ord|, j requires 0 <= j < |s.ord| => if s.ord[j] < |num.nodeOf| then num.nodeOf[s.ord[j]] else -1)
  }

  ghost function EntryEdges(s: State): seq<int>
  {
    seq(|s.ord|, j requires 0 <= j < |s.ord| => if s.ord[j] < |s.inEdge| then s.inEdge[s.ord[j]] else -1)
  }

  /** Every point seen belongs to an internal node. */
  lemma {:induction false} SeenHasNode(net: Network, drv: nat, num: Numbering, s: State, j: nat)
    requires Setting(net, drv, num, s) && j < |s.ord|
    ensures s.ord[j] < |num.nodeOf| == PointCount(net) && net.Internal(num.nodeOf[s.ord[j]])
    ensures PointOf(net, num.nodeOf[s.ord[j]]) == s.ord[j]
  {
    Hangs(NetGraph(net), PointOf(net, drv), s, j);
    if j > 0 {
      var e := s.inEdge[s.ord[j]];
      hide Walked;
      assert NetGraph(net).ends[e] == Ends(net)[e];
      var x := if Ends(net)[e].0 == s.ord[j] then net.resistors[e].node1 else net.resistors[e].node2;
      assert net.Internal(x) && PointOf(net, x) == s.ord[j];
    } else {
      assert s.ord[0] == PointOf(net, drv);
    }
  }

  /** A resistor entering a point joins the two nodes. */
  lemma {:induction false} EntryJoins(net: Network, drv: nat, num: Numbering, s: State, j: nat)
    requires Setting(net, drv, num, s) && 0 < j < |s.ord| && HangsAt(NetGraph(net), s, j)
    ensures var k := s.ts[s.from[s.inEdge[s.ord[j]]]];
            0 <= k < j && JoinsNodes(net, s.inEdge[s.ord[j]], NodeOrder(num, s)[k], NodeOrder(num, s)[j])
  {
    var e := s.inEdge[s.ord[j]];
    var k := s.ts[s.from[e]];
    SeenHasNode(net, drv, num, s, j);
    SeenHasNode(net, drv, num, s, k);
    hide Walked;
    assert NetGraph(net).ends[e] == Ends(net)[e];
    var x, y := net.resistors[e].node1, net.resistors[e].node2;
    assert net.Internal(x) && net.Internal(y);
    assert num.nodeOf[PointOf(net, x)] == x && num.nodeOf[PointOf(net, y)] == y;
  }

  lemma {:induction false} BranchHolds(net: Network, f: real, drv: nat, num: Numbering, s: State, c: seq<real>, r: seq<real>, t: Tree, j: nat)
    requires Setting(net, drv, num, s) && TreeOf(NetGraph(net), s, c, r, t) && t.Valid() && j < |s.ord|
    requires CapsAt(net, f, num, c, |net.capacitors|) && ResAt(net, num, s.inEdge, r, |num.nodeOf|)
    ensures Branch(net, f, t, NodeOrder(num, s), EntryEdges(s), j)
  {
    assert HangsAt(NetGraph(net), s, j) && Row(NetGraph(net), s, c, r, t, j);
    SeenHasNode(net, drv, num, s, j);
    if j > 0 { EntryJoins(net, drv, num, s, j); }
    CapIs(net, f, num, c, s.ord[j]);
    hide Walked, Rows, NodeCap, CapsAt, JoinsNodes;
  }

  lemma {:induction false} CapIs(net: Network, f: real, num: Numbering, c: seq<real>, p: nat)
    requires CapsAt(net, f, num, c, |net.capacitors|) && p < |num.nodeOf| && net.Internal(num.nodeOf[p])
    ensures c[p] == NodeCap(net, f, num.nodeOf[p])
  {}

  /** Every internal node is in the tree. */
  lemma {:induction false} Covers(net: Network, drv: nat, num: Numbering, s: State, i: nat)
    requires Setting(net, drv, num, s) && Connected(net, drv) && net.Internal(i)
    ensures PointOf(net, i) < |s.seen| == |s.ts| == PointCount(net) && s.seen[PointOf(net, i)]
    ensures s.ts[PointOf(net, i)] < |s.ord| && NodeOrder(num, s)[s.ts[PointOf(net, i)]] == i
  {
    var p := PointOf(net, i);
    PointInRange(net, i);
    assert Reachable(NetGraph(net), PointOf(net, drv), p);
    SeenIffReachable(NetGraph(net), PointOf(net, drv), s, p);
    hide Worked, Stacked, Entered;
    assert s.ord[s.ts[p]] == p;
  }

  lemma {:induction false} OrderDistinct(net: Network, drv: nat, num: Numbering, s: State, i: nat, j: nat)
    requires Setting(net, drv, num, s) && i < j < |s.ord|
    ensures NodeOrder(num, s)[i] != NodeOrder(num, s)[j]
  {
    SeenHasNode(net, drv, num, s, i);
    SeenHasNode(net, drv, num, s, j);
    assert s.ts[s.ord[i]] == i && s.ts[s.ord[j]] == j by { hide Worked, Stacked, Entered; }
  }

  lemma {:induction false} WalkSpans(net: Network, f: real, drv: nat, num: Numbering, s: State, c: seq<real>, r: seq<real>, t: Tree)
    requires Setting(net, drv, num, s) && Connected(net, drv) && TreeOf(NetGraph(net), s, c, r, t) && t.Valid()
    requires CapsAt(net, f, num, c, |net.capacitors|) && ResAt(net, num, s.inEdge, r, |num.nodeOf|)
    ensures Spans(net, f, drv, t, NodeOrder(num, s), EntryEdges(s))
  {
    hide Walked, TreeOf, CapsAt, ResAt, Branch, Connected, Mapped;
    var ord, via := NodeOrder(num, s), EntryEdges(s);
    TreeSize(net, s, c, r, t);
    forall j | 0 <= j < |ord| ensures Branch(net, f, t, ord, via, j) { BranchHolds(net, f, drv, num, s, c, r, t, j); }
    forall i, j | 0 <= i < j < |ord| ensures ord[i] != ord[j] { OrderDistinct(net, drv, num, s, i, j); }
    forall i | net.Internal(i) ensures i in ord { Covers(net, drv, num, s, i); }
    DriverIsFirst(net, drv, num, s);
  }

  lemma TreeSize(net: Network, s: State, c: seq<real>, r: seq<real>, t: Tree)
    requires net.Valid() && TreeOf(NetGraph(net), s, c, r, t)
    ensures |t.par| == |s.ord|
  {}

  lemma {:induction false} DriverIsFirst(net: Network, drv: nat, num: Numbering, s: State)
    requires Setting(net, drv, num, s)
    ensures |NodeOrder(num, s)| > 0 && NodeOrder(num, s)[0] == drv
  {
    hide Entered, Stacked, Worked, Tidy;
    assert 0 < |s.ord|;
    SeenHasNode(net, drv, num, s, 0);
    assert s.ord[0] == PointOf(net, drv);
  }

  /** When the walk met no loop, every resistor between two different nodes is in the tree. */
  lemma {:induction false} NoLoop(net: Network, drv: nat, num: Numbering, s: State, e: nat)
    requires Setting(net, drv, num, s) && Connected(net, drv) && !s.loop
    requires e < |net.resistors| && net.resistors[e].node1 != net.resistors[e].node2
    ensures e in EntryEdges(s)
  {
    var g := NetGraph(net);
    var x, y := net.resistors[e].node1, net.resistors[e].node2;
    assert net.Internal(x) && net.Internal(y);
    var p, q := PointOf(net, x), PointOf(net, y);
    if x < y { PointInjective(net, x, y); } else { PointInjective(net, y, x); }
    Covers(net, drv, num, s, x);
    Covers(net, drv, num, s, y);
    NetGraphValid(net);
    assert g.ends[e] == Ends(net)[e] == (p, q) && g.Listed(p) && g.Touches(e, p);
    var k :| 0 <= k < |g.adj[p]| && g.adj[p][k] == e;
    CoveredThere(g, PointOf(net, drv), s, p, k);
    assert s.inEdge[p] == e || s.inEdge[q] == e;
    var z := if s.inEdge[p] == e then p else q;
    SeenNumbered(g, PointOf(net, drv), s, z);
    assert EntryEdges(s)[s.ts[z]] == e;
  }

  /** If the flag is up, some resistor between different nodes entered neither: the network has a loop. */
  lemma {:induction false} LoopIsReal(net: Network, drv: nat, num: Numbering, s: State) returns (e: nat)
    requires Setting(net, drv, num, s) && s.loop
    ensures e < |net.resistors| && net.resistors[e].node1 != net.resistors[e].node2 && e !in EntryEdges(s)
  {
    hide Numbered, Entered, Stacked, Worked;
    var g := NetGraph(net);
    e :| Spare(g, s, e);
    assert g.ends[e] == Ends(net)[e];
    hide Mapped;
    forall j | 0 <= j < |s.ord| ensures EntryEdges(s)[j] != e { OrdSeen(g, PointOf(net, drv), s, j); }
  }

  lemma OrdSeen(g: Graph, p: nat, s: State, j: nat)
    requires Inv(g, p, s, -1) && j < |s.ord|
    ensures |s.inEdge| == |s.seen| == g.n && s.ord[j] < g.n && s.seen[s.ord[j]]
  {}

  lemma {:induction false} CoveredThere(g: Graph, p0: nat, s: State, p: nat, k: nat)
    requires Walked(g, p0, s) && p < g.n && s.seen[p] && k < |g.adj[p]|
    ensures Covered(g, s, p, k)
  {
    hide Numbered, Entered, Stacked;
    assert !Active(s, p);
    assert Finished(g, s, p);
  }

  lemma {:induction false} SeenNumbered(g: Graph, p0: nat, s: State, p: nat)
    requires Walked(g, p0, s) && p < g.n && s.seen[p]
    ensures |s.inEdge| == g.n && s.ts[p] < |s.ord| && s.ord[s.ts[p]] == p
  {
    hide Worked, Entered, Stacked;
  }

  // ---- the remaining steps -------------------------------------------------------------------

  /** The terminals in driver order: the driver's first, the one it displaces in the driver's place. */
  ghost predicate DriverFirst(termV: seq<nat>, k0: nat) {
    k0 < |termV| && forall k | 0 <= k < |termV| :: termV[k] == if k == 0 then k0 else if k == k0 then 0 else k
  }

  /** A permutation of the terminals. */
  lemma {:induction false} DriverFirstPermutes(termV: seq<nat>, k0: nat)
    requires DriverFirst(termV, k0)
    ensures |termV| > 0 && termV[0] == k0 && Distinct(termV) && forall k | 0 <= k < |termV| :: termV[k] < |termV| && k in termV
  {
    forall k | 0 <= k < |termV| ensures k in termV {
      assert termV[if k == 0 then k0 else if k == k0 then 0 else k] == k;
    }
  }

  /** Output k is the number of terminal termV[k]'s point. */
  ghost predicate Numbers(outV: seq<nat>, termV: seq<nat>, ts: seq<nat>, pterm0: nat) {
    |outV| == |termV| && forall k | 0 <= k < |outV| :: pterm0 + termV[k] < |ts| && outV[k] == ts[pterm0 + termV[k]]
  }

  /** setTerms */
  method SetTerms(termN: nat, pterm0: nat, k0: nat, ts: seq<nat>) returns (termV: seq<nat>, outV: seq<nat>)
    requires k0 < termN && pterm0 + termN == |ts|
    ensures |termV| == termN && DriverFirst(termV, k0) && Numbers(outV, termV, ts, pterm0)
  {
    termV, outV := [k0], [];
    var k := 1;
    while k < termN
      invariant 1 <= k <= termN && |termV| == k
      invariant forall i | 0 <= i < k :: termV[i] == if i == 0 then k0 else if i == k0 then 0 else i
    {
      termV := termV + [if k == k0 then 0 else k];
      k := k + 1;
    }
    k := 0;
    while k < termN
      invariant 0 <= k <= termN && |outV| == k && forall i | 0 <= i < k :: outV[i] == ts[pterm0 + termV[i]]
    {
      outV := outV + [ts[pterm0 + termV[k]]];
      k := k + 1;
    }
  }

  /** makeRcmodelFromW: the result is copied out with the pins in driver order. */
  method MakeRcmodelFromW(order: nat, d: seq<real>, e: seq<real>, U: seq<seq<real>>, ctot: real, sqc: real,
                          termV: seq<nat>, pinV: seq<nat>) returns (m: Rcmodel)
    requires |termV| == |pinV| && forall k | 0 <= k < |termV| :: termV[k] < |pinV|
    ensures m.order == order && m.n == |termV| && m.d == d && m.e == e && m.U == U && m.ctot == ctot && m.sqc == sqc
    ensures |m.pinV| == m.n && forall j | 0 <= j < m.n :: m.pinV[j] == pinV[termV[j]]
  {
    var pins: seq<nat> := [];
    var j := 0;
    while j < |termV|
      invariant 0 <= j <= |termV| && |pins| == j && forall i | 0 <= i < j :: pins[i] == pinV[termV[i]]
    {
      pins := pins + [pinV[termV[j]]];
      j := j + 1;
    }
    m := Rcmodel(order, |termV|, d, e, U, pins, ctot, sqc);
  }

  const CTOT_FLOOR := 0.0000000000000000000001

  lemma {:induction false} SumPositive(f: int -> real, n: nat) returns (p: nat)
    requires Sum(f, n) > 0.0
    ensures p < n && f(p) > 0.0
  {
    if f(n - 1) > 0.0 { p := n - 1; } else { p := SumPositive(f, n - 1); }
  }

  lemma {:induction false} SumAtLeast(f: int -> real, n: nat, j: nat)
    requires j < n && f(j) > 0.0 && forall i | 0 <= i < n :: f(i) >= 0.0
    ensures Sum(f, n) > 0.0
  {
    if j == n - 1 { SumNonNegative(f, n - 1); } else { SumAtLeast(f, n - 1, j); }
  }

  lemma {:induction false} BranchCap(net: Network, f: real, t: Tree, ord: seq<int>, via: seq<int>, k: nat)
    requires t.Valid() && |ord| == |via| == |t.par| && Branch(net, f, t, ord, via, k) && CouplingPositive(net, f)
    ensures t.c[k] >= Ground(net, ord[k]) >= 0.0
  {
    CoupledNonNegative(net, f, ord[k], |net.capacitors|);
  }

  /** The reached capacitance is positive: some node has capacitance and every node is reached. */
  lemma {:induction false} TreeCharged(net: Network, f: real, drv: nat, num: Numbering, t: Tree, ord: seq<int>, via: seq<int>)
    requires Spans(net, f, drv, t, ord, via) && Mapped(net, |net.nodes|, num) && CouplingPositive(net, f)
    requires GroundTotal(net, num) > 0.0
    ensures Sum(j => At(t.c, j), |t.c|) > 0.0
  {
    var p := SumPositive(p => GroundAt(net, num, p), |num.nodeOf|);
    var i := num.nodeOf[p];
    assert net.Internal(i) && Ground(net, i) > 0.0 && i in ord;
    var j :| 0 <= j < |ord| && ord[j] == i;
    hide CouplingPositive, Mapped;
    forall k | 0 <= k < |t.c| ensures t.c[k] >= 0.0 {
      assert Branch(net, f, t, ord, via, k);
      BranchCap(net, f, t, ord, via, k);
    }
    assert Branch(net, f, t, ord, via, j);
    BranchCap(net, f, t, ord, via, j);
    hide Spans, Branch;
    SumAtLeast(j => At(t.c, j), |t.c|, j);
  }

  // ---- the whole reduction -------------------------------------------------------------------

  /** Terminal k of the model is the pin of node ord[j]; its Elmore delay is exact when the delays of the tree are spread out, else
      it is their mean. */
  ghost predicate TerminalExact(net: Network, t: Tree, ord: seq<int>, m: Rcmodel, k: nat, j: nat)
    requires t.Valid() && |ord| == |t.par| && TotalCap(t) > 0.0
  {
    && k < m.n == |m.pinV| && j < |ord| && net.Terminal(ord[j]) && net.nodes[ord[j]].pin == Some(m.pinV[k])
    && Readable(m)
    && Elmore(m, k) == if SpreadOut(t) then TreeElmore(t, j) else Mean(t)
  }

  /** The model has the entries that elmore reads. */
  ghost predicate Readable(m: Rcmodel) {
    && m.order >= 1 && Sized(m) && m.n > 0
    && (m.order > 1 ==> m.U[0][0] != 0.0)
  }

  lemma Reciprocal2(x: real)
    requires x > 0.0
    ensures 1.0 / x != 0.0 && 1.0 / (1.0 / x) == x && Inverse(1.0 / x, x)
  {
    assert (1.0 / x) * x == 1.0;
  }

  /** What elmore reads from a finished reduction that starts from the constant vector of length one. */
  lemma {:induction false} ModelExact(t: Tree, b: Basis, U: seq<seq<real>>, outV: seq<nat>, m: Rcmodel, s: real, k: nat)
    requires Reduced(t, b) && Sampled(U, b.us, outV) && |U| == |b.us| && m.order == |b.us| && m.n == |outV| == |m.pinV|
    requires m.d == b.d && m.e == b.e && m.U == U && Squares(m.sqc, m.ctot) && m.ctot == TotalCap(t) > 0.0
    requires s != 0.0 && 1.0 / s == m.sqc && Inverse(s, m.sqc) && b.us[0] == Uniform(|t.par|, s) && k < m.n
    ensures Readable(m)
    ensures Elmore(m, k) == if SpreadOut(t) then TreeElmore(t, outV[k]) else Mean(t)
  {
    SampledAt(U, b.us, outV, 0, 0);
    assert U[0][0] == s;
    assert Readable(m);
    hide SpreadOut, Mean, TotalCap;
    OrderIff(t, b, s, m.sqc);
    if m.order > 1 {
      SampledAt(U, b.us, outV, 1, k);
      hide Squares, Sampled, Readable, ColumnDelay;
      FirstColumn(t, b, s, m.sqc, outV[k]);
      assert 1.0 / m.U[0][0] == m.sqc;
    }
  }

  lemma {:induction false} SampledAt(U: seq<seq<real>>, us: seq<seq<real>>, outV: seq<nat>, h: nat, k: nat)
    requires Sampled(U, us, outV) && h < |U| && k < |outV|
    ensures |U[h]| == |outV| && h < |us| && outV[k] < |us[h]| && U[h][k] == us[h][outV[k]]
  {}

  /** getRC: ground capacitances first, whose total is returned, then coupling. */
  method GetRC(net: Network, f: real, num: Numbering, inEdge: array<int>) returns (c: array<real>, r: array<real>, ctot: real)
    requires net.Valid() && Mapped(net, |net.nodes|, num) && inEdge.Length == |num.nodeOf|
    requires forall p | 0 <= p < |num.nodeOf| && num.nodeOf[p] != -1 :: -1 <= inEdge[p] < |net.resistors|
    ensures c.Length == r.Length == |num.nodeOf|
    ensures CapsAt(net, f, num, c[..], |net.capacitors|) && ResAt(net, num, inEdge[..], r[..], |num.nodeOf|)
    ensures ctot == GroundTotal(net, num)
  {
    c, r, ctot := GroundRC(net, num, inEdge);
    CoupledZero(net, f, num, c[..]);
    hide Mapped, GroundTo, ResAt, CapsAt;
    CoupleRC(net, f, num, c);
  }

  lemma {:induction false} EndsInRange(net: Network)
    requires net.Valid()
    ensures forall e | 0 <= e < |Ends(net)| :: Ends(net)[e].0 < PointCount(net) && Ends(net)[e].1 < PointCount(net)
  {
    forall e | 0 <= e < |net.resistors| ensures Ends(net)[e].0 < PointCount(net) && Ends(net)[e].1 < PointCount(net) {
      PointInRange(net, net.resistors[e].node1);
      PointInRange(net, net.resistors[e].node2);
    }
  }

  lemma {:induction false} CoupledZero(net: Network, f: real, num: Numbering, c: seq<real>)
    requires GroundTo(net, num, c, |num.nodeOf|)
    ensures CapsAt(net, f, num, c, 0)
  {}

  lemma {:induction false} InEdgesInRange(net: Network, drv: nat, num: Numbering, s: State)
    requires Setting(net, drv, num, s) && Connected(net, drv)
    ensures |s.inEdge| == |num.nodeOf| && forall p | 0 <= p < |num.nodeOf| && num.nodeOf[p] != -1 :: -1 <= s.inEdge[p] < |net.resistors|
  {
    forall p | 0 <= p < |num.nodeOf| && num.nodeOf[p] != -1
      ensures p < |s.inEdge| && -1 <= s.inEdge[p] < |net.resistors|
    {
      Covers(net, drv, num, s, num.nodeOf[p]);
      SeenNumbered(NetGraph(net), PointOf(net, drv), s, p);
      Hangs(NetGraph(net), PointOf(net, drv), s, s.ts[p]);
    }
    assert |s.inEdge| == PointCount(net);
  }

  // ---- terminals -----------------------------------------------------------------------------

  /** Output k is where the tree holds the node of pin pinV[termV[k]]. */
  ghost predicate OutputAt(net: Network, ord: seq<int>, outV: seq<nat>, termV: seq<nat>, pinV: seq<nat>, k: nat) {
    && k < |outV| == |termV| && termV[k] < |pinV| && outV[k] < |ord|
    && net.Terminal(ord[outV[k]]) && net.nodes[ord[outV[k]]].pin == Some(pinV[termV[k]])
    && PointOf(net, ord[outV[k]]) == FirstTerm(net) + termV[k]
  }

  lemma {:induction false} OutputHolds(net: Network, drv: nat, num: Numbering, s: State, termV: seq<nat>, outV: seq<nat>, k: nat)
    requires Setting(net, drv, num, s) && Connected(net, drv) && Pinned(net, |net.nodes|, num)
    requires |termV| == |outV| == |num.pinV| && k < |termV| && termV[k] < |num.pinV|
    requires |s.ts| == PointCount(net) && outV[k] == s.ts[FirstTerm(net) + termV[k]]
    ensures OutputAt(net, NodeOrder(num, s), outV, termV, num.pinV, k)
  {
    hide Walked, Connected;
    assert PinAt(net, num, termV[k]);
    var i := num.nodeOf[FirstTerm(net) + termV[k]];
    assert PointOf(net, i) == FirstTerm(net) + termV[k];
    Covers(net, drv, num, s, i);
  }

  /** The driver is output 0 and node 0 of the tree. */
  lemma {:induction false} DriverOutput(net: Network, drv: nat, num: Numbering, s: State)
    requires Setting(net, drv, num, s)
    ensures |s.ts| == PointCount(net) && PointOf(net, drv) < PointCount(net) && s.ts[PointOf(net, drv)] == 0
  {
    hide Worked, Stacked, Entered;
    PointInRange(net, drv);
    assert s.ts[s.ord[0]] == 0;
  }

  /** The loop flag is down exactly when the tree holds every resistor that joins two nodes. */
  ghost predicate TreeComplete(net: Network, via: seq<int>, loop: bool) {
    !loop <==> forall e | 0 <= e < |net.resistors| && net.resistors[e].node1 != net.resistors[e].node2 :: e in via
  }

  /** One output for each pin, the driver's first, which is the root of the tree. */
  ghost predicate Outputs(net: Network, ord: seq<int>, outV: seq<nat>, termV: seq<nat>, pinV: seq<nat>) {
    && |pinV| == |termV| == |outV| > 0 && outV[0] == 0 && Distinct(termV)
    && forall k | 0 <= k < |termV| :: OutputAt(net, ord, outV, termV, pinV, k)
  }

  lemma {:induction false} CompleteHolds(net: Network, drv: nat, num: Numbering, s: State)
    requires Setting(net, drv, num, s) && Connected(net, drv)
    ensures TreeComplete(net, EntryEdges(s), s.loop)
  {
    hide Connected, Walked;
    if !s.loop {
      forall e | 0 <= e < |net.resistors| && net.resistors[e].node1 != net.resistors[e].node2 ensures e in EntryEdges(s) {
        NoLoop(net, drv, num, s, e);
      }
    } else {
      var e := LoopIsReal(net, drv, num, s);
    }
  }

  lemma {:induction false} OutputsHold(net: Network, drv: nat, num: Numbering, s: State, termV: seq<nat>, outV: seq<nat>)
    requires Setting(net, drv, num, s) && Connected(net, drv) && Pinned(net, |net.nodes|, num) && net.Terminal(drv)
    requires |termV| == |num.pinV| && DriverFirst(termV, Terms(net, drv)) && Numbers(outV, termV, s.ts, FirstTerm(net))
    ensures Outputs(net, NodeOrder(num, s), outV, termV, num.pinV)
  {
    hide Setting, Connected, Pinned, DriverFirst;
    DriverFirstPermutes(termV, Terms(net, drv));
    DriverOutput(net, drv, num, s);
    assert FirstTerm(net) + termV[0] == PointOf(net, drv);
    forall k | 0 <= k < |termV| ensures OutputAt(net, NodeOrder(num, s), outV, termV, num.pinV, k) {
      OutputHolds(net, drv, num, s, termV, outV, k);
    }
  }

  /** The walk from the driver's point. */
  method Traverse(net: Network, num: Numbering, g: Graph, drv: nat) returns (w: DfsWalk.Walker)
    requires net.Valid() && Mapped(net, |net.nodes|, num) && g == NetGraph(net) && g.Valid() && net.Internal(drv)
    requires |g.adj| == PointCount(net) && PointOf(net, drv) < |g.adj| && |g.adj[PointOf(net, drv)]| > 0
    ensures w.Synced() && w.g == g && w.drv == PointOf(net, drv) && Setting(net, drv, num, w.s)
    ensures w.inEdge[..] == w.s.inEdge && w.ts[..] == w.s.ts
  {
    w := new DfsWalk.Walker(g, num.ptMap[drv]);
    forall e | 0 <= e < |g.ends| ensures g.Joins(e, w.from[e], w.to[e]) {}
    hide Graph.Valid, Mapped;
    w.Walk();
  }

  /** The terminals of a finished walk. */
  method PlaceTerms(net: Network, num: Numbering, w: DfsWalk.Walker, drv: nat, pterm0: nat) returns (termV: seq<nat>, outV: seq<nat>)
    requires w.Synced() && Setting(net, drv, num, w.s) && w.g == NetGraph(net)
    requires Connected(net, drv) && Pinned(net, |net.nodes|, num) && net.Terminal(drv) && pterm0 == FirstTerm(net)
    ensures Outputs(net, NodeOrder(num, w.s), outV, termV, num.pinV)
  {
    CountsGrow(net, drv, |net.nodes|);
    CountsGrow(net, drv + 1, |net.nodes|);
    assert num.ptMap[drv] == PointOf(net, drv) == FirstTerm(net) + Terms(net, drv);
    assert |w.s.ts| == PointCount(net);
    hide Setting, Connected, Mapped, Inv;
    termV, outV := SetTerms(|num.pinV|, pterm0, num.ptMap[drv] - pterm0, w.ts[..]);
    hide Pinned, DriverFirst, Numbers;
    OutputsHold(net, drv, num, w.s, termV, outV);
  }

  /** The tree of a finished walk. */
  method PlaceTree(net: Network, f: real, num: Numbering, w: DfsWalk.Walker, ghost drv: nat, c: seq<real>, r: seq<real>) returns (t: Tree)
    requires w.Synced() && Setting(net, drv, num, w.s) && w.g == NetGraph(net) && w.drv == PointOf(net, drv)
    requires Connected(net, drv) && CouplingPositive(net, f) && |c| == |r| == |num.nodeOf|
    requires CapsAt(net, f, num, c, |net.capacitors|) && ResAt(net, num, w.s.inEdge, r, |num.nodeOf|)
    requires GroundTotal(net, num) > 0.0
    ensures Spans(net, f, drv, t, NodeOrder(num, w.s), EntryEdges(w.s)) && TreeComplete(net, EntryEdges(w.s), w.s.loop)
    ensures Sum(j => At(t.c, j), |t.c|) > 0.0
  {
    assert w.g.n == PointCount(net) == |num.nodeOf|;
    hide Inv, Connected, CouplingPositive, CapsAt, ResAt, GroundTotal;
    t := FillTree(w, c, r);
    hide TreeOf;
    WalkSpans(net, f, drv, num, w.s, c, r, t);
    CompleteHolds(net, drv, num, w.s);
    hide Spans, TreeComplete;
    TreeCharged(net, f, drv, num, t, NodeOrder(num, w.s), EntryEdges(w.s));
  }

  /** What the numeric reduction starts from: a spanning tree with charge, and its outputs. */
  ghost predicate Ready(net: Network, f: real, drv: nat, pinV: seq<nat>, t: Tree, ord: seq<int>, via: seq<int>, loop: bool,
                        termV: seq<nat>, outV: seq<nat>) {
    && Spans(net, f, drv, t, ord, via) && TreeComplete(net, via, loop) && Outputs(net, ord, outV, termV, pinV)
    && Sum(j => At(t.c, j), |t.c|) > 0.0
  }

  /** The driver has a resistor. */
  ghost predicate Attached(net: Network, drv: nat)
    requires net.Valid() && net.Internal(drv)
  {
    |NetGraph(net).adj| == PointCount(net) && PointOf(net, drv) < PointCount(net) && |NetGraph(net).adj[PointOf(net, drv)]| > 0
  }

  /** Walk, capacitances, terminals and tree; no tree when there is no capacitance. */
  method FindTree(net: Network, f: real, num: Numbering, g: Graph, drv: nat, pterm0: nat)
    returns (t: Option<Tree>, total: real, termV: seq<nat>, outV: seq<nat>, ghost ord: seq<int>, ghost via: seq<int>, ghost loop: bool)
    requires net.Valid() && Mapped(net, |net.nodes|, num) && Pinned(net, |net.nodes|, num) && pterm0 == FirstTerm(net)
    requires g == NetGraph(net) && g.Valid() && net.Terminal(drv) && Attached(net, drv)
    requires Connected(net, drv) && CouplingPositive(net, f)
    ensures total == GroundTotal(net, num) && (t.None? <==> total < CTOT_FLOOR)
    ensures t.Some? ==> Ready(net, f, drv, num.pinV, t.value, ord, via, loop, termV, outV)
  {
    hide Connected, CouplingPositive, Graph.Valid, Mapped, Pinned;
    var w := Traverse(net, num, g, drv);
    InEdgesInRange(net, drv, num, w.s);
    hide Setting, GroundTotal, CapsAt, ResAt;
    var c, r;
    c, r, total := GetRC(net, f, num, w.inEdge);
    t, termV, outV, ord, via, loop := None, [], [], [], [], false;
    if total < CTOT_FLOOR { return; }
    hide Spans, TreeComplete, Outputs, NetGraph, Attached;
    termV, outV := PlaceTerms(net, num, w, drv, pterm0);
    var tree := PlaceTree(net, f, num, w, drv, c[..], r[..]);
    t, ord, via, loop := Some(tree), NodeOrder(num, w.s), EntryEdges(w.s), w.s.loop;
  }

  /** The finished model of the tree: one exact output for each pin, the driver's first. */
  ghost predicate Models(net: Network, t: Tree, ord: seq<int>, outV: seq<nat>, m: Rcmodel)
    requires t.Valid() && |ord| == |t.par|
  {
    && m.ctot == TotalCap(t) > 0.0 && Squares(m.sqc, m.ctot) && (m.order >= 2 <==> SpreadOut(t))
    && m.n == |outV| == Terms(net, |net.nodes|) && m.n > 0 && outV[0] == 0
    && (forall k | 0 <= k < m.n :: TerminalExact(net, t, ord, m, k, outV[k]))
    && (forall i, k | 0 <= i < k < m.n :: outV[i] != outV[k])
  }

  lemma {:induction false} OutputsInRange(net: Network, ord: seq<int>, outV: seq<nat>, termV: seq<nat>, pinV: seq<nat>)
    requires Outputs(net, ord, outV, termV, pinV)
    ensures forall k | 0 <= k < |outV| :: outV[k] < |ord|
    ensures forall k | 0 <= k < |termV| :: termV[k] < |pinV|
  {
    forall k | 0 <= k < |outV| ensures outV[k] < |ord| && termV[k] < |pinV| { assert OutputAt(net, ord, outV, termV, pinV, k); }
  }

  /** The copied-out reduction models the tree. */
  lemma {:induction false} ModelsHold(net: Network, f: real, drv: nat, num: Numbering, t: Tree, ord: seq<int>, via: seq<int>, loop: bool,
                                      termV: seq<nat>, outV: seq<nat>, b: Basis, U: seq<seq<real>>, m: Rcmodel)
    requires Ready(net, f, drv, num.pinV, t, ord, via, loop, termV, outV) && |num.pinV| == Terms(net, |net.nodes|)
    requires Reduced(t, b) && Sampled(U, b.us, outV) && |U| == |b.us| == m.order
    requires m.d == b.d && m.e == b.e && m.U == U && m.sqc > 0.0 && Squares(m.sqc, m.ctot) && m.ctot == TotalCap(t) && b.us[0] == Uniform(|t.par|, 1.0 / m.sqc)
    requires m.n == |termV| == |m.pinV| && forall k | 0 <= k < m.n :: termV[k] < |num.pinV| && m.pinV[k] == num.pinV[termV[k]]
    ensures Models(net, t, ord, outV, m)
  {
    Reciprocal2(m.sqc);
    OrderIff(t, b, 1.0 / m.sqc, m.sqc);
    hide SpreadOut, Mean, Variance;
    forall k | 0 <= k < m.n ensures TerminalExact(net, t, ord, m, k, outV[k]) {
      assert OutputAt(net, ord, outV, termV, num.pinV, k);
      hide Squares, Sampled, Reduced, Spans, TreeComplete;
      ModelExact(t, b, U, outV, m, 1.0 / m.sqc, k);
    }
    forall i, k | 0 <= i < k < m.n ensures outV[i] != outV[k] {
      assert OutputAt(net, ord, outV, termV, num.pinV, i) && OutputAt(net, ord, outV, termV, num.pinV, k);
    }
  }

  /** Exactly when elmore is exact at a terminal: the delays are spread out, or that terminal's is the mean. */
  lemma ElmoreExactIff(net: Network, t: Tree, ord: seq<int>, outV: seq<nat>, m: Rcmodel, k: nat)
    requires t.Valid() && |ord| == |t.par| && Models(net, t, ord, outV, m) && k < m.n
    ensures Readable(m) && (Elmore(m, k) == TreeElmore(t, outV[k]) <==> SpreadOut(t) || TreeElmore(t, outV[k]) == Mean(t))
  {
    hide SpreadOut, Mean, Readable;
    assert TerminalExact(net, t, ord, m, k, outV[k]);
  }

  /** The reducer's working state, filled step by step for one network. */
  class Reducer {
    const net: Network
    const couplingFactor: real
    var num: Numbering
    var pterm0: nat
    var termN: nat
    var termV: seq<nat>
    var outV: seq<nat>
    var ctot: real
    var sqc: real
    var order: nat
    var d: seq<real>
    var e: seq<real>
    var U: seq<seq<real>>

    constructor (net: Network, couplingFactor: real)
      ensures this.net == net && this.couplingFactor == couplingFactor
    {
      this.net, this.couplingFactor := net, couplingFactor;
      num, pterm0, termN := Numbering([], [], []), 0, 0;
      termV, outV, ctot, sqc := [], [], 0.0, 0.0;
      order, d, e, U := 0, [], [], [];
    }

    /** The nodes are numbered. */
    ghost predicate Loaded()
      reads this
    {
      && net.Valid() && Mapped(net, |net.nodes|, num) && Pinned(net, |net.nodes|, num)
      && pterm0 == FirstTerm(net) && termN == Terms(net, |net.nodes|)
    }

    /** loadWork: number the nodes and pack the resistors into edge lists. */
    method LoadWork() returns (g: Graph)
      requires net.Valid()
      modifies this
      ensures Loaded() && g == NetGraph(net) && g.Valid()
    {
      hide Mapped, Pinned, PointOf, Graph.Valid;
      num, pterm0, termN := NumberPoints(net);
      var ends: seq<(nat, nat)> := [];
      var i := 0;
      while i < |net.resistors|
        invariant 0 <= i <= |net.resistors| && |ends| == i && forall k | 0 <= k < i :: ends[k] == Ends(net)[k]
        invariant Loaded()
      {
        var x := net.resistors[i];
        MappedAt(net, num, x.node1);
        MappedAt(net, num, x.node2);
        ends := ends + [(num.ptMap[x.node1], num.ptMap[x.node2])];
        i := i + 1;
      }
      assert ends == Ends(net);
      NetGraphValid(net);
      EndsInRange(net);
      g := EdgePacking.MakeGraph(pterm0 + termN, ends);
    }

    /** makeRcmodelDrv up to the numeric reduction. */
    method MakeTree(g: Graph, drv: nat) returns (t: Option<Tree>, ghost ord: seq<int>, ghost via: seq<int>, ghost loop: bool)
      requires Loaded() && g == NetGraph(net) && g.Valid() && net.Terminal(drv) && Attached(net, drv)
      requires Connected(net, drv) && CouplingPositive(net, couplingFactor)
      modifies this`ctot, this`termV, this`outV
      ensures Loaded() && ctot == GroundTotal(net, num) && (t.None? <==> ctot < CTOT_FLOOR)
      ensures t.Some? ==> Ready(net, couplingFactor, drv, num.pinV, t.value, ord, via, loop, termV, outV)
    {
      hide Connected, CouplingPositive, Graph.Valid, Mapped, Pinned, Ready, GroundTotal, Attached;
      t, ctot, termV, outV, ord, via, loop := FindTree(net, couplingFactor, num, g, drv, pterm0);
    }

    /** The numeric reduction and the copy into the result. */
    method MakeModel(ghost f: real, ghost drv: nat, t: Tree, ghost ord: seq<int>, ghost via: seq<int>, ghost loop: bool, sqrt: real -> real)
      returns (m: Rcmodel)
      requires Loaded() && IsSqrt(sqrt) && Ready(net, f, drv, num.pinV, t, ord, via, loop, termV, outV)
      modifies this`ctot, this`sqc, this`order, this`d, this`e, this`U
      ensures Models(net, t, ord, outV, m)
    {
      OutputsInRange(net, ord, outV, termV, num.pinV);
      assert |ord| == |t.par| && t.Valid() && |termV| == |num.pinV|;
      hide Spans, TreeComplete, Outputs, IsSqrt, Mapped, Pinned;
      ghost var us;
      order, d, e, U, ctot, sqc, us := MakeRcmodelFromTs(t, outV, sqrt);
      hide Reduced, Sampled, Squares, Ready, Models;
      m := MakeRcmodelFromW(order, d, e, U, ctot, sqc, termV, num.pinV);
      ModelsHold(net, f, drv, num, t, ord, via, loop, termV, outV, Basis(us, d, e), U, m);
    }

    /** reduceToArnoldi: nothing for a network without capacitance, else a model whose Elmore delays are the network's. */
    method ReduceToArnoldi(drv: nat, sqrt: real -> real)
      returns (result: Option<Rcmodel>, ghost t: Tree, ghost ord: seq<int>, ghost via: seq<int>, ghost loop: bool)
      requires net.Valid() && net.Terminal(drv) && Attached(net, drv) && Connected(net, drv)
      requires CouplingPositive(net, couplingFactor) && IsSqrt(sqrt)
      modifies this
      ensures Mapped(net, |net.nodes|, num) && (result.None? <==> GroundTotal(net, num) < 0.0000000000000000000001)
      ensures result.Some? ==> Spans(net, couplingFactor, drv, t, ord, via) && TreeComplete(net, via, loop)
                               && Models(net, t, ord, outV, result.value)
    {
      hide Connected, CouplingPositive, Attached, IsSqrt;
      var g := LoadWork();
      var tree;
      tree, ord, via, loop := MakeTree(g, drv);
      result, t := None, Tree([], [], []);
      if tree.Some? {
        t := tree.value;
        var m := MakeModel(couplingFactor, drv, tree.value, ord, via, loop, sqrt);
        result := Some(m);
      }
    }
  }
}
