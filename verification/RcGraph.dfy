/** The resistor multigraph and the iterative depth-first walk that orients it into a spanning tree. */
module RcGraph {
  import opened Common

  /** Points 0..n-1; ends[e] are the two points of resistor e; adj[p] lists the resistors at p. */
  datatype Graph = Graph(n: nat, ends: seq<(nat, nat)>, adj: seq<seq<nat>>) {
    ghost predicate Valid() {
      && |adj| == n
      && (forall e | 0 <= e < |ends| :: ends[e].0 < n && ends[e].1 < n)
      && (forall p | 0 <= p < n :: Listed(p))
    }

    /** adj[p] names every resistor at p, each once, self-loops included. */
    ghost predicate Listed(p: nat)
      requires p < |adj|
    {
      && (forall k | 0 <= k < |adj[p]| :: adj[p][k] < |ends| && Touches(adj[p][k], p))
      && (forall e | 0 <= e < |ends| && Touches(e, p) :: e in adj[p])
      && (forall k, l | 0 <= k < l < |adj[p]| :: adj[p][k] != adj[p][l])
    }

    predicate Touches(e: nat, p: nat)
      requires e < |ends|
    {
      ends[e].0 == p || ends[e].1 == p
    }

    predicate Joins(e: nat, p: nat, q: nat)
      requires e < |ends|
    {
      ends[e] == (p, q) || ends[e] == (q, p)
    }

    function Other(e: nat, p: nat): nat
      requires e < |ends|
    {
      if ends[e].0 == p then ends[e].1 else ends[e].0
    }
  }

  /** A walk through the graph: consecutive points share a resistor. */
  ghost predicate Walk(g: Graph, w: seq<nat>) {
    forall i | 0 <= i < |w| - 1 :: Adjacent(g, w[i], w[i + 1])
  }

  ghost predicate Adjacent(g: Graph, p: nat, q: nat) {
    exists e | 0 <= e < |g.ends| :: g.Joins(e, p, q)
  }

  ghost predicate WalkBetween(g: Graph, w: seq<nat>, p: nat, q: nat) {
    |w| > 0 && w[0] == p && w[|w| - 1] == q && Walk(g, w)
  }

  ghost predicate Reachable(g: Graph, p: nat, q: nat) {
    exists w :: WalkBetween(g, w, p, q)
  }

  // ---- the state of the walk -----------------------------------------------------------------

  /** from/to are the current orientations; pos[i] is where stack[i] stands in its from-point's list. */
  datatype State = State(from: seq<nat>, to: seq<nat>, seen: seq<bool>, inEdge: seq<int>, ts: seq<nat>,
                         ord: seq<nat>, stack: seq<nat>, pos: seq<nat>, loop: bool)

  ghost predicate Shaped(g: Graph, s: State) {
    && g.Valid()
    && |s.from| == |s.to| == |g.ends|
    && |s.seen| == |s.inEdge| == |s.ts| == g.n
    && (forall e | 0 <= e < |g.ends| :: g.Joins(e, s.from[e], s.to[e]))
  }

  /** Points are numbered in the order they were first seen. */
  ghost predicate Numbered(g: Graph, drv: nat, s: State)
    requires Shaped(g, s)
  {
    && 0 < |s.ord| && s.ord[0] == drv
    && (forall i | 0 <= i < |s.ord| :: s.ord[i] < g.n && s.seen[s.ord[i]] && s.ts[s.ord[i]] == i)
    && (forall p | 0 <= p < g.n && s.seen[p] :: s.ts[p] < |s.ord| && s.ord[s.ts[p]] == p)
  }

  /** Every seen point but the driver was entered by an edge from an earlier point. */
  ghost predicate Entered(g: Graph, drv: nat, s: State)
    requires Shaped(g, s)
  {
    && drv < g.n && s.inEdge[drv] == -1
    && forall p | 0 <= p < g.n && s.seen[p] && p != drv :: InTree(g, s, p)
  }

  ghost predicate InTree(g: Graph, s: State, p: nat)
    requires Shaped(g, s) && p < g.n
  {
    var e := s.inEdge[p];
    0 <= e < |g.ends| && s.to[e] == p && s.seen[s.from[e]] && s.ts[s.from[e]] < s.ts[p]
  }

  /** The point where entry i of the stack stands. */
  ghost function Point(s: State, i: int): int {
    if 0 <= i < |s.stack| && s.stack[i] < |s.from| then s.from[s.stack[i]] else -1
  }

  /** Entry i of the stack is a place in its point's list; below the top it is a tree edge to the next. */
  ghost predicate Stacked(g: Graph, drv: nat, s: State)
    requires Shaped(g, s)
  {
    && |s.stack| == |s.pos|
    && (forall i | 0 <= i < |s.stack| :: Placed(g, s, i))
    && (|s.stack| > 0 ==> Point(s, 0) == drv)
    && (forall i | 1 <= i < |s.stack| :: Linked(g, s, i))
  }

  ghost predicate Placed(g: Graph, s: State, i: int)
    requires Shaped(g, s)
  {
    && 0 <= i < |s.stack| == |s.pos| && s.stack[i] < |g.ends|
    && var p := s.from[s.stack[i]];
       0 <= p < g.n && s.seen[p] && s.pos[i] < |g.adj[p]| && g.adj[p][s.pos[i]] == s.stack[i]
  }

  ghost predicate Linked(g: Graph, s: State, i: int)
    requires Shaped(g, s)
  {
    && 1 <= i < |s.stack| && s.stack[i - 1] < |g.ends| && 0 <= Point(s, i) < g.n
    && s.to[s.stack[i - 1]] == Point(s, i) && s.inEdge[Point(s, i)] == s.stack[i - 1]
  }

  /** Resistor k of p needs no further work: its other end is seen, and it is a tree edge, a self-loop or a recorded loop. */
  ghost predicate Covered(g: Graph, s: State, p: int, k: int)
    requires Shaped(g, s)
  {
    && 0 <= p < g.n && 0 <= k < |g.adj[p]| && g.adj[p][k] < |g.ends|
    && var e := g.adj[p][k];
       var q := g.Other(e, p);
       q < g.n && s.seen[q] && (s.loop || q == p || s.inEdge[q] == e || s.inEdge[p] == e)
  }

  /** The first k resistors of p are covered. */
  ghost predicate CoveredTo(g: Graph, s: State, p: int, k: int)
    requires Shaped(g, s)
  {
    forall l | 0 <= l < k :: Covered(g, s, p, l)
  }

  ghost predicate Active(s: State, p: int) {
    exists i | 0 <= i < |s.stack| :: Point(s, i) == p
  }

  /** Work is done up to pos on the stack, and completely off it, except at point x. */
  ghost predicate Worked(g: Graph, s: State, x: int)
    requires Shaped(g, s)
  {
    && |s.stack| == |s.pos|
    && (forall i | 0 <= i < |s.stack| :: CoveredTo(g, s, Point(s, i), s.pos[i]))
    && (forall p | 0 <= p < g.n && s.seen[p] && p != x && !Active(s, p) :: Finished(g, s, p))
  }

  ghost predicate Finished(g: Graph, s: State, p: int)
    requires Shaped(g, s)
  {
    0 <= p < g.n && CoveredTo(g, s, p, |g.adj[p]|)
  }

  ghost predicate Inv(g: Graph, drv: nat, s: State, x: int) {
    Shaped(g, s) && Numbered(g, drv, s) && Entered(g, drv, s) && Stacked(g, drv, s) && Worked(g, s, x)
  }

  // ---- the moves -----------------------------------------------------------------------------

  /** ts_orient: make p the from-point of e. */
  function Orient(s: State, p: nat, e: nat): State
    requires e < |s.from| == |s.to|
  {
    if s.from[e] != p then s.(to := s.to[e := s.from[e]], from := s.from[e := p]) else s
  }

  /** Number q, entered by e. */
  function Visit(s: State, q: nat, e: nat): State
    requires q < |s.seen| == |s.inEdge| == |s.ts|
  {
    s.(seen := s.seen[q := true], ts := s.ts[q := |s.ord|], ord := s.ord + [q], inEdge := s.inEdge[q := e])
  }

  function Push(s: State, e: nat, k: nat): State { s.(stack := s.stack + [e], pos := s.pos + [k]) }

  function Pop(s: State): State
    requires |s.stack| == |s.pos| > 0
  {
    s.(stack := s.stack[..|s.stack| - 1], pos := s.pos[..|s.pos| - 1])
  }

  lemma {:induction false} TouchesEnd(g: Graph, s: State, p: nat, e: nat)
    requires Shaped(g, s) && e < |g.ends| && g.Touches(e, p)
    ensures s.from[e] == p || s.to[e] == p
    ensures g.Other(e, p) == if s.from[e] == p then s.to[e] else s.from[e]
  {
    assert g.Joins(e, s.from[e], s.to[e]);
  }

  /** Orienting an edge away from p leaves every tree edge and every stack entry as it was. */
  lemma {:induction false} OrientTree(g: Graph, drv: nat, s: State, x: int, p: nat, e: nat)
    requires Inv(g, drv, s, x) && p < g.n && s.seen[p] && e < |g.ends| && g.Touches(e, p) && s.inEdge[p] != e
    ensures var s' := Orient(s, p, e);
            Shaped(g, s') && Numbered(g, drv, s') && Entered(g, drv, s') && s'.from[e] == p && s'.to[e] == g.Other(e, p)
  {
    var s' := Orient(s, p, e);
    TouchesEnd(g, s, p, e);
    forall q | 0 <= q < g.n && s.seen[q] && q != drv ensures InTree(g, s', q) { assert InTree(g, s, q); }
  }

  lemma {:induction false} OrientPoint(g: Graph, drv: nat, s: State, x: int, p: nat, e: nat, i: int)
    requires Inv(g, drv, s, x) && p < g.n && s.seen[p] && e < |g.ends| && g.Touches(e, p) && s.inEdge[p] != e
    requires |s.stack| > 0 ==> s.stack[|s.stack| - 1] != e
    requires 0 <= i < |s.stack|
    ensures s.stack[i] == e ==> s.from[e] == p
    ensures Point(Orient(s, p, e), i) == Point(s, i)
  {
    hide Worked, Numbered, Entered;
    TouchesEnd(g, s, p, e);
    assert Placed(g, s, i);
    if i < |s.stack| - 1 { assert Linked(g, s, i + 1); }
  }

  lemma {:induction false} OrientStack(g: Graph, drv: nat, s: State, x: int, p: nat, e: nat)
    requires Inv(g, drv, s, x) && p < g.n && s.seen[p] && e < |g.ends| && g.Touches(e, p) && s.inEdge[p] != e
    requires |s.stack| > 0 ==> s.stack[|s.stack| - 1] != e
    ensures Shaped(g, Orient(s, p, e)) && Stacked(g, drv, Orient(s, p, e))
    ensures forall i | 0 <= i < |s.stack| :: Point(Orient(s, p, e), i) == Point(s, i)
  {
    var s' := Orient(s, p, e);
    OrientTree(g, drv, s, x, p, e);
    forall i | 0 <= i < |s.stack| ensures Point(s', i) == Point(s, i) && Placed(g, s', i) {
      assert Placed(g, s, i);
      OrientPoint(g, drv, s, x, p, e, i);
    }
    forall i | 1 <= i < |s.stack| ensures Linked(g, s', i) {
      OrientPoint(g, drv, s, x, p, e, i - 1);
      assert Linked(g, s, i) && Placed(g, s, i - 1);
    }
  }

  lemma {:induction false} OrientKeeps(g: Graph, drv: nat, s: State, x: int, p: nat, e: nat)
    requires Inv(g, drv, s, x) && p < g.n && s.seen[p] && e < |g.ends| && g.Touches(e, p) && s.inEdge[p] != e
    requires |s.stack| > 0 ==> s.stack[|s.stack| - 1] != e
    ensures var s' := Orient(s, p, e);
            Inv(g, drv, s', x) && s'.from[e] == p && s'.to[e] == g.Other(e, p)
  {
    var s' := Orient(s, p, e);
    OrientTree(g, drv, s, x, p, e);
    OrientStack(g, drv, s, x, p, e);
    WorkedSame(g, s, s', x);
  }

  lemma {:induction false} ActiveGrows(s: State, s': State)
    requires forall i | 0 <= i < |s.stack| :: i < |s'.stack| && Point(s', i) == Point(s, i)
    ensures forall p | Active(s, p) :: Active(s', p)
  {
    forall p | Active(s, p) ensures Active(s', p) {
      var i :| 0 <= i < |s.stack| && Point(s, i) == p;
      assert Point(s', i) == p;
    }
  }

  /** With the same stack and the same points seen, the work done is the same. */
  lemma {:induction false} WorkedSame(g: Graph, s: State, s': State, x: int)
    requires Shaped(g, s) && Shaped(g, s') && Worked(g, s, x)
    requires (s.loop ==> s'.loop) && s'.seen == s.seen && s'.inEdge == s.inEdge
    requires s'.pos == s.pos && |s'.stack| == |s.stack|
    requires forall i | 0 <= i < |s.stack| :: Point(s', i) == Point(s, i)
    ensures Worked(g, s', x)
  {
    assert forall p, k :: Covered(g, s, p, k) ==> Covered(g, s', p, k);
    assert forall p, k :: CoveredTo(g, s, p, k) ==> CoveredTo(g, s', p, k);
    ActiveGrows(s, s');
    hide CoveredTo;
    forall i | 0 <= i < |s'.stack| ensures CoveredTo(g, s', Point(s', i), s'.pos[i]) {
      assert CoveredTo(g, s, Point(s, i), s.pos[i]);
    }
    forall p | 0 <= p < g.n && s'.seen[p] && p != x && !Active(s', p) ensures Finished(g, s', p) {
      assert Finished(g, s, p);
    }
  }

  /** What is covered stays covered as more points are seen and loops found. */
  lemma {:induction false} CoveredGrows(g: Graph, s: State, s': State)
    requires Shaped(g, s) && Shaped(g, s') && (s.loop ==> s'.loop)
    requires forall p | 0 <= p < g.n && s.seen[p] :: s'.seen[p] && s'.inEdge[p] == s.inEdge[p]
    ensures forall p, k | 0 <= p < g.n && s.seen[p] && Covered(g, s, p, k) :: Covered(g, s', p, k)
    ensures forall p, k | 0 <= p < g.n && s.seen[p] && CoveredTo(g, s, p, k) :: CoveredTo(g, s', p, k)
  {
    forall p, k | 0 <= p < g.n && s.seen[p] && CoveredTo(g, s, p, k) ensures CoveredTo(g, s', p, k) {
      forall l | 0 <= l < k ensures Covered(g, s', p, l) { assert Covered(g, s, p, l); }
    }
  }

  /** Entering a new point q along the oriented edge e, which the top of the stack names. */
  lemma {:induction false} VisitTree(g: Graph, drv: nat, s: State, q: nat, e: nat)
    requires Inv(g, drv, s, -1) && e < |g.ends| && q == s.to[e] && q < g.n && !s.seen[q]
    requires s.from[e] < g.n && s.seen[s.from[e]]
    ensures var s' := Visit(s, q, e);
            Shaped(g, s') && Numbered(g, drv, s') && Entered(g, drv, s')
  {
    var s' := Visit(s, q, e);
    assert s.seen[drv] by { assert s.seen[s.ord[0]]; }
    forall p | 0 <= p < g.n && s'.seen[p] && p != drv ensures InTree(g, s', p) {
      if p != q { assert InTree(g, s, p); }
    }
  }

  lemma {:induction false} VisitStack(g: Graph, drv: nat, s: State, q: nat, e: nat)
    requires Inv(g, drv, s, -1) && e < |g.ends| && q == s.to[e] && q < g.n && !s.seen[q]
    requires s.from[e] < g.n && s.seen[s.from[e]]
    ensures var s' := Visit(s, q, e); Shaped(g, s') && Stacked(g, drv, s')
  {
    hide Entered, Numbered, Worked;
    var s' := Visit(s, q, e);
    forall i | 0 <= i < |s.stack| ensures Placed(g, s', i) && Point(s', i) == Point(s, i) { assert Placed(g, s, i); }
    forall i | 1 <= i < |s.stack| ensures Linked(g, s', i) { assert Linked(g, s, i) && Placed(g, s, i); }
  }

  lemma {:induction false} VisitWorked(g: Graph, drv: nat, s: State, q: nat, e: nat)
    requires Inv(g, drv, s, -1) && e < |g.ends| && q == s.to[e] && q < g.n && !s.seen[q]
    ensures var s' := Visit(s, q, e); Shaped(g, s') && Worked(g, s', q)
  {
    var s' := Visit(s, q, e);
    CoveredGrows(g, s, s');
    ActiveGrows(s, s');
    hide Entered, Numbered, CoveredTo;
    forall i | 0 <= i < |s'.stack| ensures CoveredTo(g, s', Point(s', i), s'.pos[i]) {
      assert Placed(g, s, i) && CoveredTo(g, s, Point(s, i), s.pos[i]);
    }
    forall p | 0 <= p < g.n && s'.seen[p] && p != q && !Active(s', p) ensures Finished(g, s', p) {
      assert Finished(g, s, p);
    }
  }

  /** Resuming point x at place k of its list, everything before k being covered. */
  lemma {:induction false} PushStack(g: Graph, drv: nat, s: State, x: nat, e: nat, k: nat)
    requires Inv(g, drv, s, x) && x < g.n && s.seen[x] && k < |g.adj[x]| && g.adj[x][k] == e && e < |g.ends| && s.from[e] == x
    requires Leads(g, drv, s, x)
    ensures Shaped(g, Push(s, e, k)) && Stacked(g, drv, Push(s, e, k))
    ensures forall i | 0 <= i <= |s.stack| :: Point(Push(s, e, k), i) == if i < |s.stack| then Point(s, i) else x
  {
    hide Entered, Numbered, Worked;
    var s' := Push(s, e, k);
    var m := |s.stack|;
    forall i | 0 <= i < |s'.stack| ensures Placed(g, s', i) && Point(s', i) == if i < m then Point(s, i) else x {
      if i < m { assert Placed(g, s, i); }
    }
    forall i | 1 <= i < |s'.stack| ensures Linked(g, s', i) {
      if i < m { assert Linked(g, s, i); } else { assert Placed(g, s, i - 1); }
    }
  }

  lemma {:induction false} PushWorked(g: Graph, drv: nat, s: State, x: nat, e: nat, k: nat)
    requires Inv(g, drv, s, x) && x < g.n && s.seen[x] && e < |g.ends| && s.from[e] == x
    requires CoveredTo(g, s, x, k)
    requires forall i | 0 <= i <= |s.stack| :: Point(Push(s, e, k), i) == if i < |s.stack| then Point(s, i) else x
    ensures Worked(g, Push(s, e, k), -1)
  {
    var s' := Push(s, e, k);
    var m := |s.stack|;
    hide Entered, Numbered;
    ActiveGrows(s, s');
    assert Active(s', x) by { assert Point(s', m) == x; }
    assert forall p, l :: CoveredTo(g, s, p, l) ==> CoveredTo(g, s', p, l) by {
      assert forall p, l :: Covered(g, s, p, l) ==> Covered(g, s', p, l);
    }
    hide Stacked, CoveredTo, Active, Point;
    forall i | 0 <= i < |s'.stack| ensures CoveredTo(g, s', Point(s', i), s'.pos[i]) {
      if i < m { assert CoveredTo(g, s, Point(s, i), s.pos[i]); }
    }
    forall p | 0 <= p < g.n && s'.seen[p] && !Active(s', p) ensures Finished(g, s', p) {
      assert Finished(g, s, p);
    }
  }

  lemma {:induction false} PushKeeps(g: Graph, drv: nat, s: State, x: nat, e: nat, k: nat)
    requires Inv(g, drv, s, x) && x < g.n && s.seen[x] && k < |g.adj[x]| && g.adj[x][k] == e && e < |g.ends| && s.from[e] == x
    requires CoveredTo(g, s, x, k) && Leads(g, drv, s, x)
    ensures Inv(g, drv, Push(s, e, k), -1)
  {
    PushStack(g, drv, s, x, e, k);
    PushWorked(g, drv, s, x, e, k);
    SameTree(g, drv, s, Push(s, e, k));
    hide Shaped, Numbered, Entered, Stacked, Worked, Push;
  }

  /** Leaving the top point x aside. */
  lemma {:induction false} PopKeeps(g: Graph, drv: nat, s: State, x: nat)
    requires Inv(g, drv, s, -1) && |s.stack| > 0 && Point(s, |s.stack| - 1) == x
    ensures Inv(g, drv, Pop(s), x)
  {
    var s' := Pop(s);
    var m := |s'.stack|;
    PopStack(g, drv, s);
    hide Stacked, Entered, Numbered;
    assert forall p, k :: CoveredTo(g, s, p, k) ==> CoveredTo(g, s', p, k) by {
      assert forall p, k :: Covered(g, s, p, k) ==> Covered(g, s', p, k);
    }
    hide CoveredTo;
    forall i | 0 <= i < m ensures CoveredTo(g, s', Point(s', i), s'.pos[i]) {
      assert CoveredTo(g, s, Point(s, i), s.pos[i]);
    }
    forall p | Active(s, p) && p != x ensures Active(s', p) {
      var i :| 0 <= i < |s.stack| && Point(s, i) == p;
      assert i < m && Point(s', i) == p;
    }
    hide Active;
    forall p | 0 <= p < g.n && s'.seen[p] && p != x && !Active(s', p) ensures Finished(g, s', p) {
      assert Finished(g, s, p);
    }
  }

  lemma {:induction false} PopStack(g: Graph, drv: nat, s: State)
    requires Inv(g, drv, s, -1) && |s.stack| > 0
    ensures Shaped(g, Pop(s)) && Stacked(g, drv, Pop(s))
    ensures forall i | 0 <= i < |s.stack| - 1 :: Point(Pop(s), i) == Point(s, i)
  {
    hide Entered, Numbered, Worked;
    var s' := Pop(s);
    forall i | 0 <= i < |s'.stack| ensures Placed(g, s', i) { assert Placed(g, s, i); }
    forall i | 1 <= i < |s'.stack| ensures Linked(g, s', i) { assert Linked(g, s, i); }
  }

  /** A finished point needs no exemption. */
  lemma {:induction false} ExemptionEnds(g: Graph, drv: nat, s: State, x: nat)
    requires Inv(g, drv, s, x) && x < g.n && Finished(g, s, x)
    ensures Inv(g, drv, s, -1)
  {}

  // ---- bounds --------------------------------------------------------------------------------

  /** Distinct numbers below n: at most n of them. */
  lemma {:induction false} Pigeonhole(x: seq<nat>, n: nat)
    requires Distinct(x) && forall i | 0 <= i < |x| :: x[i] < n
    ensures |x| <= n
    decreases n
  {
    if |x| > 0 {
      assert x[0] < n;
      if n - 1 in x {
        var i :| 0 <= i < |x| && x[i] == n - 1;
        Pigeonhole(x[..i] + x[i + 1..], n - 1);
      } else {
        Pigeonhole(x, n - 1);
      }
    }
  }

  lemma {:induction false} OrdBound(g: Graph, drv: nat, s: State)
    requires Shaped(g, s) && Numbered(g, drv, s)
    ensures Distinct(s.ord) && |s.ord| <= g.n
  {
    assert forall i | 0 <= i < |s.ord| :: s.ts[s.ord[i]] == i;
    Pigeonhole(s.ord, g.n);
  }

  /** Down the stack the points get later, so no edge is stacked twice. */
  lemma {:induction false} StackStep(g: Graph, drv: nat, s: State, x: int, j: int)
    requires Inv(g, drv, s, x) && 1 <= j < |s.stack|
    ensures 0 <= Point(s, j - 1) < g.n && 0 <= Point(s, j) < g.n && s.ts[Point(s, j - 1)] < s.ts[Point(s, j)]
  {
    assert Placed(g, s, j) && Placed(g, s, j - 1) && Linked(g, s, j);
    assert Point(s, j) != drv;
    assert InTree(g, s, Point(s, j));
  }

  lemma {:induction false} StackRises(g: Graph, drv: nat, s: State, x: int, i: int, j: int)
    requires Inv(g, drv, s, x) && 0 <= i < j < |s.stack|
    ensures 0 <= Point(s, i) < g.n && 0 <= Point(s, j) < g.n && s.ts[Point(s, i)] < s.ts[Point(s, j)]
    decreases j
  {
    StackStep(g, drv, s, x, j);
    if i < j - 1 { StackRises(g, drv, s, x, i, j - 1); }
  }

  lemma {:induction false} StackBound(g: Graph, drv: nat, s: State, x: int)
    requires Inv(g, drv, s, x)
    ensures |s.stack| <= |g.ends|
  {
    forall i, j | 0 <= i < j < |s.stack| ensures s.stack[i] != s.stack[j] {
      StackRises(g, drv, s, x, i, j);
    }
    forall i | 0 <= i < |s.stack| ensures s.stack[i] < |g.ends| { assert Placed(g, s, i); }
    Pigeonhole(s.stack, |g.ends|);
  }

  // ---- reachability --------------------------------------------------------------------------

  /** Once the stack is empty the points seen are closed under adjacency. */
  lemma {:induction false} Closed(g: Graph, drv: nat, s: State, p: nat, q: nat)
    requires Inv(g, drv, s, -1) && |s.stack| == 0 && p < g.n && s.seen[p] && Adjacent(g, p, q)
    ensures q < g.n && s.seen[q]
  {
    var e :| 0 <= e < |g.ends| && g.Joins(e, p, q);
    assert g.Listed(p) && g.Touches(e, p);
    var k :| 0 <= k < |g.adj[p]| && g.adj[p][k] == e;
    assert !Active(s, p) && Finished(g, s, p);
    assert Covered(g, s, p, k);
  }

  lemma {:induction false} WalkStays(g: Graph, drv: nat, s: State, w: seq<nat>, p: nat)
    requires Inv(g, drv, s, -1) && |s.stack| == 0 && WalkBetween(g, w, drv, p)
    ensures p < g.n && s.seen[p]
    decreases |w|
  {
    if |w| == 1 {
      assert s.seen[s.ord[0]];
    } else {
      var v := w[..|w| - 1];
      forall i | 0 <= i < |v| - 1 ensures Adjacent(g, v[i], v[i + 1]) { assert Adjacent(g, w[i], w[i + 1]); }
      WalkStays(g, drv, s, v, v[|v| - 1]);
      assert Adjacent(g, w[|w| - 2], w[|w| - 1]);
      Closed(g, drv, s, v[|v| - 1], p);
    }
  }

  lemma {:induction false} SeenIsReached(g: Graph, drv: nat, s: State, x: int, p: nat)
    requires Inv(g, drv, s, x) && p < g.n && s.seen[p]
    ensures Reachable(g, drv, p)
    decreases s.ts[p]
  {
    if p == drv {
      assert WalkBetween(g, [p], drv, p);
    } else {
      assert InTree(g, s, p);
      var q := s.from[s.inEdge[p]];
      SeenIsReached(g, drv, s, x, q);
      var w :| WalkBetween(g, w, drv, q);
      assert g.Joins(s.inEdge[p], q, p);
      assert Adjacent(g, q, p);
      var v := w + [p];
      forall i | 0 <= i < |v| - 1 ensures Adjacent(g, v[i], v[i + 1]) {
        if i < |w| - 1 { assert Adjacent(g, w[i], w[i + 1]); }
      }
      assert WalkBetween(g, v, drv, p);
    }
  }

  /** The points seen are exactly those the driver can reach. */
  lemma {:induction false} SeenIffReachable(g: Graph, drv: nat, s: State, p: nat)
    requires Inv(g, drv, s, -1) && |s.stack| == 0 && p < g.n
    ensures s.seen[p] <==> Reachable(g, drv, p)
  {
    if s.seen[p] { SeenIsReached(g, drv, s, -1, p); }
    if Reachable(g, drv, p) {
      var w :| WalkBetween(g, w, drv, p);
      WalkStays(g, drv, s, w, p);
    }
  }

  // ---- the steps, as the walk takes them -----------------------------------------------------

  /** The start: the driver is seen and its first resistor is on the stack. */
  lemma {:induction false} StartKeeps(g: Graph, drv: nat, s: State)
    requires Shaped(g, s) && drv < g.n && |g.adj[drv]| > 0
    requires s.ord == [drv] && s.stack == [] && s.pos == []
    requires forall p | 0 <= p < g.n :: s.seen[p] <==> p == drv
    requires s.inEdge[drv] == -1 && s.ts[drv] == 0
    ensures var e := g.adj[drv][0];
            e < |g.ends| && Inv(g, drv, Push(Orient(s, drv, e), e, 0), -1)
  {
    var e := g.adj[drv][0];
    assert g.Listed(drv);
    assert Inv(g, drv, s, drv);
    OrientKeeps(g, drv, s, drv, drv, e);
    PushKeeps(g, drv, Orient(s, drv, e), drv, e, 0);
  }

  lemma {:induction false} SameTree(g: Graph, drv: nat, s: State, s': State)
    requires Shaped(g, s) && Numbered(g, drv, s) && Entered(g, drv, s)
    requires s'.from == s.from && s'.to == s.to && s'.seen == s.seen && s'.inEdge == s.inEdge && s'.ts == s.ts && s'.ord == s.ord
    ensures Shaped(g, s') && Numbered(g, drv, s') && Entered(g, drv, s')
  {
    hide Graph.Valid;
    forall p | 0 <= p < g.n && s'.seen[p] && p != drv ensures InTree(g, s', p) { assert InTree(g, s, p); }
  }

  /** A top edge whose far end was already seen: a loop, unless both ends are the same point. */
  lemma {:induction false} LoopKeeps(g: Graph, drv: nat, s: State, l: bool)
    requires Inv(g, drv, s, -1) && |s.stack| > 0
    requires var e := s.stack[|s.stack| - 1];
             e < |g.ends| && s.seen[s.to[e]] && l == (s.loop || s.to[e] != s.from[e])
    ensures var s' := s.(loop := l); Inv(g, drv, s', -1) && TopCovered(g, s')
  {
    LoopStack(g, drv, s, l);
    LoopCovers(g, drv, s, l);
    WorkedSame(g, s, s.(loop := l), -1);
    SameTree(g, drv, s, s.(loop := l));
    hide Shaped, Numbered, Entered, Worked, Stacked, TopCovered;
  }

  lemma {:induction false} LoopStack(g: Graph, drv: nat, s: State, l: bool)
    requires Inv(g, drv, s, -1)
    ensures Stacked(g, drv, s.(loop := l))
    ensures forall i | 0 <= i < |s.stack| :: Point(s.(loop := l), i) == Point(s, i)
  {
    hide Worked, Numbered, Entered;
    var s' := s.(loop := l);
    forall i | 0 <= i < |s.stack| ensures Placed(g, s', i) { assert Placed(g, s, i); }
    forall i | 1 <= i < |s.stack| ensures Linked(g, s', i) { assert Linked(g, s, i); }
  }

  lemma {:induction false} LoopCovers(g: Graph, drv: nat, s: State, l: bool)
    requires Inv(g, drv, s, -1) && |s.stack| > 0
    requires var e := s.stack[|s.stack| - 1];
             e < |g.ends| && s.seen[s.to[e]] && l == (s.loop || s.to[e] != s.from[e])
    ensures TopCovered(g, s.(loop := l))
  {
    hide Worked, Numbered, Entered;
    var m := |s.stack| - 1;
    assert Placed(g, s, m);
    var p := Point(s, m);
    assert g.Listed(p);
    TouchesEnd(g, s, p, s.stack[m]);
  }

  /** The top of the stack needs no more work. */
  ghost predicate TopCovered(g: Graph, s: State)
    requires Shaped(g, s)
  {
    |s.stack| == |s.pos| > 0 && Covered(g, s, Point(s, |s.stack| - 1), s.pos[|s.stack| - 1])
  }

  /** The top edge e leads to a point q not seen before. */
  ghost predicate Fresh(g: Graph, s: State, q: nat, e: nat)
    requires Shaped(g, s)
  {
    |s.stack| > 0 && e == s.stack[|s.stack| - 1] && e < |g.ends| && q == s.to[e] && q < g.n && !s.seen[q]
  }

  lemma {:induction false} EnterKeeps(g: Graph, drv: nat, s: State, q: nat, e: nat, k: nat)
    requires Inv(g, drv, s, -1) && Fresh(g, s, q, e)
    requires k <= |g.adj[q]| && forall l | 0 <= l < k :: g.adj[q][l] == e
    ensures Inv(g, drv, Visit(s, q, e), q) && TopCovered(g, Visit(s, q, e))
    ensures CoveredTo(g, Visit(s, q, e), q, k)
  {
    assert Placed(g, s, |s.stack| - 1);
    VisitTree(g, drv, s, q, e);
    VisitStack(g, drv, s, q, e);
    VisitWorked(g, drv, s, q, e);
    EnterCovers(g, drv, s, q, e, k);
    hide Shaped, Numbered, Entered, Stacked, Worked, Visit, CoveredTo, TopCovered;
  }

  lemma {:induction false} EnterCovers(g: Graph, drv: nat, s: State, q: nat, e: nat, k: nat)
    requires Inv(g, drv, s, -1) && Fresh(g, s, q, e)
    requires k <= |g.adj[q]| && forall l | 0 <= l < k :: g.adj[q][l] == e
    ensures Shaped(g, Visit(s, q, e)) && TopCovered(g, Visit(s, q, e)) && CoveredTo(g, Visit(s, q, e), q, k)
  {
    hide Numbered, Entered, Worked;
    assert Placed(g, s, |s.stack| - 1);
    assert g.Listed(s.from[e]) && g.Listed(q) && g.Joins(e, s.from[e], q) && g.Touches(e, q);
    TouchesEnd(g, s, s.from[e], e);
    TouchesEnd(g, s, q, e);
  }

  lemma {:induction false} OnlyOne(g: Graph, s: State, q: nat, e: nat)
    requires Shaped(g, s) && Fresh(g, s, q, e) && |g.adj[q]| <= 1
    ensures forall l | 0 <= l < |g.adj[q]| :: g.adj[q][l] == e
  {
    assert g.Listed(q) && g.Joins(e, s.from[e], q) && g.Touches(e, q);
  }

  /** A new point with no resistor but the one it was entered by. */
  lemma {:induction false} LeafKeeps(g: Graph, drv: nat, s: State, q: nat, e: nat)
    requires Inv(g, drv, s, -1) && Fresh(g, s, q, e) && |g.adj[q]| <= 1
    ensures Inv(g, drv, Visit(s, q, e), -1) && TopCovered(g, Visit(s, q, e))
  {
    OnlyOne(g, s, q, e);
    EnterKeeps(g, drv, s, q, e, |g.adj[q]|);
    ExemptionEnds(g, drv, Visit(s, q, e), q);
  }

  /** A new point that has another resistor f, at place k, the first that is not the one it was entered by. */
  lemma {:induction false} DescendKeeps(g: Graph, drv: nat, s: State, q: nat, e: nat, f: nat, k: nat)
    requires Inv(g, drv, s, -1) && Fresh(g, s, q, e)
    requires k < |g.adj[q]| && g.adj[q][k] == f != e && forall l | 0 <= l < k :: g.adj[q][l] == e
    ensures f < |g.ends| && Inv(g, drv, Push(Orient(Visit(s, q, e), q, f), f, k), -1)
  {
    hide Numbered, Entered, Stacked, Worked, CoveredTo;
    EnterKeeps(g, drv, s, q, e, k);
    ResumeKeeps(g, drv, Visit(s, q, e), q, f, k);
  }

  /** Where the top of the stack leads: to x, which it entered; x is the driver when the stack is empty. */
  ghost predicate Leads(g: Graph, drv: nat, s: State, x: nat)
    requires Shaped(g, s) && x < g.n
  {
    if |s.stack| == 0 then x == drv
    else s.stack[|s.stack| - 1] < |g.ends| && s.to[s.stack[|s.stack| - 1]] == x && s.inEdge[x] == s.stack[|s.stack| - 1]
  }

  /** Orienting and stacking the next resistor of x, which is not the one x was entered by. */
  lemma {:induction false} ResumeKeeps(g: Graph, drv: nat, s: State, x: nat, f: nat, k: nat)
    requires Inv(g, drv, s, x) && x < g.n && s.seen[x] && k < |g.adj[x]| && g.adj[x][k] == f && s.inEdge[x] != f
    requires CoveredTo(g, s, x, k)
    requires Leads(g, drv, s, x)
    ensures f < |g.ends| && Inv(g, drv, Push(Orient(s, x, f), f, k), -1)
  {
    assert g.Listed(x) && Shaped(g, s);
    OrientKeeps(g, drv, s, x, x, f);
    LeadsSame(g, drv, s, x, f);
    CoveredSame(g, s, Orient(s, x, f));
    assert Orient(s, x, f).seen == s.seen;
    hide Numbered, Entered, Stacked, Worked, CoveredTo, Leads, Orient;
    PushKeeps(g, drv, Orient(s, x, f), x, f, k);
  }

  lemma {:induction false} LeadsSame(g: Graph, drv: nat, s: State, x: nat, f: nat)
    requires Shaped(g, s) && x < g.n && f < |g.ends| && s.inEdge[x] != f && Shaped(g, Orient(s, x, f))
    ensures Leads(g, drv, s, x) ==> Leads(g, drv, Orient(s, x, f), x)
  {}

  lemma {:induction false} CoveredSame(g: Graph, s: State, s': State)
    requires Shaped(g, s) && Shaped(g, s') && s'.seen == s.seen && s'.inEdge == s.inEdge && s'.loop == s.loop
    ensures forall p, k :: CoveredTo(g, s, p, k) ==> CoveredTo(g, s', p, k)
  {
    assert forall p, k :: Covered(g, s, p, k) ==> Covered(g, s', p, k);
  }

  /** Taking the finished top off: everything up to its place is covered. */
  lemma {:induction false} AscendKeeps(g: Graph, drv: nat, s: State)
    requires Inv(g, drv, s, -1) && TopCovered(g, s)
    ensures var x := Point(s, |s.stack| - 1);
            var s' := Pop(s);
            0 <= x < g.n && s.seen[x] && Inv(g, drv, s', x)
            && CoveredTo(g, s', x, s.pos[|s.stack| - 1] + 1) && Leads(g, drv, s', x)
  {
    var m := |s.stack| - 1;
    var x := Point(s, m);
    assert Placed(g, s, m);
    PopKeeps(g, drv, s, x);
    CoveredGrows(g, s, Pop(s));
    assert CoveredTo(g, s, x, s.pos[m]);
    if m > 0 { assert Linked(g, s, m) && Placed(g, s, m - 1); }
  }

  /** The edge a point was entered by is covered from that point. */
  lemma {:induction false} IncomingCovered(g: Graph, drv: nat, s: State, x: nat, k: nat)
    requires Inv(g, drv, s, x) && x < g.n && s.seen[x] && k < |g.adj[x]| && g.adj[x][k] == s.inEdge[x]
    ensures Covered(g, s, x, k)
  {
    assert g.Listed(x) && InTree(g, s, x);
    TouchesEnd(g, s, x, g.adj[x][k]);
    assert g.Joins(g.adj[x][k], s.from[g.adj[x][k]], s.to[g.adj[x][k]]);
  }

  /** Below a finished point, the edge to it is covered. */
  lemma {:induction false} BelowCovered(g: Graph, drv: nat, s: State, s': State, x: nat)
    requires Inv(g, drv, s, -1) && |s.stack| > 1 && s' == Pop(s) && x == Point(s, |s.stack| - 1) && Inv(g, drv, s', -1)
    ensures TopCovered(g, s')
  {
    var m := |s.stack| - 1;
    assert Linked(g, s, m) && Placed(g, s, m) && Placed(g, s, m - 1);
    var p := Point(s, m - 1);
    assert g.Listed(p);
    TouchesEnd(g, s, p, s.stack[m - 1]);
  }
}
