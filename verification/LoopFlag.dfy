/** The loop flag of the walk is raised only by a loop: by a resistor between two points that entered neither. */
module LoopFlag {
  import opened RcGraph

  /** Resistor e joins two different points, both seen, and entered no point. */
  ghost predicate Spare(g: Graph, s: State, e: nat)
    requires Shaped(g, s)
  {
    && e < |g.ends| && g.ends[e].0 != g.ends[e].1 && s.seen[g.ends[e].0] && s.seen[g.ends[e].1]
    && forall q | 0 <= q < g.n && s.seen[q] :: s.inEdge[q] != e
  }

  /** From place k0 on, no resistor of p has entered another point. */
  ghost predicate AheadFrom(g: Graph, s: State, p: int, k0: nat)
    requires Shaped(g, s)
  {
    0 <= p < g.n && forall k, q | k0 <= k < |g.adj[p]| && 0 <= q < g.n && s.seen[q] && q != p :: s.inEdge[q] != g.adj[p][k]
  }

  /** Past each place on the stack no resistor was used yet, and the flag is up only for a spare resistor. */
  ghost predicate Tidy(g: Graph, s: State) {
    && Shaped(g, s) && |s.stack| == |s.pos|
    && (forall i | 0 <= i < |s.stack| :: AheadFrom(g, s, Point(s, i), s.pos[i] + 1))
    && (s.loop ==> exists e: nat :: Spare(g, s, e))
  }

  /** The resistor on top is itself unused. */
  ghost predicate Open(g: Graph, s: State) {
    && Tidy(g, s)
    && (|s.stack| > 0 ==>
          var m := |s.stack| - 1;
          AheadFrom(g, s, Point(s, m), s.pos[m]) && 0 <= Point(s, m) < g.n && s.inEdge[Point(s, m)] != s.stack[m])
  }

  lemma OpenWhenEmpty(g: Graph, s: State)
    requires Tidy(g, s) && |s.stack| == 0
    ensures Open(g, s)
  {}

  /** At the start no point has been entered. */
  lemma {:induction false} OpenStarts(g: Graph, drv: nat, s: State)
    requires Shaped(g, s) && drv < g.n && |g.adj[drv]| > 0 && s.stack == [] && s.pos == [] && !s.loop && s.inEdge[drv] == -1
    requires forall p | 0 <= p < g.n :: s.seen[p] <==> p == drv
    ensures var e := g.adj[drv][0]; e < |g.ends| && |s.from| == |s.to| && Open(g, Push(Orient(s, drv, e), e, 0))
  {
    assert g.Listed(drv);
    var e := g.adj[drv][0];
    TouchesEnd(g, s, drv, e);
    var s' := Push(Orient(s, drv, e), e, 0);
    assert Point(s', 0) == drv;
  }

  /** Different places of the stack are at different points. */
  lemma {:induction false} PointsDiffer(g: Graph, drv: nat, s: State, i: nat, j: nat)
    requires Inv(g, drv, s, -1) && i < j < |s.stack|
    ensures Point(s, i) != Point(s, j)
  {
    StackRises(g, drv, s, -1, i, j);
  }

  /** The place that an edge has at the stack's top, against the places of the other points. */
  lemma {:induction false} EntryBehind(g: Graph, drv: nat, s: State, q: nat, e: nat, i: nat, k: nat)
    requires Inv(g, drv, s, -1) && Fresh(g, s, q, e) && i < |s.stack| && 0 <= Point(s, i) < g.n && s.pos[i] < k < |g.adj[Point(s, i)]|
    ensures g.adj[Point(s, i)][k] != e
  {
    hide Numbered, Entered, Worked, CoveredTo;
    var m := |s.stack| - 1;
    var p := Point(s, i);
    assert Placed(g, s, i) && Placed(g, s, m) && g.Listed(p);
    assert g.Joins(e, s.from[e], s.to[e]);
    if i < m { PointsDiffer(g, drv, s, i, m); }
  }

  /** Entering a point by the top edge leaves nothing used ahead. */
  lemma {:induction false} TidyEnters(g: Graph, drv: nat, s: State, q: nat, e: nat)
    requires Inv(g, drv, s, -1) && Fresh(g, s, q, e) && Tidy(g, s)
    ensures q < |s.seen| == |s.inEdge| == |s.ts| && Tidy(g, Visit(s, q, e))
  {
    var s' := Visit(s, q, e);
    forall i | 0 <= i < |s'.stack| ensures AheadFrom(g, s', Point(s', i), s'.pos[i] + 1) {
      assert Point(s', i) == Point(s, i) && AheadFrom(g, s, Point(s, i), s.pos[i] + 1);
      forall k | s.pos[i] + 1 <= k < |g.adj[Point(s, i)]| ensures g.adj[Point(s, i)][k] != e { EntryBehind(g, drv, s, q, e, i, k); }
    }
    if s.loop {
      var x: nat :| Spare(g, s, x);
      assert g.Joins(e, s.from[e], s.to[e]);
      assert Spare(g, s', x);
    }
  }

  /** Nothing has been entered from the newest point. */
  lemma {:induction false} NewestUnused(g: Graph, drv: nat, s: State, x: int, q: nat, k: nat, r: nat)
    requires Inv(g, drv, s, x) && q < g.n && s.seen[q] && s.ts[q] == |s.ord| - 1 && k < |g.adj[q]|
    requires r < g.n && s.seen[r] && r != q
    ensures s.inEdge[r] != g.adj[q][k]
  {
    var f := g.adj[q][k];
    assert g.Listed(q);
    TouchesEnd(g, s, q, f);
    if r != drv { assert InTree(g, s, r); }
  }

  /** Descending from the newest point along its resistor f at place k. */
  lemma {:induction false} OpenDescends(g: Graph, drv: nat, s: State, q: nat, e: nat, k: nat)
    requires Inv(g, drv, s, -1) && Fresh(g, s, q, e) && Tidy(g, s)
    requires k < |g.adj[q]| && g.adj[q][k] != e && forall l | 0 <= l < k :: g.adj[q][l] == e
    ensures q < |s.seen| == |s.inEdge| == |s.ts| && g.adj[q][k] < |s.from| == |s.to|
    ensures Open(g, Push(Orient(Visit(s, q, e), q, g.adj[q][k]), g.adj[q][k], k))
  {
    hide Numbered, Entered, Stacked, Worked, CoveredTo, Tidy, TopCovered, Open;
    var f, t := g.adj[q][k], Visit(s, q, e);
    TidyEnters(g, drv, s, q, e);
    EnterKeeps(g, drv, s, q, e, k);
    assert g.Listed(q);
    assert t.ts[q] == |t.ord| - 1;
    forall j, r | 0 <= j < |g.adj[q]| && 0 <= r < g.n && t.seen[r] && r != q ensures t.inEdge[r] != g.adj[q][j] {
      NewestUnused(g, drv, t, q, q, j, r);
    }
    assert AheadFrom(g, t, q, k);
    PushOpens(g, drv, t, q, f, k);
  }

  /** Stacking an unused resistor of x, turned away from it. */
  lemma {:induction false} PushOpens(g: Graph, drv: nat, s: State, x: nat, f: nat, k: nat)
    requires Inv(g, drv, s, x) && Tidy(g, s) && x < g.n && s.seen[x] && k < |g.adj[x]| && g.adj[x][k] == f && s.inEdge[x] != f
    requires AheadFrom(g, s, x, k) && (|s.stack| > 0 ==> s.stack[|s.stack| - 1] != f)
    ensures f < |s.from| == |s.to| && Open(g, Push(Orient(s, x, f), f, k))
  {
    assert g.Listed(x);
    var o := Orient(s, x, f);
    OrientStack(g, drv, s, x, x, f);
    TouchesEnd(g, s, x, f);
    var s' := Push(o, f, k);
    assert Point(s', |s.stack|) == x;
    forall i | 0 <= i < |s'.stack| ensures AheadFrom(g, s', Point(s', i), s'.pos[i] + 1) {
      if i < |s.stack| { assert Point(s', i) == Point(o, i) == Point(s, i) && AheadFrom(g, s, Point(s, i), s.pos[i] + 1); }
    }
    assert AheadFrom(g, s', x, k);
    if s.loop {
      var e: nat :| Spare(g, s, e);
      assert Spare(g, s', e);
    }
  }

  lemma {:induction false} TidyPops(g: Graph, s: State)
    requires Tidy(g, s) && |s.stack| > 0
    ensures Tidy(g, Pop(s))
  {
    var s' := Pop(s);
    forall i | 0 <= i < |s'.stack| ensures AheadFrom(g, s', Point(s', i), s'.pos[i] + 1) {
      assert Point(s', i) == Point(s, i) && AheadFrom(g, s, Point(s, i), s.pos[i] + 1);
    }
    if s.loop {
      var e: nat :| Spare(g, s, e);
      assert Spare(g, s', e);
    }
  }

  lemma TopAhead(g: Graph, s: State)
    requires Tidy(g, s) && |s.stack| > 0
    ensures var m := |s.stack| - 1; |s.pos| == |s.stack| && AheadFrom(g, s, Point(s, m), s.pos[m] + 1)
  {}

  lemma AheadLater(g: Graph, s: State, p: int, j: nat, k: nat)
    requires Shaped(g, s) && |s.stack| == |s.pos| > 0 && AheadFrom(g, s, p, j) && j <= k
    ensures Shaped(g, Pop(s)) && AheadFrom(g, Pop(s), p, k)
  {}

  /** Going on at the top point with a resistor further down its list. */
  lemma {:induction false} OpenResumes(g: Graph, drv: nat, s: State, p: nat, k: nat)
    requires Inv(g, drv, s, -1) && TopCovered(g, s) && Tidy(g, s) && p == Point(s, |s.stack| - 1)
    requires Inv(g, drv, Pop(s), p) && p < g.n && s.seen[p] && s.pos[|s.stack| - 1] < k < |g.adj[p]| && s.inEdge[p] != g.adj[p][k]
    requires |s.stack| > 1 ==> s.stack[|s.stack| - 2] != g.adj[p][k]
    ensures g.adj[p][k] < |s.from| == |s.to| && Open(g, Push(Orient(Pop(s), p, g.adj[p][k]), g.adj[p][k], k))
  {
    hide Numbered, Entered, Stacked, Worked, TopCovered, Tidy, Open;
    var m := |s.stack| - 1;
    TopAhead(g, s);
    TidyPops(g, s);
    AheadLater(g, s, p, s.pos[m] + 1, k);
    PushOpens(g, drv, Pop(s), p, g.adj[p][k], k);
  }

  /** Meeting a point seen before: unless the top resistor is a self-loop it is spare. */
  lemma {:induction false} TidyLoops(g: Graph, drv: nat, s: State, l: bool)
    requires Inv(g, drv, s, -1) && Open(g, s) && |s.stack| > 0
    requires var e := s.stack[|s.stack| - 1];
             e < |g.ends| && s.seen[s.to[e]] && l == (s.loop || s.to[e] != s.from[e])
    ensures Tidy(g, s.(loop := l))
  {
    var m, s' := |s.stack| - 1, s.(loop := l);
    var e := s.stack[m];
    assert Placed(g, s, m) && g.Joins(e, s.from[e], s.to[e]);
    forall i | 0 <= i < |s'.stack| ensures AheadFrom(g, s', Point(s', i), s'.pos[i] + 1) {
      assert Point(s', i) == Point(s, i) && AheadFrom(g, s, Point(s, i), s.pos[i] + 1);
    }
    if s.to[e] != s.from[e] {
      forall q | 0 <= q < g.n && s.seen[q] ensures s.inEdge[q] != e { assert g.adj[Point(s, m)][s.pos[m]] == e; }
      assert Spare(g, s', e);
    } else if s.loop {
      var x: nat :| Spare(g, s, x);
      assert Spare(g, s', x);
    }
  }
}
