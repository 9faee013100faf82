/** The walk itself, on the arrays of the reducer: edges re-oriented in place, an explicit stack of edges. */
module DfsWalk {
  import opened RcGraph
  import opened LoopFlag

  /** Skipping the incoming edge leaves nothing uncovered behind. */
  lemma {:induction false} Skipped(g: Graph, drv: nat, s: State, p: nat, k0: nat, k: nat, incoming: nat)
    requires Inv(g, drv, s, p) && p < g.n && s.seen[p] && Leads(g, drv, s, p)
    requires CoveredTo(g, s, p, k0 + 1) && k0 < |g.adj[p]| && k0 < k <= k0 + 2
    requires |s.stack| > 0 ==> incoming == s.stack[|s.stack| - 1]
    requires k == k0 + 2 ==> |s.stack| > 0 && k0 + 1 < |g.adj[p]| && g.adj[p][k0 + 1] == incoming
    ensures CoveredTo(g, s, p, k) && k <= |g.adj[p]|
    ensures |s.stack| == 0 ==> s.inEdge[p] == -1
    ensures |s.stack| > 0 ==> s.inEdge[p] == incoming
  {
    hide Numbered, Stacked, Worked;
    if k == k0 + 2 { IncomingCovered(g, drv, s, p, k0 + 1); }
  }

  /** What is left to do at the top of the stack. */
  ghost function Left(g: Graph, s: State): int {
    var m := |s.stack| - 1;
    if 0 <= m < |s.pos| && 0 <= Point(s, m) < |g.adj| then |g.adj[Point(s, m)]| - s.pos[m] else 0
  }

  /** Progress of an ascent: the stack is lower, or the same point has less left. */
  ghost predicate Lower(g: Graph, s0: State, s1: State) {
    |s1.stack| < |s0.stack| || (|s1.stack| == |s0.stack| && Left(g, s1) < Left(g, s0))
  }

  /** A place further down the list of point p, found past place k0. */
  ghost predicate Found(g: Graph, s: State, p: nat, k0: nat, k: nat, incoming: nat) {
    && p < |g.adj| && k0 < |g.adj[p]| && k0 < k <= k0 + 2
    && (|s.stack| > 0 ==> incoming == s.stack[|s.stack| - 1])
    && (k == k0 + 2 ==> |s.stack| > 0 && k0 + 1 < |g.adj[p]| && g.adj[p][k0 + 1] == incoming)
    && (k < |g.adj[p]| && |s.stack| > 0 ==> g.adj[p][k] != incoming)
  }

  /** The top point has another resistor to follow. */
  lemma {:induction false} ResumeStep(g: Graph, drv: nat, s: State, p: nat, k: nat, incoming: nat)
    requires Inv(g, drv, s, -1) && TopCovered(g, s) && p == Point(s, |s.stack| - 1)
    requires Found(g, Pop(s), p, s.pos[|s.stack| - 1], k, incoming) && k < |g.adj[p]|
    ensures g.adj[p][k] < |s.from| == |s.to| && |s.stack| <= |g.ends|
    ensures Inv(g, drv, Push(Orient(Pop(s), p, g.adj[p][k]), g.adj[p][k], k), -1)
    ensures Tidy(g, s) ==> Open(g, Push(Orient(Pop(s), p, g.adj[p][k]), g.adj[p][k], k))
  {
    hide Numbered, Entered, Stacked, Worked, CoveredTo, Leads, Tidy, Open;
    AscendKeeps(g, drv, s);
    Skipped(g, drv, Pop(s), p, s.pos[|s.stack| - 1], k, incoming);
    StackBound(g, drv, s, -1);
    ResumeKeeps(g, drv, Pop(s), p, g.adj[p][k], k);
    if Tidy(g, s) { OpenResumes(g, drv, s, p, k); }
  }

  lemma {:induction false} LowerAgain(g: Graph, s: State, p: nat, f: nat, k: nat)
    requires |s.stack| == |s.pos| > 0 && p == Point(s, |s.stack| - 1) && p < |g.adj| && f < |s.from| == |s.to|
    requires s.pos[|s.stack| - 1] < k
    ensures Lower(g, s, Push(Orient(Pop(s), p, f), f, k))
  {
    var s' := Push(Orient(Pop(s), p, f), f, k);
    assert Point(s', |s'.stack| - 1) == p;
  }

  /** The top point is done. */
  lemma {:induction false} DropStep(g: Graph, drv: nat, s: State, p: nat, k: nat, incoming: nat)
    requires Inv(g, drv, s, -1) && TopCovered(g, s) && p == Point(s, |s.stack| - 1)
    requires Found(g, Pop(s), p, s.pos[|s.stack| - 1], k, incoming) && k >= |g.adj[p]|
    ensures Inv(g, drv, Pop(s), -1) && (|s.stack| > 1 ==> TopCovered(g, Pop(s)))
  {
    hide Numbered, Entered, Stacked, Worked, CoveredTo, Leads;
    AscendKeeps(g, drv, s);
    Skipped(g, drv, Pop(s), p, s.pos[|s.stack| - 1], k, incoming);
    ExemptionEnds(g, drv, Pop(s), p);
    if |s.stack| > 1 { BelowCovered(g, drv, s, Pop(s), p); }
  }

  lemma {:induction false} SameLower(g: Graph, s: State, s': State, l: bool)
    requires Lower(g, s.(loop := l), s')
    ensures Lower(g, s, s')
  {
    assert |s.stack| > 0 ==> Point(s.(loop := l), |s.stack| - 1) == Point(s, |s.stack| - 1);
  }

  /** Descending one point further, with room for it in every buffer. */
  lemma {:induction false} DeeperStep(g: Graph, drv: nat, s: State, q: nat, e: nat, k: nat)
    requires Inv(g, drv, s, -1) && Fresh(g, s, q, e)
    requires k < |g.adj[q]| && g.adj[q][k] != e && forall l | 0 <= l < k :: g.adj[q][l] == e
    ensures q < |s.seen| == |s.inEdge| == |s.ts| && g.adj[q][k] < |s.from| == |s.to|
    ensures Inv(g, drv, Push(Orient(Visit(s, q, e), q, g.adj[q][k]), g.adj[q][k], k), -1)
    ensures |s.stack| < |g.ends| && |s.ord| < g.n
    ensures Tidy(g, s) ==> Open(g, Push(Orient(Visit(s, q, e), q, g.adj[q][k]), g.adj[q][k], k))
  {
    hide Tidy, Open;
    if Tidy(g, s) { OpenDescends(g, drv, s, q, e, k); }
    DescendKeeps(g, drv, s, q, e, g.adj[q][k], k);
    StackBound(g, drv, Push(Orient(Visit(s, q, e), q, g.adj[q][k]), g.adj[q][k], k), -1);
    EnterKeeps(g, drv, s, q, e, 0);
    OrdBound(g, drv, Visit(s, q, e));
  }

  lemma {:induction false} LeafStep(g: Graph, drv: nat, s: State, q: nat, e: nat)
    requires Inv(g, drv, s, -1) && Fresh(g, s, q, e) && |g.adj[q]| <= 1
    ensures q < |s.seen| == |s.inEdge| == |s.ts|
    ensures Inv(g, drv, Visit(s, q, e), -1) && TopCovered(g, Visit(s, q, e)) && |s.ord| < g.n
    ensures Tidy(g, s) ==> Tidy(g, Visit(s, q, e))
  {
    hide Tidy;
    if Tidy(g, s) { TidyEnters(g, drv, s, q, e); }
    LeafKeeps(g, drv, s, q, e);
    OrdBound(g, drv, Visit(s, q, e));
  }

  lemma {:induction false} LeftPositive(g: Graph, drv: nat, s: State)
    requires Inv(g, drv, s, -1)
    ensures Left(g, s) >= 0
  {
    if |s.stack| > 0 { assert Placed(g, s, |s.stack| - 1); }
  }

  lemma FreshFacts(g: Graph, drv: nat, s: State, q: nat, e: nat)
    requires Inv(g, drv, s, -1) && Fresh(g, s, q, e)
    ensures g.Valid() && q < g.n == |g.adj|
  {}

  /** The top edge leads to a point of the graph, seen or new. */
  lemma TopLeads(g: Graph, drv: nat, s: State)
    requires Inv(g, drv, s, -1) && |s.stack| > 0
    ensures var e := s.stack[|s.stack| - 1]; e < |g.ends| == |s.to| && s.to[e] < g.n == |s.seen| && (s.seen[s.to[e]] || Fresh(g, s, s.to[e], e))
  {
    var e := s.stack[|s.stack| - 1];
    assert Placed(g, s, |s.stack| - 1) && g.Joins(e, s.from[e], s.to[e]);
  }

  lemma OpenIsTidy(g: Graph, s: State)
    requires Open(g, s)
    ensures Tidy(g, s)
  {}

  lemma TopPlaced(g: Graph, drv: nat, s: State)
    requires Inv(g, drv, s, -1) && |s.stack| > 0
    ensures var m := |s.stack| - 1;
            |s.pos| == |s.stack| && s.stack[m] < |s.from| && Point(s, m) == s.from[s.stack[m]] < g.n == |g.adj|
            && s.pos[m] < |g.adj[Point(s, m)]| && g.adj[Point(s, m)][s.pos[m]] == s.stack[m] && g.Valid()
  {
    assert Placed(g, s, |s.stack| - 1);
  }

  class Walker {
    const g: Graph
    const drv: nat
    const from: array<nat>
    const to: array<nat>
    const visited: array<bool>
    const inEdge: array<int>
    const ts: array<nat>
    const ordV: array<nat>
    const stackV: array<nat>
    var ordN: nat
    var stackN: nat
    var loop: bool
    ghost var s: State

    ghost predicate Synced()
      reads this, from, to, visited, inEdge, ts, ordV, stackV
    {
      && Separate()
      && s.from == from[..] && s.to == to[..] && s.seen == visited[..] && s.inEdge == inEdge[..] && s.ts == ts[..]
      && ordN <= ordV.Length && s.ord == ordV[..ordN]
      && stackN <= stackV.Length && s.stack == stackV[..stackN]
      && s.loop == loop
    }

    /** The buffers are distinct and as long as the points and edges need. */
    ghost predicate Separate() {
      && from != to && from != ts && from != ordV && from != stackV
      && to != ts && to != ordV && to != stackV
      && ts != ordV && ts != stackV && ordV != stackV
      && from.Length == to.Length == stackV.Length == |g.ends|
      && visited.Length == inEdge.Length == ts.Length == ordV.Length == g.n
    }

    /** Room for one more point and one more edge. */
    constructor (g: Graph, drv: nat)
      requires g.Valid() && drv < g.n
      ensures Separate() && this.g == g && this.drv == drv
      ensures fresh(from) && fresh(to) && fresh(visited) && fresh(inEdge) && fresh(ts) && fresh(ordV) && fresh(stackV)
      ensures forall e | 0 <= e < |g.ends| :: from[e] == g.ends[e].0 && to[e] == g.ends[e].1
    {
      this.g, this.drv := g, drv;
      this.from := new nat[|g.ends|](e requires 0 <= e < |g.ends| => g.ends[e].0);
      this.to := new nat[|g.ends|](e requires 0 <= e < |g.ends| => g.ends[e].1);
      this.visited := new bool[g.n];
      this.inEdge := new int[g.n];
      this.ts := new nat[g.n];
      this.ordV := new nat[g.n];
      this.stackV := new nat[|g.ends|];
      ordN, stackN, loop := 0, 0, false;
      s := State([], [], [], [], [], [], [], [], false);
    }

    /** ts_orient */
    method Turn(p: nat, e: nat)
      requires Synced() && e < |g.ends|
      modifies this`s, from, to
      ensures Synced() && s == Orient(old(s), p, e)
    {
      if from[e] != p {
        to[e] := from[e];
        from[e] := p;
      }
      s := Orient(s, p, e);
    }

    method Stack(e: nat, ghost k: nat)
      requires Synced() && stackN < stackV.Length
      modifies this`s, this`stackN, stackV
      ensures Synced() && s == Push(old(s), e, k)
    {
      stackV[stackN] := e;
      stackN := stackN + 1;
      s := Push(s, e, k);
    }

    method Enter(q: nat, e: nat)
      requires Synced() && q < g.n && ordN < ordV.Length
      modifies this`s, this`ordN, visited, ts, ordV, inEdge
      ensures Synced() && s == Visit(old(s), q, e)
    {
      visited[q] := true;
      ts[q] := ordN;
      ordV[ordN] := q;
      ordN := ordN + 1;
      inEdge[q] := e;
      s := Visit(s, q, e);
    }

    /** The place in p's list where the walk resumes after edge e: past e, and past the incoming edge if that comes next. */
    method NextSibling(p: nat, e: nat, ghost k0: nat, below: bool, incoming: nat) returns (k: nat)
      requires g.Valid() && p < g.n && k0 < |g.adj[p]| && g.adj[p][k0] == e
      ensures k0 < k <= k0 + 2 && (k == k0 + 2 ==> below && k0 + 1 < |g.adj[p]| && g.adj[p][k0 + 1] == incoming)
      ensures k < |g.adj[p]| && below ==> g.adj[p][k] != incoming
    {
      assert g.Listed(p);
      k := 0;
      while k < |g.adj[p]| && g.adj[p][k] != e
        invariant 0 <= k <= k0
      {
        k := k + 1;
      }
      k := k + 1;
      if k < |g.adj[p]| && below && g.adj[p][k] == incoming {
        k := k + 1;
      }
    }

    /** Try to ascend: drop finished points until one has another resistor, and stack that. */
    method Ascend()
      requires Synced() && Inv(g, drv, s, -1) && TopCovered(g, s) && Tidy(g, s)
      modifies this`s, this`stackN, from, to, stackV
      ensures Synced() && Inv(g, drv, s, -1) && Open(g, s)
      ensures s.ord == old(s.ord) && Lower(g, old(s), s)
    {
      hide Numbered, Entered, Stacked, Worked, Covered, Left, Graph.Valid, Tidy, Open;
      var resumed := false;
      while stackN > 0 && !resumed
        invariant Synced() && Inv(g, drv, s, -1) && s.ord == old(s.ord)
        invariant if resumed then Lower(g, old(s), s) else s == old(s) || |s.stack| < old(|s.stack|)
        invariant !resumed && stackN > 0 ==> TopCovered(g, s)
        invariant if resumed then Open(g, s) else Tidy(g, s)
        decreases !resumed, stackN
      {
        resumed := Resume();
      }
      if !resumed { OpenWhenEmpty(g, s); }
    }

    /** The top point and the place in its list where the walk resumes. */
    method Locate() returns (p: nat, k: nat, ghost incoming: nat)
      requires Synced() && Inv(g, drv, s, -1) && stackN > 0
      ensures |s.pos| == |s.stack| && p == Point(s, stackN - 1) && p < g.n == |g.adj| && s.pos[stackN - 1] < k && Found(g, Pop(s), p, s.pos[stackN - 1], k, incoming)
    {
      hide Inv, Graph.Valid, Point;
      TopPlaced(g, drv, s);
      var e := stackV[stackN - 1];
      p := from[e];
      var below := stackN > 1;
      var inc := if below then stackV[stackN - 2] else 0;
      k := NextSibling(p, e, s.pos[stackN - 1], below, inc);
      incoming := inc;
    }

    method Drop()
      requires Synced() && |s.pos| == |s.stack| > 0
      modifies this`s, this`stackN
      ensures Synced() && s == Pop(old(s))
    {
      stackN := stackN - 1;
      s := Pop(s);
    }

    /** Put edge f of p, re-oriented, in the place of the top of the stack. */
    method Replace(p: nat, f: nat, ghost k: nat)
      requires Synced() && |s.pos| == |s.stack| > 0 && f < |g.ends|
      modifies this`s, this`stackN, from, to, stackV
      ensures Synced() && s == Push(Orient(Pop(old(s)), p, f), f, k)
    {
      Drop();
      Turn(p, f);
      Stack(f, k);
    }

    /** One step of the ascent. */
    method Resume() returns (resumed: bool)
      requires Synced() && Inv(g, drv, s, -1) && TopCovered(g, s) && stackN > 0 && Tidy(g, s)
      modifies this`s, this`stackN, from, to, stackV
      ensures Synced() && Inv(g, drv, s, -1) && s.ord == old(s.ord)
      ensures if resumed then Lower(g, old(s), s) && Open(g, s) else s == Pop(old(s)) && (stackN > 0 ==> TopCovered(g, s)) && Tidy(g, s)
    {
      hide Inv, TopCovered, Found, Lower, Left, Graph.Valid, Point, Tidy, Open;
      var p, k, incoming := Locate();
      resumed := k < |g.adj[p]|;
      if resumed {
        ResumeStep(g, drv, s, p, k, incoming);
        LowerAgain(g, s, p, g.adj[p][k], k);
        Replace(p, g.adj[p][k], k);
      } else {
        DropStep(g, drv, s, p, k, incoming);
        TidyPops(g, s);
        Drop();
      }
    }

    /** The first place in q's list that is not the edge it was entered by. */
    method FirstOther(q: nat, e: nat) returns (k: nat)
      requires g.Valid() && q < g.n && |g.adj[q]| > 1
      ensures k < |g.adj[q]| && g.adj[q][k] != e && forall l | 0 <= l < k :: g.adj[q][l] == e
    {
      assert g.Listed(q);
      assert g.adj[q][0] != g.adj[q][1];
      k := 0;
      while g.adj[q][k] == e
        decreases 1 - k
        invariant 0 <= k <= 1 && forall l | 0 <= l < k :: g.adj[q][l] == e
      {
        k := k + 1;
      }
    }

    /** Try to descend along the top edge e to the new point q; a point with nothing else ends the descent. */
    method Descend(q: nat, e: nat)
      requires Synced() && Inv(g, drv, s, -1) && Fresh(g, s, q, e) && Tidy(g, s)
      modifies this`s, this`stackN, this`ordN, from, to, visited, inEdge, ts, ordV, stackV
      ensures Synced() && Inv(g, drv, s, -1) && |s.ord| == |old(s.ord)| + 1 <= g.n && Open(g, s)
    {
      hide Inv, Fresh, Graph.Valid, TopCovered, Tidy, Open;
      FreshFacts(g, drv, s, q, e);
      if |g.adj[q]| > 1 {
        var k := FirstOther(q, e);
        DeeperStep(g, drv, s, q, e, k);
        Enter(q, e);
        Turn(q, g.adj[q][k]);
        Stack(g.adj[q][k], k);
      } else {
        LeafStep(g, drv, s, q, e);
        Enter(q, e);
        Ascend();
      }
    }

    method Note(l: bool)
      requires Synced()
      modifies this`s, this`loop
      ensures Synced() && s == old(s).(loop := l)
    {
      loop := l;
      s := s.(loop := l);
    }

    /** A top edge whose far end is visited: note a loop, unless it is a self-loop, and ascend. */
    method Revisit(e: nat)
      requires Synced() && Inv(g, drv, s, -1) && stackN > 0 && e == stackV[stackN - 1] && e < |g.ends| && s.seen[to[e]] && Open(g, s)
      modifies this`s, this`stackN, this`loop, from, to, stackV
      ensures Synced() && Inv(g, drv, s, -1) && s.ord == old(s.ord) && Lower(g, old(s), s) && Open(g, s)
    {
      hide Inv, TopCovered, Lower, Graph.Valid, Tidy, Open;
      var l := loop;
      if to[e] != from[e] { l := true; }
      LoopKeeps(g, drv, s, l);
      TidyLoops(g, drv, s, l);
      Note(l);
      Ascend();
      SameLower(g, old(s), s, l);
    }

    /** One turn of the main loop. */
    method Turnover()
      requires Synced() && Inv(g, drv, s, -1) && stackN > 0 && Open(g, s)
      modifies this`s, this`stackN, this`ordN, this`loop, from, to, visited, inEdge, ts, ordV, stackV
      ensures Synced() && Inv(g, drv, s, -1) && Open(g, s)
      ensures |old(s.ord)| < |s.ord| <= g.n || (s.ord == old(s.ord) && Lower(g, old(s), s))
    {
      hide Inv, Fresh, Lower, Left, Graph.Valid, Tidy, Open;
      TopLeads(g, drv, s);
      OpenIsTidy(g, s);
      var e := stackV[stackN - 1];
      var q := to[e];
      if visited[q] { Revisit(e); } else { Descend(q, e); }
    }

    /** The depth-first walk from the driver. */
    method Walk()
      requires Separate() && g.Valid() && drv < g.n && |g.adj[drv]| > 0
      requires forall e | 0 <= e < |g.ends| :: g.Joins(e, from[e], to[e])
      modifies this, from, to, visited, inEdge, ts, ordV, stackV
      ensures Synced() && Inv(g, drv, s, -1) && stackN == 0 && Tidy(g, s)
    {
      hide Tidy, AheadFrom, Spare;
      Begin();
      while stackN > 0
        invariant Synced() && Inv(g, drv, s, -1) && |s.ord| <= g.n && Open(g, s)
        decreases g.n - |s.ord|, |s.stack|, Left(g, s)
      {
        LeftPositive(g, drv, s);
        Turnover();
        OrdBound(g, drv, s);
      }
    }

    method Clear()
      requires visited.Length == g.n
      modifies visited
      ensures forall i | 0 <= i < g.n :: !visited[i]
    {
      var p := 0;
      while p < g.n
        invariant 0 <= p <= g.n && forall i | 0 <= i < p :: !visited[i]
      {
        visited[p] := false;
        p := p + 1;
      }
    }

    /** The driver is the first point. */
    method Seed()
      requires Separate() && drv < g.n
      modifies this, visited, inEdge, ts, ordV
      ensures Synced() && s.from == from[..] && s.to == to[..] && s.ord == [drv] && s.stack == s.pos == []
      ensures forall p | 0 <= p < g.n :: s.seen[p] <==> p == drv
      ensures s.inEdge[drv] == -1 && s.ts[drv] == 0 && !s.loop
    {
      Clear();
      visited[drv] := true;
      inEdge[drv] := -1;
      ts[drv] := 0;
      ordV[0] := drv;
      ordN, stackN, loop := 1, 0, false;
      s := State(from[..], to[..], visited[..], inEdge[..], ts[..], [drv], [], [], false);
    }

    method Begin()
      requires Separate() && g.Valid() && drv < g.n && |g.adj[drv]| > 0
      requires forall e | 0 <= e < |g.ends| :: g.Joins(e, from[e], to[e])
      modifies this, from, to, visited, inEdge, ts, ordV, stackV
      ensures Synced() && Inv(g, drv, s, -1) && |s.ord| <= g.n && Open(g, s)
    {
      Seed();
      var e := g.adj[drv][0];
      assert g.Listed(drv);
      assert forall e | 0 <= e < |g.ends| :: g.Joins(e, s.from[e], s.to[e]);
      StartKeeps(g, drv, s);
      OpenStarts(g, drv, s);
      OrdBound(g, drv, Push(Orient(s, drv, e), e, 0));
      hide Inv, Graph.Valid, Graph.Listed;
      Turn(drv, e);
      Stack(e, 0);
    }
  }
}
