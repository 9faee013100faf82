/** The timing-graph store: vertices and edges by id, with the edge lists threaded through the edges. */
module GraphStore {
  import opened Common
  import opened Permutations
  import opened GraphLists

  class Graph {
    var vertices: Vertices
    var edges: Edges
    var arcCount: int
    /** The lists that the links spell. */
    ghost var outs: Lists
    ghost var ins: Lists

    ghost predicate Ok()
      reads this
    {
      Valid(vertices, edges, outs, ins) && arcCount == ArcTotal(edges, edges.Keys)
    }

    constructor ()
      ensures Ok() && vertices == map[] && edges == map[]
    {
      vertices, edges, arcCount := map[], map[], 0;
      outs, ins := map[], map[];
    }

    /** v is the id the object table hands out. */
    method MakeVertex(v: nat)
      requires Ok() && v != 0 && v !in vertices
      modifies this
      ensures Ok() && vertices.Keys == old(vertices.Keys) + {v} && edges == old(edges) && arcCount == old(arcCount)
      ensures outs == old(outs)[v := []] && ins == old(ins)[v := []]
    {
      VertexAdded(vertices, edges, outs, ins, v);
      vertices := vertices[v := Vertex(0, 0)];
      outs, ins := outs[v := []], ins[v := []];
    }

    /** id is the id the object table hands out; from and to may be the same vertex. */
    method MakeEdge(from: nat, to: nat, arcs: nat, id: nat)
      requires Ok() && Fresh(vertices, edges, id, from, to)
      modifies this
      ensures Ok() && vertices.Keys == old(vertices.Keys) && edges.Keys == old(edges.Keys) + {id} && arcCount == old(arcCount) + arcs
      ensures edges[id].from == from && edges[id].to == to && edges[id].arcs == arcs
      ensures forall x | x in old(edges) :: SameEnds(old(edges), edges, x)
      ensures outs == old(outs)[from := [id] + old(outs)[from]] && ins == old(ins)[to := [id] + old(ins)[to]]
    {
      hide Valid, SameEnds, ArcTotal;
      ghost var vs, es := vertices, edges;
      EdgeMade(vs, es, outs, ins, id, from, to, arcs);
      edges := edges[id := Edge(from, to, arcs, 0, 0, 0)];
      arcCount := arcCount + arcs;
      var next := vertices[from].outEdges;
      edges := edges[id := edges[id].(outNext := next, outPrev := 0)];
      if next != 0 {
        edges := edges[next := edges[next].(outPrev := id)];
      }
      vertices := vertices[from := vertices[from].(outEdges := id)];
      edges := edges[id := edges[id].(inLink := vertices[to].inEdges)];
      vertices := vertices[to := vertices[to].(inEdges := id)];
      outs, ins := outs[from := [id] + outs[from]], ins[to := [id] + ins[to]];
    }

    /** The in list is singly linked: the predecessor is found from the head. */
    method DeleteInEdge(u: nat, e: nat, ghost list: seq<nat>, ghost q: nat)
      requires e in edges && edges[e].to == u && u in vertices && 0 !in edges
      requires InChain(edges, u, vertices[u].inEdges, list) && q < |list| && list[q] == e
      modifies `vertices, `edges
      ensures Nth(list, q - 1) != 0 ==> Nth(list, q - 1) in old(edges)
      ensures edges == InUnlinked(old(edges), e, Nth(list, q - 1)) && vertices == InHeaded(old(vertices), old(edges), e, Nth(list, q - 1))
    {
      var prev := 0;
      var i := vertices[u].inEdges;
      ghost var k := 0;
      while i != 0 && i != e
        invariant 0 <= k <= q && i == Nth(list, k) && prev == Nth(list, k - 1)
        decreases q - k
      {
        assert InLink(edges, u, list, k);
        prev := i;
        i := edges[i].inLink;
        k := k + 1;
      }
      assert InLink(edges, u, list, k);
      if k > 0 { assert InLink(edges, u, list, k - 1); }
      assert k == q;
      if prev != 0 {
        edges := edges[prev := edges[prev].(inLink := edges[e].inLink)];
      } else {
        vertices := vertices[u := vertices[u].(inEdges := edges[e].inLink)];
      }
    }

    method DeleteOutEdge(u: nat, e: nat)
      requires e in edges && edges[e].from == u && u in vertices && e != edges[e].outPrev
      requires (edges[e].outPrev != 0 ==> edges[e].outPrev in edges) && (edges[e].outNext != 0 ==> edges[e].outNext in edges)
      modifies `vertices, `edges
      ensures edges == OutUnlinked(old(edges), e) && vertices == OutHeaded(old(vertices), old(edges), e)
    {
      var next, prev := edges[e].outNext, edges[e].outPrev;
      if prev != 0 {
        edges := edges[prev := edges[prev].(outNext := next)];
      } else {
        vertices := vertices[u := vertices[u].(outEdges := next)];
      }
      if next != 0 {
        edges := edges[next := edges[next].(outPrev := prev)];
      }
    }

    method DeleteEdge(e: nat)
      requires Ok() && e in edges
      modifies this
      ensures Ok() && vertices.Keys == old(vertices.Keys) && edges.Keys == old(edges.Keys) - {e} && arcCount == old(arcCount) - old(edges[e].arcs)
      ensures forall x | x in edges :: SameEnds(old(edges), edges, x)
      ensures outs == KeepAll(old(outs), {e}) && ins == KeepAll(old(ins), {e})
    {
      hide Valid, InChain, SameEnds;
      ghost var q := EdgeGone(vertices, edges, outs, ins, e);
      var from, to := edges[e].from, edges[e].to;
      DeleteOutEdge(from, e);
      DeleteInEdge(to, e, ins[to], q);
      arcCount := arcCount - edges[e].arcs;
      edges := edges - {e};
      outs, ins := KeepAll(outs, {e}), KeepAll(ins, {e});
    }

    /** The out edges of u in the order the iterator visits them. */
    method OutEdges(u: nat) returns (list: seq<nat>)
      requires Ok() && u in vertices
      ensures list == outs[u]
    {
      list := [];
      assert OutChain(edges, u, vertices[u].outEdges, outs[u]);
      forall k | 0 <= k < |outs[u]| ensures outs[u][k] != 0 { assert OutLink(edges, u, outs[u], k); }
      hide Valid, ArcTotal;
      var next := vertices[u].outEdges;
      while next != 0
        invariant |list| <= |outs[u]| && list == outs[u][..|list|] && next == Nth(outs[u], |list|)
        decreases |outs[u]| - |list|
      {
        assert OutLink(edges, u, outs[u], |list|);
        list, next := list + [next], edges[next].outNext;
      }
    }

    method InEdges(u: nat) returns (list: seq<nat>)
      requires Ok() && u in vertices
      ensures list == ins[u]
    {
      list := [];
      assert InChain(edges, u, vertices[u].inEdges, ins[u]);
      forall k | 0 <= k < |ins[u]| ensures ins[u][k] != 0 { assert InLink(edges, u, ins[u], k); }
      hide Valid, ArcTotal;
      var next := vertices[u].inEdges;
      while next != 0
        invariant |list| <= |ins[u]| && list == ins[u][..|list|] && next == Nth(ins[u], |list|)
        decreases |ins[u]| - |list|
      {
        assert InLink(edges, u, ins[u], |list|);
        list, next := list + [next], edges[next].inLink;
      }
    }

    method HasFaninOne(u: nat) returns (one: bool)
      requires Ok() && u in vertices
      ensures one <==> |ins[u]| == 1
    {
      HeadLive(vertices, edges, outs, ins, u);
      assert InChain(edges, u, vertices[u].inEdges, ins[u]);
      hide Valid, ArcTotal;
      one := vertices[u].inEdges != 0 && edges[vertices[u].inEdges].inLink == 0;
      if |ins[u]| > 0 { assert InLink(edges, u, ins[u], 0); }
      if |ins[u]| > 1 { assert InLink(edges, u, ins[u], 1); }
    }

    /** Destroy the edges into v, then those out of v, then v. A self-loop goes with the edges into v. */
    method DeleteVertex(v: nat)
      requires Ok() && v in vertices
      modifies this
      ensures Ok() && vertices.Keys == old(vertices.Keys) - {v} && edges.Keys == old(edges.Keys) - Incident(old(edges), v)
      ensures forall x | x in edges :: SameEnds(old(edges), edges, x)
      ensures outs == KeepAll(old(outs), Incident(old(edges), v)) - {v} && ins == KeepAll(old(ins), Incident(old(edges), v)) - {v}
    {
      hide Valid, ArcTotal, SameEnds, KeepAll, Cleared;
      ghost var start, gone := Store(vertices, edges, outs, ins), {};
      var e := vertices[v].inEdges;
      ClearStarts(start, v);
      while e != 0
        invariant v in vertices && Cleared(start, Store(InLag(vertices, v, e), edges, outs, ins), v, gone)
        invariant arcCount == ArcTotal(edges, edges.Keys)
        decreases edges.Keys
      {
        ghost var vs, es := vertices, edges;
        ClearsIn(start, vs, es, outs, ins, v, e, gone);
        var next := edges[e].inLink;
        DeleteOutEdge(edges[e].from, e);
        arcCount := arcCount - edges[e].arcs;
        edges := edges - {e};
        outs, ins, gone := KeepAll(outs, {e}), KeepAll(ins, {e}), gone + {e};
        e := next;
      }
      e := vertices[v].outEdges;
      InsCleared(start, vertices, edges, outs, ins, v, gone);
      while e != 0
        invariant v in vertices && Cleared(start, Store(OutLag(vertices, v, e), PrevLag(edges, e), outs, ins), v, gone)
        invariant arcCount == ArcTotal(edges, edges.Keys)
        decreases edges.Keys
      {
        ghost var q := ClearsOut(start, vertices, edges, outs, ins, v, e, gone);
        var next, to := edges[e].outNext, edges[e].to;
        hide InChain;
        DeleteInEdge(to, e, ins[to], q);
        arcCount := arcCount - edges[e].arcs;
        edges := edges - {e};
        outs, ins, gone := KeepAll(outs, {e}), KeepAll(ins, {e}), gone + {e};
        e := next;
      }
      OutsCleared(start, vertices, edges, outs, ins, v, gone);
      vertices := vertices - {v};
      outs, ins := outs - {v}, ins - {v};
    }
  }

  /** The edges with an end at v. */
  ghost function Incident(es: Edges, v: nat): set<nat> { set x | x in es && (es[x].from == v || es[x].to == v) }

  datatype Store = Store(vs: Vertices, es: Edges, outs: Lists, ins: Lists) {
    ghost predicate Ok() { Valid(vs, es, outs, ins) }
  }

  /** Some edges at v are gone, and nothing else has happened. */
  ghost predicate Cleared(start: Store, now: Store, v: nat, gone: set<nat>) {
    && now.Ok() && now.vs.Keys == start.vs.Keys && now.es.Keys == start.es.Keys - gone && gone <= Incident(start.es, v)
    && now.outs == KeepAll(start.outs, gone) && now.ins == KeepAll(start.ins, gone)
    && forall x | x in now.es :: SameEnds(start.es, now.es, x)
  }

  lemma {:induction false} KeepNone(lists: Lists)
    ensures KeepAll(lists, {}) == lists
  {
    forall u | u in lists ensures Keep(lists[u], {}) == lists[u] { KeepSame(lists[u], {}); }
  }

  lemma {:induction false} ClearStarts(start: Store, v: nat)
    requires start.Ok() && v in start.vs
    ensures Cleared(start, Store(InLag(start.vs, v, start.vs[v].inEdges), start.es, start.outs, start.ins), v, {})
  {
    KeepNone(start.outs);
    KeepNone(start.ins);
    assert InLag(start.vs, v, start.vs[v].inEdges) == start.vs;
  }

  /** One more edge gone. */
  lemma {:induction false} ClearsOne(start: Store, now: Store, next: Store, v: nat, gone: set<nat>, e: nat)
    requires Cleared(start, now, v, gone) && e in now.es && (now.es[e].from == v || now.es[e].to == v)
    requires next.Ok() && next.vs.Keys == now.vs.Keys && next.es.Keys == now.es.Keys - {e}
    requires next.outs == KeepAll(now.outs, {e}) && next.ins == KeepAll(now.ins, {e}) && forall x | x in next.es :: SameEnds(now.es, next.es, x)
    ensures Cleared(start, next, v, gone + {e})
  {
    hide KeepAll, Store.Ok, Incident, SameEnds;
    KeepAllTwice(start.outs, gone, {e});
    KeepAllTwice(start.ins, gone, {e});
    StillIncident(start.es, now.es, v, e);
    SameEndsChain(start.es, now.es, next.es);
    assert next.es.Keys == start.es.Keys - (gone + {e});
  }

  lemma StillIncident(a: Edges, b: Edges, v: nat, e: nat)
    requires e in a && e in b && SameEnds(a, b, e) && (b[e].from == v || b[e].to == v)
    ensures e in Incident(a, v)
  {}

  lemma SameEndsChain(a: Edges, b: Edges, c: Edges)
    requires c.Keys <= b.Keys && (forall x | x in b :: SameEnds(a, b, x)) && (forall x | x in c :: SameEnds(b, c, x))
    ensures forall x | x in c :: SameEnds(a, c, x)
  {
    forall x | x in c ensures SameEnds(a, c, x) { assert SameEnds(a, b, x) && SameEnds(b, c, x); }
  }

  lemma {:induction false} ClearsIn(start: Store, vs: Vertices, es: Edges, outs: Lists, ins: Lists, v: nat, e: nat, gone: set<nat>)
    requires v in vs && e != 0 && Cleared(start, Store(InLag(vs, v, e), es, outs, ins), v, gone)
    ensures e in es && es[e].from in vs && es[e].outPrev != e
    ensures (es[e].outPrev != 0 ==> es[e].outPrev in es) && (es[e].outNext != 0 ==> es[e].outNext in es)
    ensures var es' := OutUnlinked(es, e) - {e};
            && OutUnlinked(es, e)[e].arcs == es[e].arcs && e in OutUnlinked(es, e) && es'.Keys == es.Keys - {e}
            && Cleared(start, Store(InLag(OutHeaded(vs, es, e), v, es[e].inLink), es', KeepAll(outs, {e}), KeepAll(ins, {e})), v, gone + {e})
            && ArcTotal(es', es'.Keys) == ArcTotal(es, es.Keys) - es[e].arcs
  {
    InStep(vs, es, outs, ins, v, e);
    var es' := OutUnlinked(es, e) - {e};
    var now, next := Store(InLag(vs, v, e), es, outs, ins), Store(InLag(OutHeaded(vs, es, e), v, es[e].inLink), es', KeepAll(outs, {e}), KeepAll(ins, {e}));
    assert es[e].outPrev != e by { PrevOther(InLag(vs, v, e), es, outs, ins, e); }
    InLinkKept(es, e);
    hide Valid, Cleared, ArcTotal;
    ArcsRemoved(es, es', e);
    ClearsOne(start, now, next, v, gone, e);
  }

  lemma {:induction false} PrevOther(vs: Vertices, es: Edges, outs: Lists, ins: Lists, e: nat)
    requires Valid(vs, es, outs, ins) && e in es
    ensures es[e].outPrev != e
  {
    var p, q := OnLists(vs, es, outs, ins, e);
    assert OutChain(es, es[e].from, vs[es[e].from].outEdges, outs[es[e].from]);
    assert OutLink(es, es[e].from, outs[es[e].from], p);
  }

  /** With the in list empty, the lag moves to the out list. */
  lemma {:induction false} InsCleared(start: Store, vs: Vertices, es: Edges, outs: Lists, ins: Lists, v: nat, gone: set<nat>)
    requires v in vs && Cleared(start, Store(InLag(vs, v, 0), es, outs, ins), v, gone)
    ensures var e := vs[v].outEdges; Cleared(start, Store(OutLag(vs, v, e), PrevLag(es, e), outs, ins), v, gone)
  {
    var e := vs[v].outEdges;
    assert InLag(vs, v, 0) == OutLag(vs, v, e);
    HeadLive(InLag(vs, v, 0), es, outs, ins, v);
    assert OutChain(es, v, e, outs[v]);
    if e != 0 {
      assert OutLink(es, v, outs[v], 0);
      assert PrevLag(es, e) == es;
    }
  }

  lemma {:induction false} ClearsOut(start: Store, vs: Vertices, es: Edges, outs: Lists, ins: Lists, v: nat, e: nat, gone: set<nat>) returns (q: nat)
    requires v in vs && e != 0 && Cleared(start, Store(OutLag(vs, v, e), PrevLag(es, e), outs, ins), v, gone)
    ensures e in es && es[e].to in vs && es[e].to in ins && es[e].to != v && 0 !in es
    ensures var u, list := es[e].to, ins[es[e].to]; var prev := Nth(list, q - 1);
            && q < |list| && list[q] == e && InChain(es, u, vs[u].inEdges, list) && (prev != 0 ==> prev in es)
            && var es' := InUnlinked(es, e, prev) - {e};
               && InUnlinked(es, e, prev)[e].arcs == es[e].arcs && e in InUnlinked(es, e, prev) && es'.Keys == es.Keys - {e}
               && Cleared(start, Store(OutLag(InHeaded(vs, es, e, prev), v, es[e].outNext), PrevLag(es', es[e].outNext), KeepAll(outs, {e}), KeepAll(ins, {e})), v, gone + {e})
               && ArcTotal(es', es'.Keys) == ArcTotal(es, es.Keys) - es[e].arcs
  {
    q := OutStepLive(vs, es, outs, ins, v, e);
    var u, list := es[e].to, ins[es[e].to];
    var prev := Nth(list, q - 1);
    if q > 0 { assert InLink(es, u, list, q - 1); }
    OutStep(vs, es, outs, ins, v, e, q);
    var es' := InUnlinked(es, e, prev) - {e};
    InEndsKept(es, e, prev);
    var now, next := Store(OutLag(vs, v, e), PrevLag(es, e), outs, ins),
                     Store(OutLag(InHeaded(vs, es, e, prev), v, es[e].outNext), PrevLag(es', es[e].outNext), KeepAll(outs, {e}), KeepAll(ins, {e}));
    LagEnds(es, e, es', es[e].outNext);
    hide Valid, Cleared, ArcTotal, InUnlinked, At, InChain, SameEnds, PrevLag;
    ArcsRemoved(es, es', e);
    ClearsOne(start, now, next, v, gone, e);
  }

  lemma InEndsKept(es: Edges, e: nat, prev: nat)
    requires e in es && (prev != 0 ==> prev in es)
    ensures var es1 := InUnlinked(es, e, prev); es1.Keys == es.Keys && es1[e].arcs == es[e].arcs && forall x | x in es1 - {e} :: SameEnds(es, es1 - {e}, x)
  {}

  lemma LagEnds(es: Edges, e: nat, es': Edges, e': nat)
    requires e in es && es'.Keys == es.Keys - {e} && forall x | x in es' :: SameEnds(es, es', x)
    ensures PrevLag(es', e').Keys == PrevLag(es, e).Keys - {e} && e in PrevLag(es, e) && PrevLag(es, e)[e].from == es[e].from
    ensures forall x | x in PrevLag(es', e') :: SameEnds(PrevLag(es, e), PrevLag(es', e'), x)
  {}

  /** With both lists empty, every edge at v is gone. */
  lemma {:induction false} OutsCleared(start: Store, vs: Vertices, es: Edges, outs: Lists, ins: Lists, v: nat, gone: set<nat>)
    requires v in vs && v in start.vs && Cleared(start, Store(OutLag(vs, v, 0), PrevLag(es, 0), outs, ins), v, gone)
    ensures gone == Incident(start.es, v) && Valid(vs - {v}, es, outs - {v}, ins - {v}) && vs.Keys == start.vs.Keys
    ensures es.Keys == start.es.Keys - gone && forall x | x in es :: SameEnds(start.es, es, x)
    ensures outs == KeepAll(start.outs, gone) && ins == KeepAll(start.ins, gone)
  {
    hide KeepAll, SameEnds, Incident, Valid;
    var vs1 := OutLag(vs, v, 0);
    NoLag(vs1, es, outs, ins);
    HeadLive(vs1, es, outs, ins, v);
    VertexDropped(vs1, es, outs, ins, v);
    assert vs1 - {v} == vs - {v};
    forall x | x in es ensures x !in Incident(start.es, v) { NotIncident(start.es, es, v, x); }
    IncidentLive(start.es, v);
  }

  lemma NoLag(vs: Vertices, es: Edges, outs: Lists, ins: Lists)
    requires Valid(vs, PrevLag(es, 0), outs, ins)
    ensures PrevLag(es, 0) == es
  {}

  lemma NotIncident(a: Edges, b: Edges, v: nat, x: nat)
    requires x in a && x in b && SameEnds(a, b, x) && b[x].from != v && b[x].to != v
    ensures x !in Incident(a, v)
  {}

  lemma IncidentLive(es: Edges, v: nat)
    ensures Incident(es, v) <= es.Keys
  {}

  /** What the assignments of makeEdge amount to. */
  lemma {:induction false} EdgeMade(vs: Vertices, es: Edges, outs: Lists, ins: Lists, id: nat, from: nat, to: nat, arcs: nat)
    requires Valid(vs, es, outs, ins) && Fresh(vs, es, id, from, to)
    ensures from in outs && to in ins && var next := vs[from].outEdges; next != 0 ==> next in es
    ensures var es', vs' := EdgesMade(vs, es, id, from, to, arcs), VerticesWith(vs, id, from, to);
            Valid(vs', es', outs[from := [id] + outs[from]], ins[to := [id] + ins[to]]) && es'.Keys == es.Keys + {id}
            && ArcTotal(es', es'.Keys) == ArcTotal(es, es.Keys) + arcs && es'[id].from == from && es'[id].to == to && es'[id].arcs == arcs
            && forall x | x in es :: SameEnds(es, es', x)
  {
    HeadLive(vs, es, outs, ins, from);
    EdgeAdded(vs, es, outs, ins, id, from, to, arcs);
    hide Valid, SameEnds;
    MadeIsWith(vs, es, id, from, to, arcs);
    hide EdgesWith, EdgesMade;
    ArcsAdded(vs, es, EdgesWith(vs, es, id, from, to, arcs), id, from, to, arcs);
  }

  /** The edges as makeEdge writes them: first the new edge, its out links, then its in link. */
  ghost function EdgesMade(vs: Vertices, es: Edges, id: nat, from: nat, to: nat, arcs: nat): Edges
    requires from in vs && to in vs && (vs[from].outEdges != 0 ==> vs[from].outEdges in es)
  {
    var next := vs[from].outEdges;
    var es1 := es[id := Edge(from, to, arcs, 0, 0, 0)];
    var es2 := es1[id := es1[id].(outNext := next, outPrev := 0)];
    var es3 := if next != 0 then es2[next := es2[next].(outPrev := id)] else es2;
    es3[id := es3[id].(inLink := vs[from := vs[from].(outEdges := id)][to].inEdges)]
  }

  lemma MadeIsWith(vs: Vertices, es: Edges, id: nat, from: nat, to: nat, arcs: nat)
    requires from in vs && to in vs && (vs[from].outEdges != 0 ==> vs[from].outEdges in es) && id !in es
    ensures EdgesMade(vs, es, id, from, to, arcs) == EdgesWith(vs, es, id, from, to, arcs)
  {}

  /** What deleteEdge amounts to, and what its two unlinking calls need. */
  lemma {:induction false} EdgeGone(vs: Vertices, es: Edges, outs: Lists, ins: Lists, e: nat) returns (q: nat)
    requires Valid(vs, es, outs, ins) && e in es
    ensures 0 !in es && es[e].from in vs && es[e].to in vs && es[e].to in ins && e != es[e].outPrev
    ensures (es[e].outPrev != 0 ==> es[e].outPrev in es) && (es[e].outNext != 0 ==> es[e].outNext in es)
    ensures var u, es1, vs1 := es[e].to, OutUnlinked(es, e), OutHeaded(vs, es, e); var list := ins[u]; var prev := Nth(list, q - 1);
            && q < |list| && list[q] == e && 0 !in es1 && e in es1 && es1[e].to == u && es1[e].arcs == es[e].arcs && InChain(es1, u, vs1[u].inEdges, list)
            && (prev != 0 ==> prev in es1)
            && var es' := InUnlinked(es1, e, prev) - {e};
               Valid(InHeaded(vs1, es1, e, prev), es', KeepAll(outs, {e}), KeepAll(ins, {e})) && es'.Keys == es.Keys - {e}
               && ArcTotal(es', es'.Keys) == ArcTotal(es, es.Keys) - es[e].arcs && (forall x | x in es' :: SameEnds(es, es', x))
  {
    var p;
    p, q := OnLists(vs, es, outs, ins, e);
    var prev := Nth(ins[es[e].to], q - 1);
    CanUnlink(vs, es, outs, ins, e, p, q);
    UnlinkedInChain(vs, es, outs, ins, e, p, q);
    EdgeRemoved(vs, es, outs, ins, e, p, q);
    EndsKept(es, e, prev);
    InLinkKept(es, e);
    hide Valid, InChain, At, ArcTotal;
    ArcsRemoved(es, EdgesWithout(es, e, prev), e);
  }

  lemma InLinkKept(es: Edges, e: nat)
    requires e in es && (es[e].outPrev != 0 ==> es[e].outPrev in es) && (es[e].outNext != 0 ==> es[e].outNext in es)
    ensures OutUnlinked(es, e)[e].inLink == es[e].inLink && OutUnlinked(es, e)[e].to == es[e].to && OutUnlinked(es, e)[e].arcs == es[e].arcs
  {}

  lemma ArcsAdded(vs: Vertices, es: Edges, es': Edges, id: nat, from: nat, to: nat, arcs: nat)
    requires from in vs && to in vs && id !in es && Pushed(vs, es, es', id, from, to, arcs)
    ensures ArcTotal(es', es'.Keys) == ArcTotal(es, es.Keys) + arcs
  {
    ArcTotalLess(es', es'.Keys, id);
    assert es'.Keys - {id} == es.Keys;
    ArcTotalSame(es, es', es.Keys);
  }

  lemma ArcsRemoved(es: Edges, es': Edges, e: nat)
    requires e in es && es'.Keys == es.Keys - {e} && forall x | x in es' :: SameEnds(es, es', x)
    ensures ArcTotal(es', es'.Keys) == ArcTotal(es, es.Keys) - es[e].arcs
  {
    ArcTotalLess(es, es.Keys, e);
    ArcTotalSame(es, es', es'.Keys);
  }

  lemma OnLists(vs: Vertices, es: Edges, outs: Lists, ins: Lists, e: nat) returns (p: nat, q: nat)
    requires Valid(vs, es, outs, ins) && e in es
    ensures At(vs, es, outs, ins, e, p, q)
  {
    assert Listed(vs, es, outs, ins, e);
    p :| 0 <= p < |outs[es[e].from]| && outs[es[e].from][p] == e;
    q :| 0 <= q < |ins[es[e].to]| && ins[es[e].to][q] == e;
  }

  /** Unlinking the out list leaves the in list of the edge as it was. */
  lemma {:induction false} UnlinkedInChain(vs: Vertices, es: Edges, outs: Lists, ins: Lists, e: nat, p: nat, q: nat)
    requires Valid(vs, es, outs, ins) && At(vs, es, outs, ins, e, p, q) && Linked(vs, es, e, Nth(ins[es[e].to], q - 1))
    ensures e != es[e].outPrev
    ensures var u, es' := es[e].to, OutUnlinked(es, e);
            InChain(es', u, OutHeaded(vs, es, e)[u].inEdges, ins[u]) && 0 !in es' && SameEnds(es, es', e)
            && (Nth(ins[es[e].to], q - 1) != 0 ==> Nth(ins[es[e].to], q - 1) in es')
  {
    var u, es' := es[e].to, OutUnlinked(es, e);
    assert OutChain(es, es[e].from, vs[es[e].from].outEdges, outs[es[e].from]);
    assert OutLink(es, es[e].from, outs[es[e].from], p);
    assert InChain(es, u, vs[u].inEdges, ins[u]);
    forall k | 0 <= k < |ins[u]| ensures InSame(es, es', ins[u][k]) { assert InLink(es, u, ins[u], k); }
    InFrame(es, es', u, vs[u].inEdges, ins[u]);
  }
}
