/** The edge lists of the timing graph as values: what the id links spell, and what unlinking one edge does to them. */
module GraphLists {
  import opened Common
  import opened Permutations

  /** Heads of a vertex's edge lists; id 0 is the null id. */
  datatype Vertex = Vertex(inEdges: nat, outEdges: nat)
  datatype Edge = Edge(from: nat, to: nat, arcs: nat, inLink: nat, outNext: nat, outPrev: nat)

  type Vertices = map<nat, Vertex>
  type Edges = map<nat, Edge>
  type Lists = map<nat, seq<nat>>

  function Nth(list: seq<nat>, k: int): nat { if 0 <= k < |list| then list[k] else 0 }

  ghost predicate OutLink(es: Edges, u: nat, list: seq<nat>, k: nat)
    requires k < |list|
  {
    list[k] in es && es[list[k]].from == u && es[list[k]].outNext == Nth(list, k + 1) && es[list[k]].outPrev == Nth(list, k - 1)
  }

  ghost predicate InLink(es: Edges, u: nat, list: seq<nat>, k: nat)
    requires k < |list|
  {
    list[k] in es && es[list[k]].to == u && es[list[k]].inLink == Nth(list, k + 1)
  }

  /** The links from a head spell the list, forwards and backwards. */
  ghost predicate OutChain(es: Edges, u: nat, head: nat, list: seq<nat>) {
    head == Nth(list, 0) && Distinct(list) && forall k | 0 <= k < |list| :: OutLink(es, u, list, k)
  }

  ghost predicate InChain(es: Edges, u: nat, head: nat, list: seq<nat>) {
    head == Nth(list, 0) && Distinct(list) && forall k | 0 <= k < |list| :: InLink(es, u, list, k)
  }

  ghost predicate Chained(vs: Vertices, es: Edges, outs: Lists, ins: Lists) {
    && outs.Keys == vs.Keys == ins.Keys
    && forall u | u in vs :: OutChain(es, u, vs[u].outEdges, outs[u]) && InChain(es, u, vs[u].inEdges, ins[u])
  }

  /** The edge joins two live vertices and is on both their lists. */
  ghost predicate Listed(vs: Vertices, es: Edges, outs: Lists, ins: Lists, e: nat)
    requires outs.Keys == vs.Keys == ins.Keys && e in es
  {
    es[e].from in vs && es[e].to in vs && Occurs(outs[es[e].from], e) && Occurs(ins[es[e].to], e)
  }

  /** The lists hold exactly the live edges of each vertex. */
  ghost predicate Valid(vs: Vertices, es: Edges, outs: Lists, ins: Lists) {
    && 0 !in vs && 0 !in es && Chained(vs, es, outs, ins)
    && forall e | e in es :: Listed(vs, es, outs, ins, e)
  }

  /** The list without some edges, the rest in order. */
  function Keep(list: seq<nat>, dead: set<nat>): seq<nat> {
    if |list| == 0 then [] else if list[0] in dead then Keep(list[1..], dead) else [list[0]] + Keep(list[1..], dead)
  }

  function KeepAll(lists: Lists, dead: set<nat>): Lists { map u | u in lists :: Keep(lists[u], dead) }

  function Cut(list: seq<nat>, p: nat): seq<nat>
    requires p < |list|
  {
    list[..p] + list[p + 1..]
  }

  lemma {:induction false} KeepSame(list: seq<nat>, dead: set<nat>)
    requires forall i | 0 <= i < |list| :: list[i] !in dead
    ensures Keep(list, dead) == list
  {
    if |list| > 0 { KeepSame(list[1..], dead); }
  }

  lemma {:induction false} KeepOne(list: seq<nat>, p: nat)
    requires p < |list| && Distinct(list)
    ensures Keep(list, {list[p]}) == Cut(list, p)
  {
    if p == 0 {
      KeepSame(list[1..], {list[0]});
    } else {
      KeepOne(list[1..], p - 1);
    }
  }

  lemma {:induction false} KeepTwice(list: seq<nat>, a: set<nat>, b: set<nat>)
    ensures Keep(Keep(list, a), b) == Keep(list, a + b)
  {
    if |list| > 0 { KeepTwice(list[1..], a, b); }
  }

  lemma KeepAllTwice(lists: Lists, a: set<nat>, b: set<nat>)
    ensures KeepAll(KeepAll(lists, a), b) == KeepAll(lists, a + b)
  {
    forall u | u in lists ensures Keep(Keep(lists[u], a), b) == Keep(lists[u], a + b) { KeepTwice(lists[u], a, b); }
  }

  // ---- unlinking one edge --------------------------------------------------------------------

  /** The edges after the neighbours on the out list are joined up. */
  function OutUnlinked(es: Edges, e: nat): Edges
    requires e in es && (es[e].outPrev != 0 ==> es[e].outPrev in es) && (es[e].outNext != 0 ==> es[e].outNext in es)
  {
    var next, prev := es[e].outNext, es[e].outPrev;
    var es1 := if prev != 0 then es[prev := es[prev].(outNext := next)] else es;
    if next != 0 then es1[next := es1[next].(outPrev := prev)] else es1
  }

  /** The edges after the predecessor prev (0 if none) on the in list is joined to the successor. */
  function InUnlinked(es: Edges, e: nat, prev: nat): Edges
    requires e in es && (prev != 0 ==> prev in es)
  {
    if prev != 0 then es[prev := es[prev].(inLink := es[e].inLink)] else es
  }

  function Headed(head: nat, prev: nat, next: nat): nat { if prev != 0 then head else next }

  /** An out list and its edge cut out. */
  lemma {:induction false} OutCut(es: Edges, u: nat, head: nat, list: seq<nat>, p: nat)
    requires 0 !in es && OutChain(es, u, head, list) && p < |list|
    ensures var e := list[p];
            e in es && (es[e].outPrev != 0 ==> es[e].outPrev in es) && (es[e].outNext != 0 ==> es[e].outNext in es)
            && OutChain(OutUnlinked(es, e) - {e}, u, Headed(head, es[e].outPrev, es[e].outNext), Cut(list, p))
  {
    var e := list[p];
    assert OutLink(es, u, list, p);
    if p > 0 { assert OutLink(es, u, list, p - 1); }
    if p + 1 < |list| { assert OutLink(es, u, list, p + 1); }
    var es', list' := OutUnlinked(es, e) - {e}, Cut(list, p);
    forall k | 0 <= k < |list'| ensures OutLink(es', u, list', k) {
      var i := if k < p then k else k + 1;
      assert list'[k] == list[i] && OutLink(es, u, list, i);
    }
  }

  lemma {:induction false} InCut(es: Edges, u: nat, head: nat, list: seq<nat>, p: nat)
    requires 0 !in es && InChain(es, u, head, list) && p < |list|
    ensures var e, prev := list[p], Nth(list, p - 1);
            e in es && (prev != 0 ==> prev in es)
            && InChain(InUnlinked(es, e, prev) - {e}, u, Headed(head, prev, es[e].inLink), Cut(list, p))
  {
    var e, prev := list[p], Nth(list, p - 1);
    assert InLink(es, u, list, p);
    if p > 0 { assert InLink(es, u, list, p - 1); }
    var es', list' := InUnlinked(es, e, prev) - {e}, Cut(list, p);
    forall k | 0 <= k < |list'| ensures InLink(es', u, list', k) {
      var i := if k < p then k else k + 1;
      assert list'[k] == list[i] && InLink(es, u, list, i);
    }
  }

  ghost predicate OutSame(es: Edges, es': Edges, x: nat) {
    x in es && x in es' && es'[x].from == es[x].from && es'[x].outNext == es[x].outNext && es'[x].outPrev == es[x].outPrev
  }

  ghost predicate InSame(es: Edges, es': Edges, x: nat) {
    x in es && x in es' && es'[x].to == es[x].to && es'[x].inLink == es[x].inLink
  }

  lemma OutFrame(es: Edges, es': Edges, u: nat, head: nat, list: seq<nat>)
    requires OutChain(es, u, head, list) && forall k | 0 <= k < |list| :: OutSame(es, es', list[k])
    ensures OutChain(es', u, head, list)
  {
    forall k | 0 <= k < |list| ensures OutLink(es', u, list, k) { assert OutLink(es, u, list, k); }
  }

  lemma InFrame(es: Edges, es': Edges, u: nat, head: nat, list: seq<nat>)
    requires InChain(es, u, head, list) && forall k | 0 <= k < |list| :: InSame(es, es', list[k])
    ensures InChain(es', u, head, list)
  {
    forall k | 0 <= k < |list| ensures InLink(es', u, list, k) { assert InLink(es, u, list, k); }
  }

  /** The neighbours on the lists are live, so that an edge can be unlinked. */
  ghost predicate Linked(vs: Vertices, es: Edges, e: nat, prev: nat) {
    && e in es && es[e].from in vs && es[e].to in vs && (prev != 0 ==> prev in es)
    && (es[e].outPrev != 0 ==> es[e].outPrev in es) && (es[e].outNext != 0 ==> es[e].outNext in es)
  }

  /** The edges once e is off both lists and destroyed. */
  function EdgesWithout(es: Edges, e: nat, prev: nat): Edges
    requires e in es && (prev != 0 ==> prev in es)
    requires (es[e].outPrev != 0 ==> es[e].outPrev in es) && (es[e].outNext != 0 ==> es[e].outNext in es)
  {
    InUnlinked(OutUnlinked(es, e), e, prev) - {e}
  }

  function OutHeaded(vs: Vertices, es: Edges, e: nat): Vertices
    requires e in es && es[e].from in vs
  {
    var u := es[e].from;
    vs[u := vs[u].(outEdges := Headed(vs[u].outEdges, es[e].outPrev, es[e].outNext))]
  }

  function InHeaded(vs: Vertices, es: Edges, e: nat, prev: nat): Vertices
    requires e in es && es[e].to in vs
  {
    var u := es[e].to;
    vs[u := vs[u].(inEdges := Headed(vs[u].inEdges, prev, es[e].inLink))]
  }

  function VerticesWithout(vs: Vertices, es: Edges, e: nat, prev: nat): Vertices
    requires e in es && es[e].from in vs && es[e].to in vs
  {
    InHeaded(OutHeaded(vs, es, e), es, e, prev)
  }

  /** e is entry p of its out list and entry q of its in list. */
  ghost predicate At(vs: Vertices, es: Edges, outs: Lists, ins: Lists, e: nat, p: nat, q: nat) {
    && e in es && es[e].from in vs && es[e].to in vs && outs.Keys == vs.Keys == ins.Keys
    && p < |outs[es[e].from]| && outs[es[e].from][p] == e && q < |ins[es[e].to]| && ins[es[e].to][q] == e
  }

  /** Unlinking e changes the out links of its own list only. */
  lemma {:induction false} OutUnlinkedFrame(vs: Vertices, es: Edges, outs: Lists, ins: Lists, e: nat, p: nat, q: nat, prev: nat, x: nat)
    requires Valid(vs, es, outs, ins) && At(vs, es, outs, ins, e, p, q) && Linked(vs, es, e, prev) && x in es && x != e
    ensures x in EdgesWithout(es, e, prev)
    ensures es[x].from != es[e].from ==> OutSame(es, EdgesWithout(es, e, prev), x)
    ensures OutSame(OutUnlinked(es, e) - {e}, EdgesWithout(es, e, prev), x)
    ensures InSame(es, OutUnlinked(es, e), x)
  {
    var u, list := es[e].from, outs[es[e].from];
    assert OutChain(es, u, vs[u].outEdges, list) && OutLink(es, u, list, p);
    if p > 0 { assert OutLink(es, u, list, p - 1); }
    if p + 1 < |list| { assert OutLink(es, u, list, p + 1); }
  }

  /** ... and the in links of its own list only. */
  lemma {:induction false} InUnlinkedFrame(vs: Vertices, es: Edges, outs: Lists, ins: Lists, e: nat, p: nat, q: nat, x: nat)
    requires Valid(vs, es, outs, ins) && At(vs, es, outs, ins, e, p, q) && Linked(vs, es, e, Nth(ins[es[e].to], q - 1)) && x in es && x != e
    ensures es[x].to != es[e].to ==> InSame(es, EdgesWithout(es, e, Nth(ins[es[e].to], q - 1)), x)
  {
    var u, list := es[e].to, ins[es[e].to];
    assert InChain(es, u, vs[u].inEdges, list) && InLink(es, u, list, q);
    if q > 0 { assert InLink(es, u, list, q - 1); }
  }

  lemma {:induction false} CanUnlink(vs: Vertices, es: Edges, outs: Lists, ins: Lists, e: nat, p: nat, q: nat)
    requires Valid(vs, es, outs, ins) && At(vs, es, outs, ins, e, p, q)
    ensures Linked(vs, es, e, Nth(ins[es[e].to], q - 1))
  {
    OutCut(es, es[e].from, vs[es[e].from].outEdges, outs[es[e].from], p);
    InCut(es, es[e].to, vs[es[e].to].inEdges, ins[es[e].to], q);
  }

  lemma {:induction false} OutListAfter(vs: Vertices, es: Edges, outs: Lists, ins: Lists, e: nat, p: nat, q: nat, u: nat)
    requires Valid(vs, es, outs, ins) && At(vs, es, outs, ins, e, p, q) && Linked(vs, es, e, Nth(ins[es[e].to], q - 1)) && u in vs
    ensures var prev := Nth(ins[es[e].to], q - 1);
            OutChain(EdgesWithout(es, e, prev), u, VerticesWithout(vs, es, e, prev)[u].outEdges, Keep(outs[u], {e}))
  {
    var prev := Nth(ins[es[e].to], q - 1);
    var es' := EdgesWithout(es, e, prev);
    assert OutChain(es, u, vs[u].outEdges, outs[u]);
    if u == es[e].from {
      OutCut(es, u, vs[u].outEdges, outs[u], p);
      KeepOne(outs[u], p);
      var list := Cut(outs[u], p);
      forall k | 0 <= k < |list| ensures OutSame(OutUnlinked(es, e) - {e}, es', list[k]) {
        assert OutLink(OutUnlinked(es, e) - {e}, u, list, k);
        OutUnlinkedFrame(vs, es, outs, ins, e, p, q, prev, list[k]);
      }
      OutFrame(OutUnlinked(es, e) - {e}, es', u, VerticesWithout(vs, es, e, prev)[u].outEdges, list);
    } else {
      forall k | 0 <= k < |outs[u]| ensures OutSame(es, es', outs[u][k]) && outs[u][k] != e {
        assert OutLink(es, u, outs[u], k);
        OutUnlinkedFrame(vs, es, outs, ins, e, p, q, prev, outs[u][k]);
      }
      KeepSame(outs[u], {e});
      OutFrame(es, es', u, vs[u].outEdges, outs[u]);
    }
  }

  lemma {:induction false} InListAfter(vs: Vertices, es: Edges, outs: Lists, ins: Lists, e: nat, p: nat, q: nat, u: nat)
    requires Valid(vs, es, outs, ins) && At(vs, es, outs, ins, e, p, q) && Linked(vs, es, e, Nth(ins[es[e].to], q - 1)) && u in vs
    ensures var prev := Nth(ins[es[e].to], q - 1);
            InChain(EdgesWithout(es, e, prev), u, VerticesWithout(vs, es, e, prev)[u].inEdges, Keep(ins[u], {e}))
  {
    var prev := Nth(ins[es[e].to], q - 1);
    var es' := EdgesWithout(es, e, prev);
    assert InChain(es, u, vs[u].inEdges, ins[u]);
    if u == es[e].to {
      forall k | 0 <= k < |ins[u]| ensures InSame(es, OutUnlinked(es, e), ins[u][k]) {
        assert InLink(es, u, ins[u], k);
        if ins[u][k] != e { OutUnlinkedFrame(vs, es, outs, ins, e, p, q, prev, ins[u][k]); }
      }
      InFrame(es, OutUnlinked(es, e), u, vs[u].inEdges, ins[u]);
      InCut(OutUnlinked(es, e), u, vs[u].inEdges, ins[u], q);
      KeepOne(ins[u], q);
    } else {
      forall k | 0 <= k < |ins[u]| ensures InSame(es, es', ins[u][k]) && ins[u][k] != e {
        assert InLink(es, u, ins[u], k);
        InUnlinkedFrame(vs, es, outs, ins, e, p, q, ins[u][k]);
      }
      KeepSame(ins[u], {e});
      InFrame(es, es', u, vs[u].inEdges, ins[u]);
    }
  }

  lemma {:induction false} KeepOccurs(list: seq<nat>, dead: set<nat>, x: nat)
    ensures Occurs(Keep(list, dead), x) <==> Occurs(list, x) && x !in dead
  {
    if |list| > 0 {
      KeepOccurs(list[1..], dead, x);
      OccursHead(list, x);
      if list[0] !in dead { OccursHead(Keep(list, dead), x); }
    }
  }

  lemma OccursHead(list: seq<nat>, x: nat)
    requires |list| > 0
    ensures Occurs(list, x) <==> list[0] == x || Occurs(list[1..], x)
  {
    if Occurs(list[1..], x) {
      var k :| 0 <= k < |list| - 1 && list[1..][k] == x;
      assert list[k + 1] == x;
    }
    if Occurs(list, x) && list[0] != x {
      var k :| 0 <= k < |list| && list[k] == x;
      assert list[1..][k - 1] == x;
    }
  }

  /** Same ends and arcs: all of an edge but its links. */
  ghost predicate SameEnds(es: Edges, es': Edges, x: nat) {
    x in es && x in es' && es'[x].from == es[x].from && es'[x].to == es[x].to && es'[x].arcs == es[x].arcs
  }

  lemma EndsKept(es: Edges, e: nat, prev: nat)
    requires e in es && (prev != 0 ==> prev in es)
    requires (es[e].outPrev != 0 ==> es[e].outPrev in es) && (es[e].outNext != 0 ==> es[e].outNext in es)
    ensures EdgesWithout(es, e, prev).Keys == es.Keys - {e}
    ensures forall x | x in EdgesWithout(es, e, prev) :: SameEnds(es, EdgesWithout(es, e, prev), x)
  {}

  lemma {:induction false} ListedAfter(vs: Vertices, es: Edges, outs: Lists, ins: Lists, vs': Vertices, es': Edges, dead: set<nat>, x: nat)
    requires outs.Keys == vs.Keys == ins.Keys && vs'.Keys == vs.Keys && x !in dead
    requires SameEnds(es, es', x) && Listed(vs, es, outs, ins, x)
    ensures Listed(vs', es', KeepAll(outs, dead), KeepAll(ins, dead), x)
  {
    KeepOccurs(outs[es[x].from], dead, x);
    KeepOccurs(ins[es[x].to], dead, x);
  }

  /** Unlinking and destroying one edge leaves every list valid, without that edge. */
  lemma {:induction false} EdgeRemoved(vs: Vertices, es: Edges, outs: Lists, ins: Lists, e: nat, p: nat, q: nat)
    requires Valid(vs, es, outs, ins) && At(vs, es, outs, ins, e, p, q) && Linked(vs, es, e, Nth(ins[es[e].to], q - 1))
    ensures var prev := Nth(ins[es[e].to], q - 1);
            Valid(VerticesWithout(vs, es, e, prev), EdgesWithout(es, e, prev), KeepAll(outs, {e}), KeepAll(ins, {e}))
            && EdgesWithout(es, e, prev).Keys == es.Keys - {e}
  {
    hide EdgesWithout, OutChain, InChain, OutLink, InLink, SameEnds;
    var prev := Nth(ins[es[e].to], q - 1);
    EndsKept(es, e, prev);
    var vs', es', outs', ins' := VerticesWithout(vs, es, e, prev), EdgesWithout(es, e, prev), KeepAll(outs, {e}), KeepAll(ins, {e});
    assert Chained(vs', es', outs', ins') by {
      forall u | u in vs' ensures OutChain(es', u, vs'[u].outEdges, outs'[u]) && InChain(es', u, vs'[u].inEdges, ins'[u]) {
        OutListAfter(vs, es, outs, ins, e, p, q, u);
        InListAfter(vs, es, outs, ins, e, p, q, u);
      }
    }
    forall x | x in es' ensures Listed(vs', es', outs', ins', x) {
      assert SameEnds(es, es', x) && Listed(vs, es, outs, ins, x);
      ListedAfter(vs, es, outs, ins, vs', es', {e}, x);
    }
  }

  // ---- deleting a vertex's edges -------------------------------------------------------------

  /** While the in list of v is being emptied the head field lags: e is what it should be. */
  function InLag(vs: Vertices, v: nat, e: nat): Vertices
    requires v in vs
  {
    vs[v := vs[v].(inEdges := e)]
  }

  /** One edge into v taken off the out list of its source and destroyed. */
  lemma {:induction false} InStep(vs: Vertices, es: Edges, outs: Lists, ins: Lists, v: nat, e: nat)
    requires v in vs && e != 0 && Valid(InLag(vs, v, e), es, outs, ins)
    ensures e in es && es[e].to == v && Linked(vs, es, e, 0)
    ensures Valid(InLag(OutHeaded(vs, es, e), v, es[e].inLink), OutUnlinked(es, e) - {e}, KeepAll(outs, {e}), KeepAll(ins, {e}))
    ensures (OutUnlinked(es, e) - {e}).Keys == es.Keys - {e}
    ensures forall x | x in OutUnlinked(es, e) - {e} :: SameEnds(es, OutUnlinked(es, e) - {e}, x)
  {
    var vs1 := InLag(vs, v, e);
    HeadLive(vs1, es, outs, ins, v);
    assert Listed(vs1, es, outs, ins, e);
    var p :| 0 <= p < |outs[es[e].from]| && outs[es[e].from][p] == e;
    hide Valid;
    CanUnlink(vs1, es, outs, ins, e, p, 0);
    EdgeRemoved(vs1, es, outs, ins, e, p, 0);
    EndsKept(es, e, 0);
    InStepVertices(vs, es, v, e);
  }

  lemma InStepVertices(vs: Vertices, es: Edges, v: nat, e: nat)
    requires v in vs && e in es && es[e].to == v && es[e].from in vs
    ensures VerticesWithout(InLag(vs, v, e), es, e, 0) == InLag(OutHeaded(vs, es, e), v, es[e].inLink)
  {}

  /** While the out list of v is being emptied the head field and the new head's out prev lag. */
  function OutLag(vs: Vertices, v: nat, e: nat): Vertices { vs[v := Vertex(0, e)] }

  function PrevLag(es: Edges, e: nat): Edges { if e in es then es[e := es[e].(outPrev := 0)] else es }

  lemma {:induction false} OutStepLive(vs: Vertices, es: Edges, outs: Lists, ins: Lists, v: nat, e: nat) returns (q: nat)
    requires v in vs && e != 0 && Valid(OutLag(vs, v, e), PrevLag(es, e), outs, ins)
    ensures e in es && es[e].from == v && es[e].to != v && es[e].to in vs
    ensures es[e].to in ins && q < |ins[es[e].to]| && ins[es[e].to][q] == e && InChain(es, es[e].to, vs[es[e].to].inEdges, ins[es[e].to])
    ensures At(OutLag(vs, v, e), PrevLag(es, e), outs, ins, e, 0, q)
  {
    var vs1, es1 := OutLag(vs, v, e), PrevLag(es, e);
    HeadLive(vs1, es1, outs, ins, v);
    assert Listed(vs1, es1, outs, ins, e);
    var u := es[e].to;
    q :| 0 <= q < |ins[u]| && ins[u][q] == e;
    HeadLive(vs1, es1, outs, ins, u);
    assert InChain(es1, u, vs1[u].inEdges, ins[u]);
    forall k | 0 <= k < |ins[u]| ensures InSame(es1, es, ins[u][k]) { assert InLink(es1, u, ins[u], k); }
    InFrame(es1, es, u, vs1[u].inEdges, ins[u]);
  }

  /** One edge out of v taken off the in list of its target and destroyed. */
  lemma {:induction false} OutStep(vs: Vertices, es: Edges, outs: Lists, ins: Lists, v: nat, e: nat, q: nat)
    requires v in vs && e in es && e != 0 && es[e].from == v && es[e].to != v && es[e].to in vs && 0 !in es
    requires Valid(OutLag(vs, v, e), PrevLag(es, e), outs, ins) && At(OutLag(vs, v, e), PrevLag(es, e), outs, ins, e, 0, q)
    requires Nth(ins[es[e].to], q - 1) != 0 ==> Nth(ins[es[e].to], q - 1) in es
    ensures var prev := Nth(ins[es[e].to], q - 1); var es' := InUnlinked(es, e, prev) - {e};
            Valid(OutLag(InHeaded(vs, es, e, prev), v, es[e].outNext), PrevLag(es', es[e].outNext), KeepAll(outs, {e}), KeepAll(ins, {e}))
  {
    var vs1, es1, prev := OutLag(vs, v, e), PrevLag(es, e), Nth(ins[es[e].to], q - 1);
    CanUnlink(vs1, es1, outs, ins, e, 0, q);
    EdgeRemoved(vs1, es1, outs, ins, e, 0, q);
    assert es1[e].outNext == es[e].outNext && es1[e].outPrev == 0;
    hide Valid, At;
    OutStepVertices(vs, es, v, e, prev);
    OutStepEdges(es, e, prev);
  }

  lemma OutStepVertices(vs: Vertices, es: Edges, v: nat, e: nat, prev: nat)
    requires v in vs && e in es && es[e].from == v && es[e].to != v && es[e].to in vs
    ensures VerticesWithout(OutLag(vs, v, e), PrevLag(es, e), e, prev) == OutLag(InHeaded(vs, es, e, prev), v, es[e].outNext)
  {}

  lemma OutStepEdges(es: Edges, e: nat, prev: nat)
    requires e in es && 0 !in es && (es[e].outNext != 0 ==> es[e].outNext in es) && (prev != 0 ==> prev in es)
    ensures EdgesWithout(PrevLag(es, e), e, prev) == PrevLag(InUnlinked(es, e, prev) - {e}, es[e].outNext)
  {}

  // ---- creation ------------------------------------------------------------------------------

  /** The edges once a new edge heads the lists of its ends. */
  function EdgesWith(vs: Vertices, es: Edges, id: nat, from: nat, to: nat, arcs: nat): Edges
    requires from in vs && to in vs && (vs[from].outEdges != 0 ==> vs[from].outEdges in es)
  {
    var next := vs[from].outEdges;
    var es1 := es[id := Edge(from, to, arcs, vs[to].inEdges, next, 0)];
    if next != 0 then es1[next := es1[next].(outPrev := id)] else es1
  }

  function VerticesWith(vs: Vertices, id: nat, from: nat, to: nat): Vertices
    requires from in vs && to in vs
  {
    var vs1 := vs[from := vs[from].(outEdges := id)];
    vs1[to := vs1[to].(inEdges := id)]
  }

  lemma HeadLive(vs: Vertices, es: Edges, outs: Lists, ins: Lists, u: nat)
    requires Valid(vs, es, outs, ins) && u in vs
    ensures vs[u].outEdges != 0 ==> |outs[u]| > 0 && outs[u][0] == vs[u].outEdges && vs[u].outEdges in es && es[vs[u].outEdges].from == u
    ensures vs[u].inEdges != 0 ==> |ins[u]| > 0 && ins[u][0] == vs[u].inEdges && vs[u].inEdges in es && es[vs[u].inEdges].to == u
    ensures (vs[u].outEdges == 0 <==> outs[u] == []) && (vs[u].inEdges == 0 <==> ins[u] == [])
  {
    assert OutChain(es, u, vs[u].outEdges, outs[u]) && InChain(es, u, vs[u].inEdges, ins[u]);
    if |outs[u]| > 0 { assert OutLink(es, u, outs[u], 0); }
    if |ins[u]| > 0 { assert InLink(es, u, ins[u], 0); }
  }

  ghost predicate Fresh(vs: Vertices, es: Edges, id: nat, from: nat, to: nat) { id != 0 && id !in es && from in vs && to in vs }

  /** What linking the new edge in changes: only the out prev of the old head. */
  ghost predicate Pushed(vs: Vertices, es: Edges, es': Edges, id: nat, from: nat, to: nat, arcs: nat)
    requires from in vs && to in vs
  {
    && es'.Keys == es.Keys + {id} && es'[id] == Edge(from, to, arcs, vs[to].inEdges, vs[from].outEdges, 0)
    && (forall x | x in es :: InSame(es, es', x) && SameEnds(es, es', x) && es'[x].outNext == es[x].outNext)
    && (forall x | x in es :: es'[x].outPrev == if x == vs[from].outEdges then id else es[x].outPrev)
  }

  lemma EdgesWithPushed(vs: Vertices, es: Edges, id: nat, from: nat, to: nat, arcs: nat)
    requires Fresh(vs, es, id, from, to) && 0 !in es && (vs[from].outEdges != 0 ==> vs[from].outEdges in es)
    ensures Pushed(vs, es, EdgesWith(vs, es, id, from, to, arcs), id, from, to, arcs)
  {}

  lemma PushDistinct(list: seq<nat>, x: nat)
    requires Distinct(list) && forall k | 0 <= k < |list| :: list[k] != x
    ensures Distinct([x] + list)
  {}

  lemma {:induction false} OutPush(es: Edges, es': Edges, u: nat, head: nat, list: seq<nat>, id: nat)
    requires 0 !in es && OutChain(es, u, head, list) && id !in es && id in es'
    requires es'[id].from == u && es'[id].outNext == head && es'[id].outPrev == 0
    requires forall x | x in es :: x in es' && es'[x].from == es[x].from && es'[x].outNext == es[x].outNext && es'[x].outPrev == if x == head then id else es[x].outPrev
    ensures OutChain(es', u, id, [id] + list)
  {
    forall k | 0 <= k < |list| ensures OutLink(es, u, list, k) && list[k] in es && list[k] != id {}
    PushDistinct(list, id);
    var list' := [id] + list;
    forall k | 0 <= k < |list'| ensures OutLink(es', u, list', k) {
      if k > 0 {
        assert list'[k] == list[k - 1] && OutLink(es, u, list, k - 1) && (k > 1 ==> list[k - 1] != list[0]);
      }
    }
  }

  lemma {:induction false} InPush(es: Edges, es': Edges, u: nat, head: nat, list: seq<nat>, id: nat)
    requires 0 !in es && InChain(es, u, head, list) && id !in es && id in es' && es'[id].to == u && es'[id].inLink == head
    requires forall x | x in es :: InSame(es, es', x)
    ensures InChain(es', u, id, [id] + list)
  {
    forall k | 0 <= k < |list| ensures InLink(es, u, list, k) && list[k] in es && list[k] != id {}
    PushDistinct(list, id);
    var list' := [id] + list;
    forall k | 0 <= k < |list'| ensures InLink(es', u, list', k) {
      if k > 0 { assert list'[k] == list[k - 1] && InLink(es, u, list, k - 1); }
    }
  }

  lemma {:induction false} OutListWith(vs: Vertices, es: Edges, outs: Lists, ins: Lists, es': Edges, id: nat, from: nat, to: nat, arcs: nat, u: nat)
    requires Valid(vs, es, outs, ins) && Fresh(vs, es, id, from, to) && u in vs && Pushed(vs, es, es', id, from, to, arcs)
    ensures OutChain(es', u, if u == from then id else vs[u].outEdges, if u == from then [id] + outs[u] else outs[u])
  {
    assert OutChain(es, u, vs[u].outEdges, outs[u]);
    HeadLive(vs, es, outs, ins, from);
    hide InSame;
    assert forall x | x in es :: SameEnds(es, es', x);
    if u == from {
      hide OutChain;
      OutPush(es, es', u, vs[u].outEdges, outs[u], id);
    } else {
      forall k | 0 <= k < |outs[u]| ensures OutSame(es, es', outs[u][k]) { assert OutLink(es, u, outs[u], k); }
      hide OutChain;
      OutFrame(es, es', u, vs[u].outEdges, outs[u]);
    }
  }

  lemma {:induction false} InListWith(vs: Vertices, es: Edges, outs: Lists, ins: Lists, es': Edges, id: nat, from: nat, to: nat, arcs: nat, u: nat)
    requires Valid(vs, es, outs, ins) && Fresh(vs, es, id, from, to) && u in vs && Pushed(vs, es, es', id, from, to, arcs)
    ensures InChain(es', u, if u == to then id else vs[u].inEdges, if u == to then [id] + ins[u] else ins[u])
  {
    assert InChain(es, u, vs[u].inEdges, ins[u]);
    hide InSame, SameEnds;
    if u == to {
      hide InChain;
      InPush(es, es', u, vs[u].inEdges, ins[u], id);
    } else {
      forall k | 0 <= k < |ins[u]| ensures InSame(es, es', ins[u][k]) { assert InLink(es, u, ins[u], k); }
      hide InChain;
      InFrame(es, es', u, vs[u].inEdges, ins[u]);
    }
  }

  lemma {:induction false} ChainedWith(vs: Vertices, es: Edges, outs: Lists, ins: Lists, es': Edges, id: nat, from: nat, to: nat, arcs: nat)
    requires Valid(vs, es, outs, ins) && Fresh(vs, es, id, from, to) && Pushed(vs, es, es', id, from, to, arcs)
    ensures Chained(VerticesWith(vs, id, from, to), es', outs[from := [id] + outs[from]], ins[to := [id] + ins[to]])
  {
    var vs', outs', ins' := VerticesWith(vs, id, from, to), outs[from := [id] + outs[from]], ins[to := [id] + ins[to]];
    hide OutChain, InChain, Listed, Pushed;
    forall u | u in vs' ensures OutChain(es', u, vs'[u].outEdges, outs'[u]) && InChain(es', u, vs'[u].inEdges, ins'[u]) {
      OutListWith(vs, es, outs, ins, es', id, from, to, arcs, u);
      InListWith(vs, es, outs, ins, es', id, from, to, arcs, u);
    }
  }

  /** A new edge heads both lists; nothing else moves. */
  lemma {:induction false} EdgeAdded(vs: Vertices, es: Edges, outs: Lists, ins: Lists, id: nat, from: nat, to: nat, arcs: nat)
    requires Valid(vs, es, outs, ins) && Fresh(vs, es, id, from, to)
    ensures (vs[from].outEdges != 0 ==> vs[from].outEdges in es)
    ensures Valid(VerticesWith(vs, id, from, to), EdgesWith(vs, es, id, from, to, arcs), outs[from := [id] + outs[from]], ins[to := [id] + ins[to]])
    ensures Pushed(vs, es, EdgesWith(vs, es, id, from, to, arcs), id, from, to, arcs)
  {
    HeadLive(vs, es, outs, ins, from);
    EdgesWithPushed(vs, es, id, from, to, arcs);
    var vs', es', outs', ins' := VerticesWith(vs, id, from, to), EdgesWith(vs, es, id, from, to, arcs), outs[from := [id] + outs[from]], ins[to := [id] + ins[to]];
    PushedKeys(vs, es, es', id, from, to, arcs);
    ChainedWith(vs, es, outs, ins, es', id, from, to, arcs);
    assert outs.Keys == vs.Keys == ins.Keys == vs'.Keys;
    hide EdgesWith, OutChain, InChain, Listed, Pushed, VerticesWith;
    forall x | x in es' ensures Listed(vs', es', outs', ins', x) {
      if x != id { assert Listed(vs, es, outs, ins, x); }
      ListedWith(vs, es, outs, ins, vs', es', id, from, to, arcs, x);
    }
  }

  lemma PushedKeys(vs: Vertices, es: Edges, es': Edges, id: nat, from: nat, to: nat, arcs: nat)
    requires from in vs && to in vs && Pushed(vs, es, es', id, from, to, arcs)
    ensures es'.Keys == es.Keys + {id}
  {}

  lemma {:induction false} ListedWith(vs: Vertices, es: Edges, outs: Lists, ins: Lists, vs': Vertices, es': Edges, id: nat, from: nat, to: nat, arcs: nat, x: nat)
    requires outs.Keys == vs.Keys == ins.Keys && vs'.Keys == vs.Keys && from in vs && to in vs && x in es'
    requires Pushed(vs, es, es', id, from, to, arcs) && (x != id ==> x in es && Listed(vs, es, outs, ins, x))
    ensures Listed(vs', es', outs[from := [id] + outs[from]], ins[to := [id] + ins[to]], x)
  {
    OccursHead([id] + outs[from], x);
    OccursHead([id] + ins[to], x);
    if x != id { assert SameEnds(es, es', x); }
  }

  lemma {:induction false} VertexAdded(vs: Vertices, es: Edges, outs: Lists, ins: Lists, v: nat)
    requires Valid(vs, es, outs, ins) && v != 0 && v !in vs
    ensures Valid(vs[v := Vertex(0, 0)], es, outs[v := []], ins[v := []])
  {
    var vs', outs', ins' := vs[v := Vertex(0, 0)], outs[v := []], ins[v := []];
    forall e | e in es ensures Listed(vs', es, outs', ins', e) { assert Listed(vs, es, outs, ins, e); }
  }

  lemma {:induction false} VertexDropped(vs: Vertices, es: Edges, outs: Lists, ins: Lists, v: nat)
    requires Valid(vs, es, outs, ins) && v in vs && outs[v] == [] && ins[v] == []
    ensures Valid(vs - {v}, es, outs - {v}, ins - {v})
    ensures forall e | e in es :: es[e].from != v && es[e].to != v
  {
    forall e | e in es ensures Listed(vs - {v}, es, outs - {v}, ins - {v}, e) && es[e].from != v && es[e].to != v {
      assert Listed(vs, es, outs, ins, e);
    }
  }

  // ---- what the links mean -------------------------------------------------------------------

  /** Out prev and out next are inverse. */
  lemma {:induction false} PrevNextInverse(vs: Vertices, es: Edges, outs: Lists, ins: Lists, e: nat)
    requires Valid(vs, es, outs, ins) && e in es
    ensures es[e].outNext != 0 ==> es[e].outNext in es && es[es[e].outNext].outPrev == e
    ensures es[e].outPrev != 0 ==> es[e].outPrev in es && es[es[e].outPrev].outNext == e
  {
    assert Listed(vs, es, outs, ins, e);
    var u, list := es[e].from, outs[es[e].from];
    var p :| 0 <= p < |list| && list[p] == e;
    assert OutChain(es, u, vs[u].outEdges, list) && OutLink(es, u, list, p);
    if p > 0 { assert OutLink(es, u, list, p - 1); }
    if p + 1 < |list| { assert OutLink(es, u, list, p + 1); }
  }

  /** The lists are what the links spell and nothing else: two readings of the same links agree. */
  lemma {:induction false} ChainUnique(es: Edges, u: nat, head: nat, a: seq<nat>, b: seq<nat>)
    requires 0 !in es && OutChain(es, u, head, a) && OutChain(es, u, head, b)
    ensures a == b
  {
    var m := if |a| < |b| then |a| else |b|;
    forall k | 0 <= k < |a| ensures a[k] in es { assert OutLink(es, u, a, k); }
    forall k | 0 <= k < |b| ensures b[k] in es { assert OutLink(es, u, b, k); }
    var k := 0;
    while k < m
      invariant 0 <= k <= m && Nth(a, k) == Nth(b, k) && a[..k] == b[..k]
    {
      assert OutLink(es, u, a, k) && OutLink(es, u, b, k);
      k := k + 1;
    }
  }

  /** An edge is on an out list exactly when it leaves that vertex, and on an in list exactly when it enters it. */
  lemma {:induction false} OnListIff(vs: Vertices, es: Edges, outs: Lists, ins: Lists, u: nat, e: nat)
    requires Valid(vs, es, outs, ins) && u in vs
    ensures Occurs(outs[u], e) <==> e in es && es[e].from == u
    ensures Occurs(ins[u], e) <==> e in es && es[e].to == u
  {
    assert OutChain(es, u, vs[u].outEdges, outs[u]) && InChain(es, u, vs[u].inEdges, ins[u]);
    if e in es { assert Listed(vs, es, outs, ins, e); }
    if Occurs(outs[u], e) {
      var k :| 0 <= k < |outs[u]| && outs[u][k] == e;
      assert OutLink(es, u, outs[u], k);
    }
    if Occurs(ins[u], e) {
      var k :| 0 <= k < |ins[u]| && ins[u][k] == e;
      assert InLink(es, u, ins[u], k);
    }
  }

  // ---- arcs ----------------------------------------------------------------------------------

  /** The arcs of a set of edges. */
  ghost function ArcTotal(es: Edges, s: set<nat>): nat
    requires s <= es.Keys
  {
    if s == {} then 0
    else
      var x :| x in s;
      es[x].arcs + ArcTotal(es, s - {x})
  }

  lemma {:induction false} ArcTotalLess(es: Edges, s: set<nat>, x: nat)
    requires s <= es.Keys && x in s
    ensures ArcTotal(es, s) == es[x].arcs + ArcTotal(es, s - {x})
  {
    var y :| y in s && ArcTotal(es, s) == es[y].arcs + ArcTotal(es, s - {y});
    if y != x {
      ArcTotalLess(es, s - {y}, x);
      ArcTotalLess(es, s - {x}, y);
      assert s - {y} - {x} == s - {x} - {y};
    }
  }

  lemma {:induction false} ArcTotalSame(es: Edges, es': Edges, s: set<nat>)
    requires s <= es.Keys && s <= es'.Keys && forall x | x in s :: SameEnds(es, es', x)
    ensures ArcTotal(es, s) == ArcTotal(es', s)
  {
    if s != {} {
      var x :| x in s;
      ArcTotalLess(es, s, x);
      ArcTotalLess(es', s, x);
      ArcTotalSame(es, es', s - {x});
    }
  }
}
