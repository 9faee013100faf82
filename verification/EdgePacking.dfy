/** Packing a resistor list into one edge list per point: count, lay out, fill. */
module EdgePacking {
  import opened RcGraph

  predicate At(end: (nat, nat), p: nat) { end.0 == p || end.1 == p }

  /** The resistors among the first m that touch p, in order, a self-loop once. */
  ghost function Incident(ends: seq<(nat, nat)>, m: nat, p: nat): (s: seq<nat>)
    requires m <= |ends|
    ensures |s| <= m
  {
    if m == 0 then [] else Incident(ends, m - 1, p) + if At(ends[m - 1], p) then [m - 1] else []
  }

  lemma {:induction false} IncidentEntry(ends: seq<(nat, nat)>, m: nat, p: nat, k: nat)
    requires m <= |ends| && k < |Incident(ends, m, p)|
    ensures Incident(ends, m, p)[k] < m && At(ends[Incident(ends, m, p)[k]], p)
    ensures k > 0 ==> Incident(ends, m, p)[k - 1] < Incident(ends, m, p)[k]
  {
    if k < |Incident(ends, m - 1, p)| {
      IncidentEntry(ends, m - 1, p, k);
    } else if k > 0 {
      IncidentEntry(ends, m - 1, p, k - 1);
    }
  }

  lemma {:induction false} IncidentRises(ends: seq<(nat, nat)>, m: nat, p: nat, k: nat, l: nat)
    requires m <= |ends| && k < l < |Incident(ends, m, p)|
    ensures Incident(ends, m, p)[k] < Incident(ends, m, p)[l]
    decreases l
  {
    IncidentEntry(ends, m, p, l);
    if k < l - 1 { IncidentRises(ends, m, p, k, l - 1); }
  }

  lemma {:induction false} IncidentAll(ends: seq<(nat, nat)>, m: nat, p: nat, e: nat)
    requires m <= |ends| && e < m && At(ends[e], p)
    ensures e in Incident(ends, m, p)
  {
    if e < m - 1 {
      IncidentAll(ends, m - 1, p, e);
    } else {
      assert Incident(ends, m, p)[|Incident(ends, m, p)| - 1] == e;
    }
  }

  lemma {:induction false} IncidentGrows(ends: seq<(nat, nat)>, l: nat, m: nat, p: nat)
    requires l <= m <= |ends|
    ensures |Incident(ends, l, p)| <= |Incident(ends, m, p)|
    decreases m - l
  {
    if l < m { IncidentGrows(ends, l, m - 1, p); }
  }

  /** The graph of a resistor list. */
  ghost function GraphOf(n: nat, ends: seq<(nat, nat)>): Graph {
    Graph(n, ends, seq(n, p requires p >= 0 => Incident(ends, |ends|, p)))
  }

  lemma {:induction false} GraphOfValid(n: nat, ends: seq<(nat, nat)>)
    requires forall e | 0 <= e < |ends| :: ends[e].0 < n && ends[e].1 < n
    ensures GraphOf(n, ends).Valid()
  {
    var g := GraphOf(n, ends);
    forall p | 0 <= p < n ensures g.Listed(p) {
      assert g.adj[p] == Incident(ends, |ends|, p);
      forall k | 0 <= k < |g.adj[p]| ensures g.adj[p][k] < |ends| && g.Touches(g.adj[p][k], p) {
        IncidentEntry(ends, |ends|, p, k);
      }
      forall e | 0 <= e < |ends| && g.Touches(e, p) ensures e in g.adj[p] { IncidentAll(ends, |ends|, p, e); }
      forall k, l | 0 <= k < l < |g.adj[p]| ensures g.adj[p][k] != g.adj[p][l] { IncidentRises(ends, |ends|, p, k, l); }
    }
  }

  /** Where p's list begins when the lists of all points are laid end to end. */
  ghost function Base(ends: seq<(nat, nat)>, m: nat, p: nat): nat
    requires m <= |ends|
  {
    if p == 0 then 0 else Base(ends, m, p - 1) + |Incident(ends, m, p - 1)|
  }

  /** A resistor adds one entry for each distinct point it touches: two at most. */
  lemma {:induction false} BaseStep(ends: seq<(nat, nat)>, m: nat, p: nat)
    requires 0 < m <= |ends|
    ensures Base(ends, m, p) == Base(ends, m - 1, p)
            + (if ends[m - 1].0 < p then 1 else 0)
            + (if ends[m - 1].1 < p && ends[m - 1].1 != ends[m - 1].0 then 1 else 0)
  {
    if p > 0 { BaseStep(ends, m, p - 1); }
  }

  lemma {:induction false} BaseBound(ends: seq<(nat, nat)>, m: nat, p: nat)
    requires m <= |ends|
    ensures Base(ends, m, p) <= 2 * m
  {
    if m == 0 {
      if p > 0 { BaseBound(ends, m, p - 1); }
    } else {
      BaseStep(ends, m, p);
      BaseBound(ends, m - 1, p);
    }
  }

  lemma {:induction false} BaseOrder(ends: seq<(nat, nat)>, m: nat, p: nat, q: nat)
    requires m <= |ends| && p < q
    ensures Base(ends, m, p) + |Incident(ends, m, p)| <= Base(ends, m, q)
  {
    if p < q - 1 { BaseOrder(ends, m, p, q - 1); }
  }

  /** Disjoint parts of an array of the given size: part p starts at starts[p] and has room for caps[p]. */
  ghost predicate Slots(starts: seq<nat>, caps: seq<nat>, size: nat) {
    && |starts| == |caps|
    && (forall p | 0 <= p < |starts| :: starts[p] + caps[p] <= size)
    && (forall p, q | 0 <= p < q < |starts| :: starts[p] + caps[p] <= starts[q])
  }

  /** Part p holds lists[p]. */
  ghost predicate Holds(eV: seq<nat>, starts: seq<nat>, caps: seq<nat>, eN: seq<nat>, lists: seq<seq<nat>>) {
    && Slots(starts, caps, |eV|) && |eN| == |lists| == |starts|
    && forall p | 0 <= p < |starts| :: Part(eV, starts, caps, eN, lists, p)
  }

  ghost predicate Part(eV: seq<nat>, starts: seq<nat>, caps: seq<nat>, eN: seq<nat>, lists: seq<seq<nat>>, p: nat)
    requires Slots(starts, caps, |eV|) && |eN| == |lists| == |starts| && p < |starts|
  {
    eN[p] == |lists[p]| <= caps[p] && eV[starts[p]..starts[p] + |lists[p]|] == lists[p]
  }

  /** The parts laid out for the resistor lists fit the array. */
  ghost function Starts(n: nat, ends: seq<(nat, nat)>): seq<nat> { seq(n, p requires p >= 0 => Base(ends, |ends|, p)) }
  ghost function Caps(n: nat, ends: seq<(nat, nat)>): seq<nat> { seq(n, p requires p >= 0 => |Incident(ends, |ends|, p)|) }
  ghost function Lists(n: nat, ends: seq<(nat, nat)>, m: nat): seq<seq<nat>>
    requires m <= |ends|
  {
    seq(n, p requires p >= 0 => Incident(ends, m, p))
  }

  lemma {:induction false} PartsFit(n: nat, ends: seq<(nat, nat)>)
    ensures Slots(Starts(n, ends), Caps(n, ends), 2 * |ends|)
  {
    forall p | 0 <= p < n ensures Base(ends, |ends|, p) + |Incident(ends, |ends|, p)| <= 2 * |ends| {
      BaseBound(ends, |ends|, p + 1);
    }
    forall p, q | 0 <= p < q < n ensures Base(ends, |ends|, p) + |Incident(ends, |ends|, p)| <= Base(ends, |ends|, q) {
      BaseOrder(ends, |ends|, p, q);
    }
  }

  /** Adding a number to one list disturbs no other. */
  lemma {:induction false} WriteKeeps(eV: seq<nat>, starts: seq<nat>, caps: seq<nat>, eN: seq<nat>, lists: seq<seq<nat>>, p: nat, m: nat)
    requires Holds(eV, starts, caps, eN, lists) && p < |starts| && |lists[p]| < caps[p]
    ensures starts[p] + eN[p] < |eV|
    ensures Holds(eV[starts[p] + eN[p] := m], starts, caps, eN[p := eN[p] + 1], lists[p := lists[p] + [m]])
  {
    assert Part(eV, starts, caps, eN, lists, p);
    var k := starts[p] + eN[p];
    var eV', eN', lists' := eV[k := m], eN[p := eN[p] + 1], lists[p := lists[p] + [m]];
    forall q | 0 <= q < |starts| ensures Part(eV', starts, caps, eN', lists', q) {
      assert Part(eV, starts, caps, eN, lists, q);
      if q == p {
        assert eV'[starts[p]..k + 1] == eV[starts[p]..k] + [m];
      } else {
        assert k < starts[q] || starts[q] + caps[q] <= k;
        assert eV'[starts[q]..starts[q] + |lists[q]|] == eV[starts[q]..starts[q] + |lists[q]|];
      }
    }
  }

  /** First pass: how many resistors each point has. */
  method Count(n: nat, ends: seq<(nat, nat)>, eN: array<nat>)
    requires eN.Length == n && forall e | 0 <= e < |ends| :: ends[e].0 < n && ends[e].1 < n
    modifies eN
    ensures eN[..] == Caps(n, ends)
  {
    var p := 0;
    while p < n
      invariant 0 <= p <= n && forall q | 0 <= q < p :: eN[q] == 0
    {
      eN[p] := 0;
      p := p + 1;
    }
    var e := 0;
    while e < |ends|
      invariant 0 <= e <= |ends| && forall p | 0 <= p < n :: eN[p] == |Incident(ends, e, p)|
    {
      var (a, b) := ends[e];
      eN[a] := eN[a] + 1;
      if a != b { eN[b] := eN[b] + 1; }
      e := e + 1;
    }
  }

  /** Second pass: lay the lists end to end and reset the counts. */
  method Layout(n: nat, ends: seq<(nat, nat)>, base: array<nat>, eN: array<nat>)
    requires eN.Length == base.Length == n && eN != base
    requires eN[..] == Caps(n, ends)
    modifies eN, base
    ensures base[..] == Starts(n, ends) && forall p | 0 <= p < n :: eN[p] == 0
  {
    ghost var caps, st := eN[..], Starts(n, ends);
    assert forall q | 0 <= q < n :: st[q] == if q == 0 then 0 else st[q - 1] + caps[q - 1];
    hide Base, Incident, Starts, Caps;
    var next := 0;
    var p := 0;
    while p < n
      invariant 0 <= p <= n && next == if p == 0 then 0 else st[p - 1] + caps[p - 1]
      invariant forall q | 0 <= q < p :: base[q] == st[q]
      invariant forall q | 0 <= q < n :: eN[q] == if q < p then 0 else caps[q]
    {
      base[p] := next;
      next := next + eN[p];
      eN[p] := 0;
      p := p + 1;
    }
  }

  /** Append resistor m to the list of p. */
  method Append(m: nat, p: nat, base: array<nat>, eN: array<nat>, eV: array<nat>, ghost caps: seq<nat>, ghost lists: seq<seq<nat>>)
    requires base != eN && base != eV && eN != eV
    requires Holds(eV[..], base[..], caps, eN[..], lists) && p < base.Length && |lists[p]| < caps[p]
    modifies eN, eV
    ensures Holds(eV[..], base[..], caps, eN[..], lists[p := lists[p] + [m]])
  {
    WriteKeeps(eV[..], base[..], caps, eN[..], lists, p, m);
    hide Holds;
    ghost var v, c := eV[..], eN[..];
    eV[base[p] + eN[p]] := m;
    eN[p] := eN[p] + 1;
    assert eV[..] == v[base[p] + c[p] := m] && eN[..] == c[p := c[p] + 1];
  }

  /** Enter resistor e in the lists of its one or two points. */
  method Place(n: nat, ends: seq<(nat, nat)>, e: nat, base: array<nat>, eN: array<nat>, eV: array<nat>)
    requires e < |ends| && ends[e].0 < n && ends[e].1 < n
    requires base.Length == n && base != eN && base != eV && eN != eV
    requires Holds(eV[..], base[..], Caps(n, ends), eN[..], Lists(n, ends, e))
    modifies eN, eV
    ensures Holds(eV[..], base[..], Caps(n, ends), eN[..], Lists(n, ends, e + 1))
  {
    var (a, b) := ends[e];
    ghost var lists, lists' := Lists(n, ends, e), Lists(n, ends, e + 1);
    IncidentGrows(ends, e + 1, |ends|, a);
    IncidentGrows(ends, e + 1, |ends|, b);
    assert forall q | 0 <= q < n :: lists'[q] == if At(ends[e], q) then lists[q] + [e] else lists[q];
    hide Holds;
    ghost var one := lists[a := lists[a] + [e]];
    Append(e, a, base, eN, eV, Caps(n, ends), lists);
    if a != b {
      Append(e, b, base, eN, eV, Caps(n, ends), one);
      assert lists' == one[b := one[b] + [e]];
    } else {
      assert lists' == one;
    }
  }

  lemma {:induction false} PackStart(n: nat, ends: seq<(nat, nat)>, starts: seq<nat>, eN: seq<nat>, eV: seq<nat>)
    requires starts == Starts(n, ends) && |eN| == n && |eV| == 2 * |ends| && forall p | 0 <= p < n :: eN[p] == 0
    ensures Holds(eV, starts, Caps(n, ends), eN, Lists(n, ends, 0))
  {
    PartsFit(n, ends);
  }

  /** Pack the resistor list: each point's part of eV is the list of its resistors, in resistor order. */
  method Pack(n: nat, ends: seq<(nat, nat)>) returns (base: array<nat>, eN: array<nat>, eV: array<nat>)
    requires forall e | 0 <= e < |ends| :: ends[e].0 < n && ends[e].1 < n
    ensures base.Length == eN.Length == n && eV.Length == 2 * |ends|
    ensures Holds(eV[..], base[..], Caps(n, ends), eN[..], Lists(n, ends, |ends|))
  {
    hide Holds, Lists, Caps, Starts;
    base, eN, eV := new nat[n], new nat[n], new nat[2 * |ends|];
    Count(n, ends, eN);
    Layout(n, ends, base, eN);
    PackStart(n, ends, base[..], eN[..], eV[..]);
    var e := 0;
    while e < |ends|
      invariant 0 <= e <= |ends|
      invariant Holds(eV[..], base[..], Caps(n, ends), eN[..], Lists(n, ends, e))
    {
      Place(n, ends, e, base, eN, eV);
      e := e + 1;
    }
  }

  /** The graph that the packed lists describe. */
  method MakeGraph(n: nat, ends: seq<(nat, nat)>) returns (g: Graph)
    requires forall e | 0 <= e < |ends| :: ends[e].0 < n && ends[e].1 < n
    ensures g == GraphOf(n, ends) && g.Valid()
  {
    var base, eN, eV := Pack(n, ends);
    GraphOfValid(n, ends);
    ghost var lists := Lists(n, ends, |ends|);
    var adj: seq<seq<nat>> := [];
    var p := 0;
    while p < n
      invariant 0 <= p <= n && |adj| == p && forall q | 0 <= q < p :: adj[q] == lists[q]
    {
      assert Part(eV[..], base[..], Caps(n, ends), eN[..], lists, p);
      adj := adj + [eV[base[p]..base[p] + eN[p]]];
      p := p + 1;
    }
    assert adj == GraphOf(n, ends).adj;
    g := Graph(n, ends, adj);
  }
}