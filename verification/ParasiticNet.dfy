/** A parasitic network, and the points the reducer numbers its internal nodes with. */
module ParasiticNet {
  import opened Common

  /** cap is the capacitance to ground, the pin's own included. */
  datatype Node = Node(external: bool, pin: Option<nat>, cap: real)
  datatype Resistor = Resistor(node1: nat, node2: nat, value: real)
  datatype Capacitor = Capacitor(node1: nat, node2: nat, value: real)

  datatype Network = Network(nodes: seq<Node>, resistors: seq<Resistor>, capacitors: seq<Capacitor>) {
    predicate Internal(i: int) { 0 <= i < |nodes| && !nodes[i].external }
    predicate Terminal(i: int) { Internal(i) && nodes[i].pin.Some? }

    /** Resistors join internal nodes. */
    ghost predicate Joined() { forall e | 0 <= e < |resistors| :: Internal(resistors[e].node1) && Internal(resistors[e].node2) }

    /** Capacitors may also reach external nodes, but have both ends: a missing end is a number that no node has. */
    ghost predicate Valid() {
      Joined() && forall e | 0 <= e < |capacitors| :: capacitors[e].node1 < |nodes| && capacitors[e].node2 < |nodes|
    }
  }

  /** The values of the first m capacitors at node i: each end counts. */
  ghost function EndTotal(net: Network, m: nat, i: int): real
    requires m <= |net.capacitors|
  {
    if m == 0 then 0.0
    else
      var x := net.capacitors[m - 1];
      EndTotal(net, m - 1, i) + (if x.node1 == i then x.value else 0.0) + (if x.node2 == i then x.value else 0.0)
  }

  /** How many of the first i nodes are internal without, and with, a pin. */
  function Subs(net: Network, i: nat): nat
    requires i <= |net.nodes|
  {
    if i == 0 then 0 else Subs(net, i - 1) + if net.Internal(i - 1) && !net.Terminal(i - 1) then 1 else 0
  }
  function Terms(net: Network, i: nat): nat
    requires i <= |net.nodes|
  {
    if i == 0 then 0 else Terms(net, i - 1) + if net.Terminal(i - 1) then 1 else 0
  }

  lemma {:induction false} CountsGrow(net: Network, i: nat, j: nat)
    requires i <= j <= |net.nodes|
    ensures Subs(net, i) <= Subs(net, j) && Terms(net, i) <= Terms(net, j)
    ensures i < j && net.Internal(i) && !net.Terminal(i) ==> Subs(net, i) < Subs(net, j)
    ensures i < j && net.Terminal(i) ==> Terms(net, i) < Terms(net, j)
    decreases j - i
  {
    if i < j { CountsGrow(net, i, j - 1); }
  }

  /** Points: the nodes without a pin, one spare, then the terminals. */
  function FirstTerm(net: Network): nat { Subs(net, |net.nodes|) + 1 }
  function PointCount(net: Network): nat { FirstTerm(net) + Terms(net, |net.nodes|) }

  function PointOf(net: Network, i: int): nat
    requires net.Internal(i)
  {
    if net.Terminal(i) then FirstTerm(net) + Terms(net, i) else Subs(net, i)
  }

  lemma {:induction false} PointInRange(net: Network, i: int)
    requires net.Internal(i)
    ensures PointOf(net, i) < PointCount(net)
    ensures net.Terminal(i) <==> PointOf(net, i) >= FirstTerm(net)
  {
    CountsGrow(net, i, |net.nodes|);
  }

  /** Different nodes get different points. */
  lemma {:induction false} PointInjective(net: Network, i: int, j: int)
    requires net.Internal(i) && net.Internal(j) && i < j
    ensures PointOf(net, i) != PointOf(net, j)
  {
    CountsGrow(net, i, j);
    PointInRange(net, i);
    PointInRange(net, j);
  }

  /** The numbering: ptMap from nodes to points, nodeOf back, and the pins in point order. */
  datatype Numbering = Numbering(ptMap: seq<nat>, nodeOf: seq<int>, pinV: seq<nat>)

  ghost predicate Mapped(net: Network, m: nat, num: Numbering) {
    && m <= |net.nodes| && |num.ptMap| == m && |num.nodeOf| == PointCount(net)
    && (forall i | 0 <= i < m && net.Internal(i) :: num.ptMap[i] == PointOf(net, i) < |num.nodeOf| && num.nodeOf[PointOf(net, i)] == i)
    && (forall p | 0 <= p < |num.nodeOf| && num.nodeOf[p] != -1 ::
          net.Internal(num.nodeOf[p]) && num.nodeOf[p] < m && PointOf(net, num.nodeOf[p]) == p)
  }

  ghost predicate Pinned(net: Network, m: nat, num: Numbering) {
    && m <= |net.nodes| && |num.pinV| == Terms(net, m) && |num.nodeOf| == PointCount(net)
    && forall k | 0 <= k < |num.pinV| :: PinAt(net, num, k)
  }

  /** Terminal point k belongs to a node with pin pinV[k]. */
  ghost predicate PinAt(net: Network, num: Numbering, k: nat) {
    && k < |num.pinV| && FirstTerm(net) + k < |num.nodeOf| && net.Terminal(num.nodeOf[FirstTerm(net) + k])
    && net.nodes[num.nodeOf[FirstTerm(net) + k]].pin == Some(num.pinV[k])
  }

  /** The numbering with node m added. */
  function Extend(net: Network, m: nat, num: Numbering): Numbering
    requires m < |net.nodes| && |num.nodeOf| == PointCount(net)
  {
    if !net.Internal(m) then num.(ptMap := num.ptMap + [0])
    else
      PointInRange(net, m);
      var p := PointOf(net, m);
      Numbering(num.ptMap + [p], num.nodeOf[p := m], if net.Terminal(m) then num.pinV + [net.nodes[m].pin.value] else num.pinV)
  }

  lemma {:induction false} ExtendMapped(net: Network, m: nat, num: Numbering)
    requires m < |net.nodes| && Mapped(net, m, num)
    ensures Mapped(net, m + 1, Extend(net, m, num))
  {
    if net.Internal(m) {
      var p := PointOf(net, m);
      PointInRange(net, m);
      forall i | 0 <= i < m && net.Internal(i) ensures PointOf(net, i) != p { PointInjective(net, i, m); }
      hide PointOf, PointCount, FirstTerm;
      assert Mapped(net, m + 1, Extend(net, m, num));
    }
  }

  lemma {:induction false} ExtendPinned(net: Network, m: nat, num: Numbering)
    requires m < |net.nodes| && Pinned(net, m, num)
    ensures Pinned(net, m + 1, Extend(net, m, num))
  {
    if net.Internal(m) { PointInRange(net, m); }
    CountsGrow(net, m + 1, |net.nodes|);
    var num' := Extend(net, m, num);
    forall k | 0 <= k < |num'.pinV| ensures PinAt(net, num', k) {
      if k < |num.pinV| { assert PinAt(net, num, k); }
    }
  }

  /** Number the internal nodes in two passes over the node list. */
  method NumberPoints(net: Network) returns (num: Numbering, pterm0: nat, termN: nat)
    ensures Mapped(net, |net.nodes|, num) && Pinned(net, |net.nodes|, num)
    ensures pterm0 == FirstTerm(net) && termN == Terms(net, |net.nodes|)
  {
    termN := 0;
    var subs := 0;
    var i := 0;
    while i < |net.nodes|
      invariant 0 <= i <= |net.nodes| && termN == Terms(net, i) && subs == Subs(net, i)
    {
      if net.Internal(i) {
        if net.Terminal(i) { termN := termN + 1; } else { subs := subs + 1; }
      }
      i := i + 1;
    }
    pterm0 := subs + 1;
    num := Numbering([], seq(pterm0 + termN, _ => -1), []);
    i := 0;
    var index, pend := 0, pterm0;
    while i < |net.nodes|
      invariant 0 <= i <= |net.nodes| && Mapped(net, i, num) && Pinned(net, i, num)
      invariant index == Subs(net, i) && pend == pterm0 + Terms(net, i)
    {
      ExtendMapped(net, i, num);
      ExtendPinned(net, i, num);
      num, index, pend := AddNode(net, i, num, index, pend);
      i := i + 1;
    }
  }

  /** The next point for node m: a terminal takes the next terminal point, another node the next plain one. */
  method AddNode(net: Network, m: nat, num: Numbering, index: nat, pend: nat) returns (num': Numbering, index': nat, pend': nat)
    requires m < |net.nodes| && |num.nodeOf| == PointCount(net)
    requires index == Subs(net, m) && pend == FirstTerm(net) + Terms(net, m)
    ensures num' == Extend(net, m, num)
    ensures index' == Subs(net, m + 1) && pend' == FirstTerm(net) + Terms(net, m + 1)
  {
    num', index', pend' := num, index, pend;
    if net.Internal(m) {
      PointInRange(net, m);
      var p;
      if net.Terminal(m) {
        p := pend;
        pend' := pend + 1;
        num' := num'.(pinV := num'.pinV + [net.nodes[m].pin.value]);
      } else {
        p := index;
        index' := index + 1;
      }
      num' := num'.(ptMap := num'.ptMap + [p], nodeOf := num'.nodeOf[p := m]);
    } else {
      num' := num'.(ptMap := num'.ptMap + [0]);
    }
  }
}
