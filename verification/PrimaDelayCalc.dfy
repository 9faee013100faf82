/** The matrices of the circuit equations, filled in place. */
module PrimaDelayCalc {
  import opened Common
  import opened Sums
  import opened ParasiticNet
  import opened PrimaStamp

  const DRIVER_CONDUCTANCE := 0.000001

  /** Entry (i, j) of G: the node block, one row per driver that ties its port to its node, zero elsewhere. */
  ghost function SystemEntry(net: Network, drivers: seq<nat>, i: int, j: int): real
    requires Resistive(net)
  {
    var n := NodeCount(net);
    if i < n && j < n then NodeBlock(net, drivers)(i, j)
    else if n <= i < n + |drivers| then Pick(j == drivers[i - n], 1.0) - Pick(j == i, 1.0)
    else 0.0
  }

  /** The same after the first m resistors, and the first d drivers. */
  ghost function PartEntry(net: Network, drivers: seq<nat>, m: nat, d: nat, i: int, j: int): real
    requires Resistive(net) && m <= |net.resistors| && d <= |drivers|
  {
    var n := NodeCount(net);
    if i < n && j < n then Entry(net, m, i, j) + DriverEntry(drivers, d, i, j)
    else if n <= i < n + d then Pick(j == drivers[i - n], 1.0) - Pick(j == i, 1.0)
    else 0.0
  }

  ghost predicate Holds(G: array2<real>, net: Network, drivers: seq<nat>, m: nat, d: nat)
    requires Resistive(net) && m <= |net.resistors| && d <= |drivers|
    reads G
  {
    forall i, j | 0 <= i < G.Length0 && 0 <= j < G.Length1 :: G[i, j] == PartEntry(net, drivers, m, d, i, j)
  }

  /** Floating resistor. */
  method StampConductance(G: array2<real>, n1: nat, n2: nat, g: real)
    requires n1 < G.Length0 == G.Length1 && n2 < G.Length0
    modifies G
    ensures forall i, j | 0 <= i < G.Length0 && 0 <= j < G.Length1 :: G[i, j] == old(G[i, j]) + Stamp(n1, n2, g, i, j)
  {
    G[n1, n1] := G[n1, n1] + g;
    G[n2, n2] := G[n2, n2] + g;
    G[n1, n2] := G[n1, n2] - g;
    G[n2, n1] := G[n2, n1] - g;
  }

  /** A resistor from a node to itself would add nothing. */
  lemma StampSelf(a: int, g: real, i: int, j: int)
    ensures Stamp(a, a, g, i, j) == 0.0
  {}

  /** What numbering leaves for node i: its index, and its own and its capacitors' capacitance. */
  ghost predicate NodeOk(net: Network, index: map<nat, nat>, caps: seq<real>, m: nat, i: nat)
    requires net.Internal(i) && m <= |net.capacitors|
  {
    i in index && index[i] == Rank(net, i) < |caps| && caps[Rank(net, i)] == net.nodes[i].cap + EndTotal(net, m, i)
  }

  /** The pin map names an internal node with that pin, for every such pin. */
  ghost predicate PinOk(net: Network, pins: map<nat, nat>, k: nat)
    requires k <= |net.nodes|
  {
    && (forall p | p in pins :: exists i :: 0 <= i < k && net.Internal(i) && net.nodes[i].pin == Some(p) && pins[p] == Rank(net, i))
    && (forall i | 0 <= i < k && net.Internal(i) && net.nodes[i].pin.Some? :: net.nodes[i].pin.value in pins)
  }

  /** After the first i nodes. */
  ghost predicate Placed(net: Network, index: map<nat, nat>, caps: seq<real>, pins: map<nat, nat>, i: nat)
    requires i <= |net.nodes|
  {
    && |index| == |caps| == Rank(net, i) && PinOk(net, pins, i)
    && (forall k | 0 <= k < i && net.Internal(k) :: NodeOk(net, index, caps, 0, k)) && (forall k | k in index :: k < i && net.Internal(k))
  }

  lemma PlacedNone(net: Network)
    ensures Placed(net, map[], [], map[], 0)
  {}

  lemma PlacedFacts(net: Network, index: map<nat, nat>, caps: seq<real>, pins: map<nat, nat>, i: nat)
    requires i <= |net.nodes| && Placed(net, index, caps, pins, i)
    ensures |index| == Rank(net, i) && PinOk(net, pins, i) && (i == |net.nodes| ==> Charged(net, index, caps, 0))
  {}

  lemma PinKept(net: Network, pins: map<nat, nat>, i: nat)
    requires i < |net.nodes| && PinOk(net, pins, i) && (net.Internal(i) ==> net.nodes[i].pin.None?)
    ensures PinOk(net, pins, i + 1)
  {
    forall p | p in pins ensures exists k :: 0 <= k < i + 1 && net.Internal(k) && net.nodes[k].pin == Some(p) && pins[p] == Rank(net, k) {
      var k :| 0 <= k < i && net.Internal(k) && net.nodes[k].pin == Some(p) && pins[p] == Rank(net, k);
      assert net.nodes[k].pin == Some(p);
    }
  }

  lemma {:induction false} PlaceNode(net: Network, index: map<nat, nat>, caps: seq<real>, pins: map<nat, nat>, i: nat, pins': map<nat, nat>)
    requires i < |net.nodes| && net.Internal(i) && Placed(net, index, caps, pins, i) && PinOk(net, pins', i + 1)
    ensures Placed(net, index[i := |index|], caps + [net.nodes[i].cap], pins', i + 1)
  {
    hide PinOk;
    forall k | 0 <= k < i && net.Internal(k) ensures NodeOk(net, index[i := |index|], caps + [net.nodes[i].cap], 0, k) {
      assert NodeOk(net, index, caps, 0, k);
      RankGrows(net, k, i);
    }
  }

  lemma {:induction false} SkipNode(net: Network, index: map<nat, nat>, caps: seq<real>, pins: map<nat, nat>, i: nat)
    requires i < |net.nodes| && !net.Internal(i) && Placed(net, index, caps, pins, i)
    ensures Placed(net, index, caps, pins, i + 1)
  {
    PinKept(net, pins, i);
  }

  /** After the first m capacitors. */
  ghost predicate Charged(net: Network, index: map<nat, nat>, caps: seq<real>, m: nat)
    requires m <= |net.capacitors|
  {
    |caps| == NodeCount(net) && forall i | 0 <= i < |net.nodes| && net.Internal(i) :: NodeOk(net, index, caps, m, i)
  }

  function Added(index: map<nat, nat>, caps: seq<real>, net: Network, i: nat, value: real): (r: seq<real>)
    requires net.Internal(i) ==> i in index && index[i] < |caps|
    ensures |r| == |caps|
  {
    if net.Internal(i) then caps[index[i] := caps[index[i]] + value] else caps
  }

  lemma {:induction false} AddCap(net: Network, index: map<nat, nat>, caps: seq<real>, m: nat)
    requires m < |net.capacitors| && Charged(net, index, caps, m)
    ensures var c := net.capacitors[m];
            (net.Internal(c.node1) ==> c.node1 in index && index[c.node1] < |caps|) && (net.Internal(c.node2) ==> c.node2 in index && index[c.node2] < |caps|)
    ensures var c := net.capacitors[m]; Charged(net, index, Added(index, Added(index, caps, net, c.node1, c.value), net, c.node2, c.value), m + 1)
  {
    var c := net.capacitors[m];
    if net.Internal(c.node1) { assert NodeOk(net, index, caps, m, c.node1); }
    if net.Internal(c.node2) { assert NodeOk(net, index, caps, m, c.node2); }
    var caps1 := Added(index, caps, net, c.node1, c.value);
    var caps2 := Added(index, caps1, net, c.node2, c.value);
    forall i | 0 <= i < |net.nodes| && net.Internal(i) ensures NodeOk(net, index, caps2, m + 1, i) {
      assert NodeOk(net, index, caps, m, i);
      if net.Internal(c.node1) { RankInjective(net, i, c.node1); }
      if net.Internal(c.node2) { RankInjective(net, i, c.node2); }
    }
  }

  /** Port d is driver pin d's. */
  ghost predicate DriverPins(pinNode: map<nat, nat>, pins: seq<nat>, drivers: seq<nat>) {
    |drivers| == |pins| && forall d | 0 <= d < |pins| :: pins[d] in pinNode && drivers[d] == pinNode[pins[d]]
  }

  lemma DriversInRange(net: Network, pinNode: map<nat, nat>, pins: seq<nat>, drivers: seq<nat>)
    requires PinOk(net, pinNode, |net.nodes|) && DriverPins(pinNode, pins, drivers)
    ensures forall d | 0 <= d < |drivers| :: drivers[d] < NodeCount(net)
  {
    forall d | 0 <= d < |drivers| ensures drivers[d] < NodeCount(net) {
      assert pins[d] in pinNode;
      var i :| 0 <= i < |net.nodes| && net.Internal(i) && net.nodes[i].pin == Some(pins[d]) && pinNode[pins[d]] == Rank(net, i);
      RankInjective(net, i, i);
    }
  }

  class Prima {
    var nodeIndex: map<nat, nat>
    var pinNode: map<nat, nat>
    var nodeCaps: seq<real>
    var nodeCount: nat

    /** The internal nodes are numbered in order, with the capacitance at each. */
    ghost predicate Numbered(net: Network)
      reads this
    {
      nodeCount == NodeCount(net) && PinOk(net, pinNode, |net.nodes|) && Charged(net, nodeIndex, nodeCaps, |net.capacitors|)
    }

    constructor ()
    {
      nodeIndex, pinNode, nodeCaps, nodeCount := map[], map[], [], 0;
    }

    /** Number the internal nodes and sum the capacitance at each. */
    method FindNodeCount(net: Network)
      modifies this
      ensures Numbered(net)
    {
      NumberNodes(net);
      nodeCount := |nodeIndex|;
      hide PinOk, NodeOk, Placed;
      var m := 0;
      while m < |net.capacitors|
        invariant 0 <= m <= |net.capacitors| && Charged(net, nodeIndex, nodeCaps, m) && nodeCount == NodeCount(net) && PinOk(net, pinNode, |net.nodes|)
      {
        var cap := net.capacitors[m];
        AddCap(net, nodeIndex, nodeCaps, m);
        AddAt(net, cap.node1, cap.value);
        AddAt(net, cap.node2, cap.value);
        m := m + 1;
      }
    }

    method AddAt(net: Network, i: nat, value: real)
      requires net.Internal(i) ==> i in nodeIndex && nodeIndex[i] < |nodeCaps|
      modifies `nodeCaps
      ensures nodeCaps == Added(nodeIndex, old(nodeCaps), net, i, value)
    {
      if net.Internal(i) {
        var k := nodeIndex[i];
        nodeCaps := nodeCaps[k := nodeCaps[k] + value];
      }
    }

    method NumberNode(net: Network, i: nat)
      requires i < |net.nodes| && Placed(net, nodeIndex, nodeCaps, pinNode, i)
      modifies this
      ensures Placed(net, nodeIndex, nodeCaps, pinNode, i + 1)
    {
      hide PinOk, NodeOk, Placed, Charged;
      var node := net.nodes[i];
      PlacedFacts(net, nodeIndex, nodeCaps, pinNode, i);
      if !node.external {
        ghost var index0, caps0, pins0 := nodeIndex, nodeCaps, pinNode;
        var index := |nodeIndex|;
        nodeIndex := nodeIndex[i := index];
        if node.pin.Some? {
          PinAdded(net, pinNode, i);
          pinNode := pinNode[node.pin.value := index];
        } else {
          PinKept(net, pinNode, i);
        }
        nodeCaps := nodeCaps + [node.cap];
        PlaceNode(net, index0, caps0, pins0, i, pinNode);
      } else {
        SkipNode(net, nodeIndex, nodeCaps, pinNode, i);
      }
    }

    method NumberNodes(net: Network)
      modifies this
      ensures PinOk(net, pinNode, |net.nodes|) && Charged(net, nodeIndex, nodeCaps, 0) && |nodeIndex| == NodeCount(net)
    {
      nodeCaps, pinNode, nodeIndex := [], map[], map[];
      var i := 0;
      PlacedNone(net);
      hide PinOk, NodeOk, Placed, Charged;
      while i < |net.nodes|
        invariant 0 <= i <= |net.nodes| && Placed(net, nodeIndex, nodeCaps, pinNode, i)
      {
        NumberNode(net, i);
        i := i + 1;
      }
      PlacedFacts(net, nodeIndex, nodeCaps, pinNode, i);
    }

    /** Grounded capacitances. */
    method StampCaps(net: Network, C: array2<real>)
      requires Numbered(net) && nodeCount <= C.Length0 == C.Length1
      modifies C
      ensures forall i, j | 0 <= i < C.Length0 && 0 <= j < C.Length1 :: C[i, j] == Pick(i == j && i < nodeCount, NodeCap(nodeCaps, i))
    {
      hide Charged, PinOk;
      assert |nodeCaps| == nodeCount by { assert Charged(net, nodeIndex, nodeCaps, |net.capacitors|); ChargedLength(net, nodeIndex, nodeCaps, |net.capacitors|); }
      forall i, j | 0 <= i < C.Length0 && 0 <= j < C.Length1 { C[i, j] := 0.0; }
      var n := 0;
      while n < nodeCount
        invariant 0 <= n <= nodeCount
        invariant forall i, j | 0 <= i < C.Length0 && 0 <= j < C.Length1 :: C[i, j] == Pick(i == j && i < n, NodeCap(nodeCaps, i))
      {
        C[n, n] := C[n, n] + nodeCaps[n];
        n := n + 1;
      }
    }

    /** Floating resistors; one from a node to itself is skipped. */
    method StampResistors(net: Network, G: array2<real>, ghost drivers: seq<nat>)
      requires Numbered(net) && Resistive(net) && nodeCount <= G.Length0 == G.Length1
      modifies G
      ensures Holds(G, net, drivers, |net.resistors|, 0)
    {
      forall i, j | 0 <= i < G.Length0 && 0 <= j < G.Length1 { G[i, j] := 0.0; }
      var m := 0;
      hide PinOk, Stamp;
      while m < |net.resistors|
        invariant 0 <= m <= |net.resistors| && Holds(G, net, drivers, m, 0)
      {
        var r := net.resistors[m];
        ResistorIndex(net, nodeIndex, nodeCaps, m);
        if r.node1 != r.node2 {
          StampConductance(G, nodeIndex[r.node1], nodeIndex[r.node2], 1.0 / r.value);
        }
        forall i, j | 0 <= i < G.Length0 && 0 <= j < G.Length1 ensures PartEntry(net, drivers, m + 1, 0, i, j) == PartEntry(net, drivers, m, 0, i, j) + Stamp(End1(net, m), End2(net, m), PrimaStamp.G(net, m), i, j) {
          ResistorEntry(net, drivers, m, i, j);
        }
        if r.node1 == r.node2 {
          forall i, j ensures Stamp(End1(net, m), End2(net, m), PrimaStamp.G(net, m), i, j) == 0.0 { StampSelf(End1(net, m), PrimaStamp.G(net, m), i, j); }
        }
        m := m + 1;
      }
    }

    method StampDriver(G: array2<real>, row: nat, node: nat)
      requires node < row < G.Length0 == G.Length1
      modifies G
      ensures forall i, j | 0 <= i < G.Length0 && 0 <= j < G.Length1 :: G[i, j] == Driven(row, node, i, j, old(G[i, j]))
    {
      G[row, node] := 1.0;
      G[row, row] := -1.0;
      G[node, node] := G[node, node] + DRIVER_CONDUCTANCE;
    }

    /** Driver ports: a unit row that ties the port to its node, and a small conductance at the node. */
    method StampDrivers(net: Network, pins: seq<nat>, G: array2<real>, B: array2<real>, ghost drivers: seq<nat>)
      requires Numbered(net) && Resistive(net) && DriverPins(pinNode, pins, drivers) && G != B
      requires G.Length0 == G.Length1 == B.Length0 == nodeCount + |pins| && B.Length1 == |pins|
      requires Holds(G, net, drivers, |net.resistors|, 0)
      modifies G, B
      ensures Holds(G, net, drivers, |net.resistors|, |drivers|)
      ensures forall i, d | 0 <= i < B.Length0 && 0 <= d < |pins| :: B[i, d] == Pick(i == drivers[d], 1.0)
    {
      hide Charged, PinOk, NodeCount, PartEntry, Driven, Resistive;
      DriversInRange(net, pinNode, pins, drivers);
      forall i, j | 0 <= i < B.Length0 && 0 <= j < B.Length1 { B[i, j] := 0.0; }
      var d := 0;
      while d < |pins|
        invariant 0 <= d <= |pins| && Holds(G, net, drivers, |net.resistors|, d)
        invariant forall i, j | 0 <= i < B.Length0 && 0 <= j < |pins| :: B[i, j] == if j < d then Pick(i == drivers[j], 1.0) else 0.0
      {
        var node := pinNode[pins[d]];
        forall i, j | 0 <= i < G.Length0 && 0 <= j < G.Length1
          ensures Driven(nodeCount + d, node, i, j, PartEntry(net, drivers, |net.resistors|, d, i, j)) == PartEntry(net, drivers, |net.resistors|, d + 1, i, j)
        {
          DriverStep(net, drivers, d, i, j);
        }
        StampDriver(G, nodeCount + d, node);
        B[node, d] := 1.0;
        d := d + 1;
      }
    }

    /** Fill G, C and B. The drivers' nodes are returned for the specification. */
    method StampEqns(net: Network, pins: seq<nat>, G: array2<real>, C: array2<real>, B: array2<real>) returns (ghost drivers: seq<nat>)
      requires Numbered(net) && Resistive(net) && (forall d | 0 <= d < |pins| :: pins[d] in pinNode) && G != C && G != B && C != B
      requires G.Length0 == G.Length1 == C.Length0 == C.Length1 == B.Length0 == nodeCount + |pins| && B.Length1 == |pins|
      modifies G, C, B
      ensures DriverPins(pinNode, pins, drivers)
      ensures forall i, j | 0 <= i < G.Length0 && 0 <= j < G.Length1 :: G[i, j] == SystemEntry(net, drivers, i, j)
      ensures forall i, j | 0 <= i < C.Length0 && 0 <= j < C.Length1 :: C[i, j] == Pick(i == j && i < nodeCount, NodeCap(nodeCaps, i))
      ensures forall i, d | 0 <= i < B.Length0 && 0 <= d < |pins| :: B[i, d] == Pick(i == drivers[d], 1.0)
    {
      drivers := seq(|pins|, d requires 0 <= d < |pins| && pins[d] in pinNode reads this => pinNode[pins[d]]);
      hide Charged, PinOk;
      StampCaps(net, C);
      StampResistors(net, G, drivers);
      StampDrivers(net, pins, G, B, drivers);
    }
  }

  /** Entry (i, j) after a driver's row and node are stamped. */
  function Driven(row: int, node: int, i: int, j: int, g: real): real {
    if i == row && j == node then 1.0 else if i == row && j == row then -1.0 else g + Pick(i == node && j == node, DRIVER_CONDUCTANCE)
  }

  lemma DriverStep(net: Network, drivers: seq<nat>, d: nat, i: nat, j: nat)
    requires Resistive(net) && d < |drivers| && drivers[d] < NodeCount(net)
    ensures Driven(NodeCount(net) + d, drivers[d], i, j, PartEntry(net, drivers, |net.resistors|, d, i, j)) == PartEntry(net, drivers, |net.resistors|, d + 1, i, j)
  {}

  function NodeCap(caps: seq<real>, i: int): real { if 0 <= i < |caps| then caps[i] else 0.0 }

  lemma ChargedLength(net: Network, index: map<nat, nat>, caps: seq<real>, m: nat)
    requires m <= |net.capacitors| && Charged(net, index, caps, m)
    ensures |caps| == NodeCount(net)
  {}

  lemma ResistorIndex(net: Network, index: map<nat, nat>, caps: seq<real>, e: nat)
    requires Resistive(net) && e < |net.resistors| && Charged(net, index, caps, |net.capacitors|)
    ensures var r := net.resistors[e];
            r.node1 in index && index[r.node1] == End1(net, e) < NodeCount(net) && r.node2 in index && index[r.node2] == End2(net, e) < NodeCount(net)
  {
    assert NodeOk(net, index, caps, |net.capacitors|, net.resistors[e].node1);
    assert NodeOk(net, index, caps, |net.capacitors|, net.resistors[e].node2);
    EndsInRange(net, e);
  }

  lemma ResistorEntry(net: Network, drivers: seq<nat>, m: nat, i: int, j: int)
    requires Resistive(net) && m < |net.resistors|
    ensures PartEntry(net, drivers, m + 1, 0, i, j) == PartEntry(net, drivers, m, 0, i, j) + Stamp(End1(net, m), End2(net, m), G(net, m), i, j)
  {
    EndsInRange(net, m);
  }

  lemma PinAdded(net: Network, pins: map<nat, nat>, i: nat)
    requires i < |net.nodes| && net.Internal(i) && net.nodes[i].pin.Some? && PinOk(net, pins, i)
    ensures PinOk(net, pins[net.nodes[i].pin.value := Rank(net, i)], i + 1)
  {
    var q := net.nodes[i].pin.value;
    var pins' := pins[q := Rank(net, i)];
    forall p | p in pins' ensures exists k :: 0 <= k < i + 1 && net.Internal(k) && net.nodes[k].pin == Some(p) && pins'[p] == Rank(net, k) {
      if p == q {
        assert net.nodes[i].pin == Some(p);
      } else {
        var k :| 0 <= k < i && net.Internal(k) && net.nodes[k].pin == Some(p) && pins[p] == Rank(net, k);
        assert net.nodes[k].pin == Some(p) && pins'[p] == Rank(net, k);
      }
    }
  }

  /** Two pins joined by four ohms, the first one driven. */
  function Pins2(): Network { Network([Node(false, Some(0), 0.0), Node(false, Some(1), 0.0)], [Resistor(0, 1, 4.0)], []) }

  /** Its G, entry by entry. */
  lemma StampExample()
    ensures Resistive(Pins2()) && NodeCount(Pins2()) == 2
    ensures forall i, j | 0 <= i < 3 && 0 <= j < 3 ::
              SystemEntry(Pins2(), [0], i, j) == [[0.250001, -0.25, 0.0], [-0.25, 0.25, 0.0], [1.0, 0.0, -1.0]][i][j]
  {
    var net := Pins2();
    assert Rank(net, 1) == 1 && Rank(net, 2) == 2;
    assert G(net, 0) == 0.25 && End1(net, 0) == 0 && End2(net, 0) == 1;
    forall i, j | 0 <= i < 2 && 0 <= j < 2 ensures Entry(net, 1, i, j) == (if i == j then 0.25 else -0.25) && DriverEntry([0], 1, i, j) == if i == j == 0 then 0.000001 else 0.0 {
      assert Entry(net, 0, i, j) == 0.0 && DriverEntry([0], 0, i, j) == 0.0;
    }
  }
}
