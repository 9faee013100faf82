/** Stamping a parasitic network into the matrices of its circuit equations. */
module PrimaStamp {
  import opened Sums
  import opened Forms
  import opened ParasiticNet

  function Pick(c: bool, g: real): real { if c then g else 0.0 }

  /** What a conductance g between a and b adds to entry (i, j). */
  function Stamp(a: int, b: int, g: real, i: int, j: int): real {
    Pick(i == a && j == a, g) + Pick(i == b && j == b, g) - Pick(i == a && j == b, g) - Pick(i == b && j == a, g)
  }

  // ---- node numbers --------------------------------------------------------------------------

  /** Internal nodes before node i: its index. */
  function Rank(net: Network, i: nat): nat
    requires i <= |net.nodes|
  {
    if i == 0 then 0 else Rank(net, i - 1) + if net.Internal(i - 1) then 1 else 0
  }

  function NodeCount(net: Network): nat { Rank(net, |net.nodes|) }

  lemma {:induction false} RankGrows(net: Network, i: nat, j: nat)
    requires i <= j <= |net.nodes|
    ensures Rank(net, i) <= Rank(net, j) && (i < j && net.Internal(i) ==> Rank(net, i) < Rank(net, j))
    decreases j - i
  {
    if i < j { RankGrows(net, i, j - 1); }
  }

  /** Different internal nodes have different indices below the node count. */
  lemma RankInjective(net: Network, i: nat, j: nat)
    requires net.Internal(i) && net.Internal(j)
    ensures Rank(net, i) < NodeCount(net) && (Rank(net, i) == Rank(net, j) ==> i == j)
  {
    RankGrows(net, i, |net.nodes|);
    if i < j { RankGrows(net, i, j); }
    if j < i { RankGrows(net, j, i); }
  }

  // ---- the conductance matrix ----------------------------------------------------------------

  /** Conductance of resistor e; none when its value is zero, as it may be from a node to itself. */
  ghost function G(net: Network, e: nat): real
    requires e < |net.resistors|
  {
    if net.resistors[e].value == 0.0 then 0.0 else 1.0 / net.resistors[e].value
  }

  predicate Loops(r: Resistor) { r.node1 == r.node2 }

  /** Resistors join internal nodes, and those between different nodes are not zero. */
  ghost predicate Resistive(net: Network) {
    net.Joined() && forall e | 0 <= e < |net.resistors| :: net.resistors[e].value != 0.0 || Loops(net.resistors[e])
  }

  ghost predicate PositiveResistors(net: Network) {
    forall e | 0 <= e < |net.resistors| :: net.resistors[e].value > 0.0 || Loops(net.resistors[e])
  }

  ghost function End1(net: Network, e: nat): nat
    requires Resistive(net) && e < |net.resistors|
  {
    Rank(net, net.resistors[e].node1)
  }

  ghost function End2(net: Network, e: nat): nat
    requires Resistive(net) && e < |net.resistors|
  {
    Rank(net, net.resistors[e].node2)
  }

  /** The first m resistors' part of entry (i, j). */
  ghost function Entry(net: Network, m: nat, i: int, j: int): real
    requires Resistive(net) && m <= |net.resistors|
  {
    if m == 0 then 0.0 else Entry(net, m - 1, i, j) + Stamp(End1(net, m - 1), End2(net, m - 1), G(net, m - 1), i, j)
  }

  /** The drivers' part: a small conductance to ground at each driver node. */
  ghost function DriverEntry(nodes: seq<nat>, m: nat, i: int, j: int): real
    requires m <= |nodes|
  {
    if m == 0 then 0.0 else DriverEntry(nodes, m - 1, i, j) + Pick(i == nodes[m - 1] && j == nodes[m - 1], 0.000001)
  }

  ghost function NodeBlock(net: Network, drivers: seq<nat>): Matrix
    requires Resistive(net)
  {
    (i, j) => Entry(net, |net.resistors|, i, j) + DriverEntry(drivers, |drivers|, i, j)
  }

  // ---- Kirchhoff's current law ---------------------------------------------------------------

  /** Current that leaves node i through a conductance g from a to b. */
  function Current(a: int, b: int, g: real, x: seq<real>, i: int): real {
    Mul(Pick(i == a, g) - Pick(i == b, g), At(x, a) - At(x, b))
  }

  /** Currents that leave node i through the first m resistors. */
  ghost function Currents(net: Network, m: nat, x: seq<real>, i: int): real
    requires Resistive(net) && m <= |net.resistors|
  {
    if m == 0 then 0.0 else Currents(net, m - 1, x, i) + Current(End1(net, m - 1), End2(net, m - 1), G(net, m - 1), x, i)
  }

  /** Power taken by the first m resistors at voltages x: (x1 - x2)^2 / R each. */
  ghost function Power(net: Network, m: nat, x: seq<real>): real
    requires Resistive(net) && m <= |net.resistors|
  {
    if m == 0 then 0.0
    else
      var v := At(x, End1(net, m - 1)) - At(x, End2(net, m - 1));
      Power(net, m - 1, x) + Mul(G(net, m - 1), Mul(v, v))
  }

  ghost function DriverCurrents(nodes: seq<nat>, m: nat, x: seq<real>, i: int): real
    requires m <= |nodes|
  {
    if m == 0 then 0.0 else DriverCurrents(nodes, m - 1, x, i) + Pick(i == nodes[m - 1], Mul(0.000001, At(x, i)))
  }

  ghost function DriverPower(nodes: seq<nat>, m: nat, x: seq<real>): real
    requires m <= |nodes|
  {
    if m == 0 then 0.0 else DriverPower(nodes, m - 1, x) + Mul(0.000001, Mul(At(x, nodes[m - 1]), At(x, nodes[m - 1])))
  }

  lemma ZeroMul(x: real)
    ensures Mul(0.0, x) == 0.0 && Mul(x, 0.0) == 0.0
  {}

  /** +1 at a, -1 at b. */
  function Sign(a: int, b: int, j: int): real { Pick(j == a, 1.0) - Pick(j == b, 1.0) }

  lemma StampFactors(a: int, b: int, g: real, i: int, j: int, x: real)
    ensures Mul(Stamp(a, b, g, i, j), x) == Mul(Pick(i == a, g) - Pick(i == b, g), Mul(Sign(a, b, j), x))
  {}

  lemma {:induction false} SumPick(a: nat, n: nat, x: seq<real>)
    requires a < n
    ensures Sum(j => Mul(Pick(j == a, 1.0), At(x, j)), n) == At(x, a)
  {
    var f := j => Mul(Pick(j == a, 1.0), At(x, j));
    forall j | 0 <= j < n && j != a ensures f(j) == 0.0 { ZeroMul(At(x, j)); }
    OneMul(At(x, a));
    hide Mul;
    SumUnit(f, a, n);
    SumEq(f, j => Mul(Pick(j == a, 1.0), At(x, j)), n);
  }

  lemma OneMul(x: real)
    ensures Mul(1.0, x) == x && Mul(x, 1.0) == x
  {}

  lemma MulLess(a: real, b: real, x: real)
    ensures Mul(a - b, x) == Mul(a, x) - Mul(b, x) && Mul(x, a - b) == Mul(x, a) - Mul(x, b)
  {}

  lemma {:induction false} SumSign(a: nat, b: nat, n: nat, x: seq<real>)
    requires a < n && b < n
    ensures Sum(j => Mul(Sign(a, b, j), At(x, j)), n) == At(x, a) - At(x, b)
  {
    var f, g, h := j => Mul(Pick(j == a, 1.0), At(x, j)), j => Mul(Pick(j == b, 1.0), At(x, j)), j => Mul(Sign(a, b, j), At(x, j));
    forall j ensures h(j) == 1.0 * f(j) + (-1.0) * g(j) { MulLess(Pick(j == a, 1.0), Pick(j == b, 1.0), At(x, j)); }
    hide Mul;
    SumLinear(1.0, f, -1.0, g, h, n);
    SumPick(a, n, x);
    SumPick(b, n, x);
    SumEq(f, j => Mul(Pick(j == a, 1.0), At(x, j)), n);
    SumEq(g, j => Mul(Pick(j == b, 1.0), At(x, j)), n);
    SumEq(h, j => Mul(Sign(a, b, j), At(x, j)), n);
  }

  /** A stamped row times the voltages is the current of the resistor. */
  lemma {:induction false} StampRow(a: nat, b: nat, g: real, n: nat, x: seq<real>, i: int)
    requires a < n && b < n
    ensures Sum(j => Mul(Stamp(a, b, g, i, j), At(x, j)), n) == Current(a, b, g, x, i)
  {
    var c := Pick(i == a, g) - Pick(i == b, g);
    var f, s := j => Mul(Sign(a, b, j), At(x, j)), j => Mul(Stamp(a, b, g, i, j), At(x, j));
    forall j ensures s(j) == Mul(c, f(j)) { StampFactors(a, b, g, i, j, At(x, j)); }
    hide Mul, Stamp, Sign, At;
    SumEq(s, j => Mul(c, f(j)), n);
    SumEq(s, j => Mul(Stamp(a, b, g, i, j), At(x, j)), n);
    SumMul(c, f, n);
    SumSign(a, b, n, x);
    SumEq(f, j => Mul(Sign(a, b, j), At(x, j)), n);
  }

  lemma MulPlus(a: real, b: real, x: real)
    ensures Mul(a + b, x) == Mul(a, x) + Mul(b, x) && Mul(x, a + b) == Mul(x, a) + Mul(x, b)
  {}

  lemma {:induction false} SumPlus(f: int -> real, g: int -> real, h: int -> real, n: nat)
    requires forall j :: h(j) == f(j) + g(j)
    ensures Sum(h, n) == Sum(f, n) + Sum(g, n)
  {
    SumAdd(f, g, h, n);
  }

  lemma {:induction false} SumNothing(n: nat)
    ensures Sum(j => 0.0, n) == 0.0
  {
    SumUnit(j => 0.0, n, n);
  }

  /** Where the resistors' ends are. */
  lemma EndsInRange(net: Network, e: nat)
    requires Resistive(net) && e < |net.resistors|
    ensures End1(net, e) < NodeCount(net) && End2(net, e) < NodeCount(net)
  {
    RankInjective(net, net.resistors[e].node1, net.resistors[e].node2);
    RankInjective(net, net.resistors[e].node2, net.resistors[e].node1);
  }

  lemma {:induction false} EntryRow(net: Network, m: nat, x: seq<real>, i: int)
    requires Resistive(net) && m <= |net.resistors|
    ensures Sum(j => Mul(Entry(net, m, i, j), At(x, j)), NodeCount(net)) == Currents(net, m, x, i)
  {
    var n := NodeCount(net);
    var h := j => Mul(Entry(net, m, i, j), At(x, j));
    if m == 0 {
      forall j ensures h(j) == 0.0 { ZeroMul(At(x, j)); }
      SumEq(h, j => 0.0, n);
      SumNothing(n);
    } else {
      EntryRow(net, m - 1, x, i);
      EndsInRange(net, m - 1);
      var a, b, g := End1(net, m - 1), End2(net, m - 1), G(net, m - 1);
      StampRow(a, b, g, n, x, i);
      var f, s := j => Mul(Entry(net, m - 1, i, j), At(x, j)), j => Mul(Stamp(a, b, g, i, j), At(x, j));
      forall j ensures h(j) == f(j) + s(j) { MulPlus(Entry(net, m - 1, i, j), Stamp(a, b, g, i, j), At(x, j)); }
      hide Mul, Stamp, At, Current;
      SumPlus(f, s, h, n);
      SumEq(f, j => Mul(Entry(net, m - 1, i, j), At(x, j)), n);
      SumEq(s, j => Mul(Stamp(a, b, g, i, j), At(x, j)), n);
    }
    SumEq(h, j => Mul(Entry(net, m, i, j), At(x, j)), n);
  }

  lemma {:induction false} DriverRow(nodes: seq<nat>, m: nat, n: nat, x: seq<real>, i: int)
    requires m <= |nodes| && forall d | 0 <= d < |nodes| :: nodes[d] < n
    ensures Sum(j => Mul(DriverEntry(nodes, m, i, j), At(x, j)), n) == DriverCurrents(nodes, m, x, i)
  {
    var h := j => Mul(DriverEntry(nodes, m, i, j), At(x, j));
    if m == 0 {
      forall j ensures h(j) == 0.0 { ZeroMul(At(x, j)); }
      SumEq(h, j => 0.0, n);
      SumNothing(n);
    } else {
      DriverRow(nodes, m - 1, n, x, i);
      var d := nodes[m - 1];
      var f, s := j => Mul(DriverEntry(nodes, m - 1, i, j), At(x, j)), j => Mul(Pick(i == d && j == d, 0.000001), At(x, j));
      forall j ensures h(j) == f(j) + s(j) { MulPlus(DriverEntry(nodes, m - 1, i, j), Pick(i == d && j == d, 0.000001), At(x, j)); }
      forall j | j != d ensures s(j) == 0.0 { ZeroMul(At(x, j)); }
      ZeroMul(At(x, d));
      assert s(d) == Pick(i == d, Mul(0.000001, At(x, i)));
      hide Mul, At;
      SumUnit(s, d, n);
      SumPlus(f, s, h, n);
      SumEq(f, j => Mul(DriverEntry(nodes, m - 1, i, j), At(x, j)), n);
    }
    SumEq(h, j => Mul(DriverEntry(nodes, m, i, j), At(x, j)), n);
  }

  /** Kirchhoff's current law: row i of the node block times the voltages is the current that leaves node i. */
  lemma {:induction false} CurrentLaw(net: Network, drivers: seq<nat>, x: seq<real>, i: int)
    requires Resistive(net) && forall d | 0 <= d < |drivers| :: drivers[d] < NodeCount(net)
    ensures Row(NodeBlock(net, drivers), NodeCount(net), x, i) == Currents(net, |net.resistors|, x, i) + DriverCurrents(drivers, |drivers|, x, i)
  {
    var n, A := NodeCount(net), NodeBlock(net, drivers);
    RowProducts(A, n, x, i);
    var h := b => Mul(A(i, b), At(x, b));
    var f, s := j => Mul(Entry(net, |net.resistors|, i, j), At(x, j)), j => Mul(DriverEntry(drivers, |drivers|, i, j), At(x, j));
    forall j ensures h(j) == f(j) + s(j) { MulPlus(Entry(net, |net.resistors|, i, j), DriverEntry(drivers, |drivers|, i, j), At(x, j)); }
    EntryRow(net, |net.resistors|, x, i);
    DriverRow(drivers, |drivers|, n, x, i);
    hide Mul, At, Row;
    SumPlus(f, s, h, n);
    SumEq(h, b => Mul(A(i, b), At(x, b)), n);
    SumEq(f, j => Mul(Entry(net, |net.resistors|, i, j), At(x, j)), n);
    SumEq(s, j => Mul(DriverEntry(drivers, |drivers|, i, j), At(x, j)), n);
  }

  // ---- power ---------------------------------------------------------------------------------

  lemma CurrentFactors(a: int, b: int, g: real, x: seq<real>, k: int)
    ensures var v := At(x, a) - At(x, b); Mul(At(x, k), Current(a, b, g, x, k)) == Mul(Mul(g, v), Mul(Sign(a, b, k), At(x, k)))
  {}

  lemma MulAssociates(g: real, v: real)
    ensures Mul(Mul(g, v), v) == Mul(g, Mul(v, v))
  {}

  lemma {:induction false} CurrentPower(a: nat, b: nat, g: real, n: nat, x: seq<real>)
    requires a < n && b < n
    ensures var v := At(x, a) - At(x, b); Sum(k => Mul(At(x, k), Current(a, b, g, x, k)), n) == Mul(g, Mul(v, v))
  {
    var v := At(x, a) - At(x, b);
    var f, s := k => Mul(Sign(a, b, k), At(x, k)), k => Mul(At(x, k), Current(a, b, g, x, k));
    forall k ensures s(k) == Mul(Mul(g, v), f(k)) { CurrentFactors(a, b, g, x, k); }
    hide Mul, At, Sign, Current;
    SumEq(s, k => Mul(Mul(g, v), f(k)), n);
    SumEq(s, k => Mul(At(x, k), Current(a, b, g, x, k)), n);
    SumMul(Mul(g, v), f, n);
    SumSign(a, b, n, x);
    SumEq(f, k => Mul(Sign(a, b, k), At(x, k)), n);
    MulAssociates(g, v);
  }

  lemma {:induction false} CurrentsPower(net: Network, m: nat, x: seq<real>)
    requires Resistive(net) && m <= |net.resistors|
    ensures Sum(k => Mul(At(x, k), Currents(net, m, x, k)), NodeCount(net)) == Power(net, m, x)
  {
    var n := NodeCount(net);
    var h := k => Mul(At(x, k), Currents(net, m, x, k));
    if m == 0 {
      forall k ensures h(k) == 0.0 { ZeroMul(At(x, k)); }
      SumEq(h, k => 0.0, n);
      SumNothing(n);
    } else {
      CurrentsPower(net, m - 1, x);
      EndsInRange(net, m - 1);
      var a, b, g := End1(net, m - 1), End2(net, m - 1), G(net, m - 1);
      CurrentPower(a, b, g, n, x);
      var f, s := k => Mul(At(x, k), Currents(net, m - 1, x, k)), k => Mul(At(x, k), Current(a, b, g, x, k));
      forall k ensures h(k) == f(k) + s(k) { MulPlus(Currents(net, m - 1, x, k), Current(a, b, g, x, k), At(x, k)); }
      hide Mul, At, Current;
      SumPlus(f, s, h, n);
      SumEq(f, k => Mul(At(x, k), Currents(net, m - 1, x, k)), n);
      SumEq(s, k => Mul(At(x, k), Current(a, b, g, x, k)), n);
    }
    SumEq(h, k => Mul(At(x, k), Currents(net, m, x, k)), n);
  }

  lemma {:induction false} DriversPower(nodes: seq<nat>, m: nat, n: nat, x: seq<real>)
    requires m <= |nodes| && forall d | 0 <= d < |nodes| :: nodes[d] < n
    ensures Sum(k => Mul(At(x, k), DriverCurrents(nodes, m, x, k)), n) == DriverPower(nodes, m, x)
  {
    var h := k => Mul(At(x, k), DriverCurrents(nodes, m, x, k));
    if m == 0 {
      forall k ensures h(k) == 0.0 { ZeroMul(At(x, k)); }
      SumEq(h, k => 0.0, n);
      SumNothing(n);
    } else {
      DriversPower(nodes, m - 1, n, x);
      var d := nodes[m - 1];
      var f, s := k => Mul(At(x, k), DriverCurrents(nodes, m - 1, x, k)), k => Mul(At(x, k), Pick(k == d, Mul(0.000001, At(x, k))));
      forall k ensures h(k) == f(k) + s(k) { MulPlus(DriverCurrents(nodes, m - 1, x, k), Pick(k == d, Mul(0.000001, At(x, k))), At(x, k)); }
      forall k | k != d ensures s(k) == 0.0 { ZeroMul(At(x, k)); }
      MulSwap(At(x, d));
      hide Mul, At;
      SumUnit(s, d, n);
      SumPlus(f, s, h, n);
      SumEq(f, k => Mul(At(x, k), DriverCurrents(nodes, m - 1, x, k)), n);
    }
    SumEq(h, k => Mul(At(x, k), DriverCurrents(nodes, m, x, k)), n);
  }

  lemma MulSwap(v: real)
    ensures Mul(v, Mul(0.000001, v)) == Mul(0.000001, Mul(v, v))
  {}

  /** x'Gx is the power taken: (x1 - x2)^2 / R in every resistor and 1e-6 x^2 at every driver. */
  lemma {:induction false} QuadraticForm(net: Network, drivers: seq<nat>, x: seq<real>)
    requires Resistive(net) && forall d | 0 <= d < |drivers| :: drivers[d] < NodeCount(net)
    ensures Form(NodeBlock(net, drivers), NodeCount(net), x, x) == Power(net, |net.resistors|, x) + DriverPower(drivers, |drivers|, x)
  {
    var n, A := NodeCount(net), NodeBlock(net, drivers);
    var f, s := k => Mul(At(x, k), Currents(net, |net.resistors|, x, k)), k => Mul(At(x, k), DriverCurrents(drivers, |drivers|, x, k));
    var h := k => Mul(At(x, k), Row(A, n, x, k));
    FormProducts(A, n, x, x);
    forall k ensures h(k) == f(k) + s(k) {
      CurrentLaw(net, drivers, x, k);
      MulPlus(Currents(net, |net.resistors|, x, k), DriverCurrents(drivers, |drivers|, x, k), At(x, k));
    }
    hide Mul, At, Row, Form;
    SumPlus(f, s, h, n);
    SumEq(h, k => Mul(At(x, k), Row(A, n, x, k)), n);
    CurrentsPower(net, |net.resistors|, x);
    DriversPower(drivers, |drivers|, n, x);
    SumEq(f, k => Mul(At(x, k), Currents(net, |net.resistors|, x, k)), n);
    SumEq(s, k => Mul(At(x, k), DriverCurrents(drivers, |drivers|, x, k)), n);
  }

  lemma {:induction false} PowerNonNegative(net: Network, m: nat, x: seq<real>)
    requires Resistive(net) && m <= |net.resistors| && PositiveResistors(net)
    ensures Power(net, m, x) >= 0.0
  {
    if m > 0 {
      PowerNonNegative(net, m - 1, x);
      var v := At(x, End1(net, m - 1)) - At(x, End2(net, m - 1));
      if Loops(net.resistors[m - 1]) {
        assert v == 0.0 && Mul(v, v) == 0.0;
        ZeroMul(G(net, m - 1));
      } else {
        assert net.resistors[m - 1].value > 0.0;
        InverseTimesSquare(net.resistors[m - 1].value, v);
      }
    }
  }

  lemma InverseTimesSquare(r: real, v: real)
    requires r > 0.0
    ensures Mul(1.0 / r, Mul(v, v)) >= 0.0
  {
    SquareNonNegative(v);
    InversePositive(r);
    ProductNonNegative(1.0 / r, Mul(v, v));
  }

  lemma SquareNonNegative(v: real)
    ensures Mul(v, v) >= 0.0
  {}

  lemma InversePositive(r: real)
    requires r > 0.0
    ensures 1.0 / r > 0.0
  {}

  lemma ProductNonNegative(x: real, y: real)
    requires x >= 0.0 && y >= 0.0
    ensures Mul(x, y) >= 0.0
  {}

  lemma {:induction false} DriverPowerNonNegative(nodes: seq<nat>, m: nat, x: seq<real>)
    requires m <= |nodes|
    ensures DriverPower(nodes, m, x) >= 0.0
  {
    if m > 0 {
      DriverPowerNonNegative(nodes, m - 1, x);
      SquareNonNegative(At(x, nodes[m - 1]));
      ProductNonNegative(0.000001, Mul(At(x, nodes[m - 1]), At(x, nodes[m - 1])));
    }
  }

  /** With positive resistances the node block is positive semidefinite. */
  lemma {:induction false} PositiveSemidefinite(net: Network, drivers: seq<nat>, x: seq<real>)
    requires Resistive(net) && (forall d | 0 <= d < |drivers| :: drivers[d] < NodeCount(net))
    requires PositiveResistors(net)
    ensures Form(NodeBlock(net, drivers), NodeCount(net), x, x) >= 0.0
  {
    QuadraticForm(net, drivers, x);
    PowerNonNegative(net, |net.resistors|, x);
    DriverPowerNonNegative(drivers, |drivers|, x);
    hide Form, Power, DriverPower;
  }

  lemma {:induction false} EntrySymmetric(net: Network, m: nat, i: int, j: int)
    requires Resistive(net) && m <= |net.resistors|
    ensures Entry(net, m, i, j) == Entry(net, m, j, i)
  {
    if m > 0 { EntrySymmetric(net, m - 1, i, j); }
  }

  lemma {:induction false} DriverEntrySymmetric(nodes: seq<nat>, m: nat, i: int, j: int)
    requires m <= |nodes|
    ensures DriverEntry(nodes, m, i, j) == DriverEntry(nodes, m, j, i)
  {
    if m > 0 { DriverEntrySymmetric(nodes, m - 1, i, j); }
  }

  lemma {:induction false} NodeBlockSymmetric(net: Network, drivers: seq<nat>)
    requires Resistive(net)
    ensures Symmetric(NodeBlock(net, drivers))
  {
    forall i, j ensures NodeBlock(net, drivers)(i, j) == NodeBlock(net, drivers)(j, i) {
      EntrySymmetric(net, |net.resistors|, i, j);
      DriverEntrySymmetric(drivers, |drivers|, i, j);
    }
  }
}
