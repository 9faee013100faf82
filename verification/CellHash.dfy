/** The cell hash that sorts cells into buckets: sums of 32-bit products, so independent of port order. */
module CellHash {
  import opened Common
  import opened FuncExpr
  import opened CellEquiv

  const M := 0x1_0000_0000

  /** Any string hash will do. */
  type StringHash = string -> nat

  function HashPort(p: Port, hs: StringHash): int { (hs(p.name) * 3 + p.dir * 5) % M }

  function HashPgPort(p: PgPort, hs: StringHash): int { (hs(p.name) * 3 + p.pgType * 5) % M }

  /** (1 << op) - 1 */
  function OpFactor(e: Expr<Port>): int { if e.Or? then 3 else if e.And? then 7 else 15 }

  /** The constants have no operands, so they hash to zero. */
  function HashExpr(e: Expr<Port>, hs: StringHash): int {
    match e
    case Null => 0
    case Ref(p) => HashPort(p, hs) * 17 % M
    case Not(l) => HashExpr(l, hs) * 31 % M
    case Or(l, r) => (HashExpr(l, hs) + HashExpr(r, hs)) * OpFactor(e) % M
    case And(l, r) => (HashExpr(l, hs) + HashExpr(r, hs)) * OpFactor(e) % M
    case Xor(l, r) => (HashExpr(l, hs) + HashExpr(r, hs)) * OpFactor(e) % M
    case One => 0
    case Zero => 0
  }

  /** What a port, a sequential, a state table row adds to the hash, before wrap-around. */
  function PortTerm(p: CellPort, hs: StringHash): int { HashPort(p.port, hs) + HashExpr(p.function_, hs) * 3 + HashExpr(p.enable, hs) * 5 }

  function SharedTerm(s: Sequential, hs: StringHash): int {
    HashExpr(s.clock, hs) * 5 + HashExpr(s.data, hs) * 7 + HashPort(s.output, hs) * 9 + HashPort(s.outputInv, hs) * 11
    + HashExpr(s.clear, hs) * 13 + HashExpr(s.preset, hs) * 17
  }

  /** What the hash reads and equivalence does not: the register flag and the clear/preset outputs. */
  function Residual(s: Sequential): int {
    (if s.isRegister then 1 else 0) * 3 + s.clearPresetOutput * 19 + s.clearPresetOutputInv * 23
  }

  /** A loop that adds terms, wrapping at each step, is the sum wrapped once. */
  method SumHash<T>(s: seq<T>, h: T -> int) returns (hash: int)
    ensures hash == Total(s, h) % M
  {
    hash := 0;
    var i := 0;
    while i < |s|
      invariant 0 <= i <= |s| && hash == Total(s[..i], h) % M
    {
      TotalSnoc(s, i, h);
      WrapAdd(Total(s[..i], h), h(s[i]));
      hash := (hash + h(s[i])) % M;
      i := i + 1;
    }
    assert s[..i] == s;
  }

  lemma {:induction false} TotalSnoc<T>(s: seq<T>, i: nat, h: T -> int)
    requires i < |s|
    ensures Total(s[..i + 1], h) == Total(s[..i], h) + h(s[i])
  {
    TotalSplit(s[..i + 1], i, h);
    assert s[..i + 1][..i] + s[..i + 1][i + 1..] == s[..i];
  }

  lemma WrapAdd(a: int, b: int)
    ensures (a % M + b) % M == (a + b) % M
  {}

  // ---- equivalent parts hash alike -----------------------------------------------------------

  lemma {:induction false} ExprHashAgrees(a: Expr<Port>, b: Expr<Port>, hs: StringHash)
    requires Equiv(a, b)
    ensures HashExpr(a, hs) == HashExpr(b, hs)
  {
    hide HashPort;
    if a.Ref? {
      PortHashAgrees(a.port, b.port, hs);
    } else if a.Not? {
      ExprHashAgrees(a.left, b.left, hs);
    } else if Binary(a) {
      ExprHashAgrees(a.left, b.left, hs);
      ExprHashAgrees(a.right, b.right, hs);
      assert OpFactor(a) == OpFactor(b);
      hide OpFactor;
    }
  }

  lemma PortHashAgrees(p: Port, q: Port, hs: StringHash)
    requires PortEquiv(p, q)
    ensures HashPort(p, hs) == HashPort(q, hs)
  {}

  lemma PortTermAgrees(p: CellPort, q: CellPort, hs: StringHash)
    requires CellPortEquiv(p, q)
    ensures PortTerm(p, hs) == PortTerm(q, hs)
  {
    ExprHashAgrees(p.function_, q.function_, hs);
    ExprHashAgrees(p.enable, q.enable, hs);
  }

  lemma SharedTermAgrees(s: Sequential, t: Sequential, hs: StringHash)
    requires SequentialEquiv(s, t)
    ensures SharedTerm(s, hs) == SharedTerm(t, hs)
  {
    ExprHashAgrees(s.clock, t.clock, hs);
    ExprHashAgrees(s.data, t.data, hs);
    ExprHashAgrees(s.clear, t.clear, hs);
    ExprHashAgrees(s.preset, t.preset, hs);
  }

  // ---- the hash of a cell --------------------------------------------------------------------

  function HashSequential(s: Sequential, hs: StringHash): int { (SharedTerm(s, hs) + Residual(s)) % M }

  ghost function HashRow(r: Row): int {
    (Total(r.inputs, v => v * 9) + Total(r.current, v => v * 11) + Total(r.next, v => v * 13)) % M
  }

  ghost function HashStatetable(t: Option<Statetable>, hs: StringHash): int {
    if t.None? then 0
    else (Total(t.value.inputs, p => HashPort(p, hs)) % M * 3 + Total(t.value.internals, p => HashPort(p, hs)) % M * 5 + Total(t.value.rows, r => HashRow(r)) % M * 7) % M
  }

  ghost function PortsTotal(c: Cell, hs: StringHash): int { Total(c.ports, p => PortTerm(p, hs)) }
  ghost function PgTotal(c: Cell, hs: StringHash): int { Total(c.pgPorts, p => HashPgPort(p, hs)) }
  ghost function SequentialsTotal(c: Cell, hs: StringHash): int { Total(c.sequentials, s => HashSequential(s, hs)) }
  ghost function SharedTotal(c: Cell, hs: StringHash): int { Total(c.sequentials, s => SharedTerm(s, hs)) }
  ghost function ResidualTotal(c: Cell): int { Total(c.sequentials, s => Residual(s)) }

  ghost function HashCell(c: Cell, hs: StringHash): int {
    (PortsTotal(c, hs) + PgTotal(c, hs) + SequentialsTotal(c, hs) + HashStatetable(c.statetable, hs)) % M
  }

  method HashStatetableRow(r: Row) returns (hash: int)
    ensures hash == HashRow(r)
  {
    var inputs := SumHash(r.inputs, v => v * 9);
    var current := SumHash(r.current, v => v * 11);
    var next := SumHash(r.next, v => v * 13);
    hash := (inputs + current + next) % M;
    Wrap3(Total(r.inputs, v => v * 9), Total(r.current, v => v * 11), Total(r.next, v => v * 13));
  }

  lemma Wrap3(a: int, b: int, c: int)
    ensures (a % M + b % M + c % M) % M == (a + b + c) % M
  {}

  method HashStatetableOf(t: Option<Statetable>, hs: StringHash) returns (hash: int)
    ensures hash == HashStatetable(t, hs)
  {
    if t.None? { return 0; }
    var inputs := SumHash(t.value.inputs, p => HashPort(p, hs));
    var internals := SumHash(t.value.internals, p => HashPort(p, hs));
    var rows, i := 0, 0;
    while i < |t.value.rows|
      invariant 0 <= i <= |t.value.rows| && rows == Total(t.value.rows[..i], r => HashRow(r)) % M
    {
      var row := HashStatetableRow(t.value.rows[i]);
      TotalSnoc(t.value.rows, i, r => HashRow(r));
      WrapAdd(Total(t.value.rows[..i], r => HashRow(r)), row);
      rows := (rows + row) % M;
      i := i + 1;
    }
    assert t.value.rows[..i] == t.value.rows;
    hash := (inputs * 3 + internals * 5 + rows * 7) % M;
  }

  method HashCellOf(c: Cell, hs: StringHash) returns (hash: int)
    ensures hash == HashCell(c, hs)
  {
    var ports := SumHash(c.ports, p => PortTerm(p, hs));
    var pgPorts := SumHash(c.pgPorts, p => HashPgPort(p, hs));
    var sequentials := SumHash(c.sequentials, s => HashSequential(s, hs));
    var statetable := HashStatetableOf(c.statetable, hs);
    hash := (ports + pgPorts + (sequentials + statetable) % M) % M;
    Wrap4(PortsTotal(c, hs), PgTotal(c, hs), SequentialsTotal(c, hs), statetable);
  }

  lemma Wrap4(a: int, b: int, c: int, d: int)
    ensures (a % M + b % M + (c % M + d) % M) % M == (a + b + c + d) % M
  {}

  // ---- equivalence and hash ------------------------------------------------------------------

  lemma {:induction false} PointwiseTotal<T>(a: seq<T>, b: seq<T>, rel: (T, T) -> bool, h: T -> int)
    requires Pointwise(a, b, rel) && forall x, y :: rel(x, y) ==> h(x) == h(y)
    ensures Total(a, h) == Total(b, h)
  {
    if |a| > 0 {
      assert rel(a[0], b[0]);
      assert Pointwise(a[1..], b[1..], rel) by {
        forall i | 0 <= i < |a| - 1 ensures rel(a[1..][i], b[1..][i]) { assert rel(a[i + 1], b[i + 1]); }
      }
      PointwiseTotal(a[1..], b[1..], rel, h);
    }
  }

  /** Summing wrapped terms, each of two parts. */
  lemma {:induction false} TotalParts(s: seq<Sequential>, hs: StringHash)
    ensures Total(s, x => HashSequential(x, hs)) % M == (Total(s, x => SharedTerm(x, hs)) + Total(s, x => Residual(x))) % M
  {
    if |s| > 0 {
      TotalParts(s[1..], hs);
      hide SharedTerm, Residual;
      var t, u, r := Total(s[1..], x => HashSequential(x, hs)), Total(s[1..], x => SharedTerm(x, hs)), Total(s[1..], x => Residual(x));
      AddParts(SharedTerm(s[0], hs), Residual(s[0]), t, u, r);
    }
  }

  lemma AddParts(a: int, b: int, t: int, u: int, r: int)
    requires t % M == (u + r) % M
    ensures ((a + b) % M + t) % M == ((a + u) + (b + r)) % M
  {}

  /** What the ports of c1 named like a bit of c2 add, and the listed ports of c2 that c1 does not list. */
  ghost function ClashTerm(c2: Cell, hs: StringHash, p: CellPort): int { if Named(c2.bits, p.port.name) then PortTerm(p, hs) else 0 }
  ghost function UnlistedTerm(c1: Cell, hs: StringHash, p: CellPort): int { if Named(c1.ports, p.port.name) then 0 else PortTerm(p, hs) }
  ghost function ClashTotal(c1: Cell, c2: Cell, hs: StringHash): int { Total(c1.ports, p => ClashTerm(c2, hs, p)) }
  ghost function UnlistedTotal(c1: Cell, c2: Cell, hs: StringHash): int { Total(c2.ports, p => UnlistedTerm(c1, hs, p)) }

  /** In equivalent cells a listed port is matched to a listed port exactly unless it has the name of a bit. */
  lemma {:induction false} ListedMatch(c1: Cell, c2: Cell, i: nat)
    requires WellFormed(c2) && EquivPorts(c1, c2) && i < |c1.ports|
    ensures Has(c2.ports, c1.ports[i], CellPortEquiv) <==> !Named(c2.bits, c1.ports[i].port.name)
  {
    var p := c1.ports[i];
    assert Has(Findable(c2), p, CellPortEquiv);
    FoundIff(p, c2);
    if Has(c2.bits, p, CellPortEquiv) { HasNamed(c2.bits, p); }
    forall k, j | 0 <= k < |c2.ports| && 0 <= j < |c2.bits| ensures c2.ports[k].port.name != c2.bits[j].port.name {
      assert Findable(c2)[k] == c2.ports[k] && Findable(c2)[|c2.ports| + j] == c2.bits[j];
    }
  }

  lemma {:induction false} ListedMatched(c1: Cell, c2: Cell, k: nat)
    requires WellFormed(c2) && EquivPorts(c1, c2) && k < |c2.ports|
    ensures Matched(c1.ports, c2.ports[k], CellPortEquiv) <==> Named(c1.ports, c2.ports[k].port.name)
  {
    if Named(c1.ports, c2.ports[k].port.name) {
      var i :| 0 <= i < |c1.ports| && c1.ports[i].port.name == c2.ports[k].port.name;
      assert Has(Findable(c2), c1.ports[i], CellPortEquiv);
      FoundByName(c1.ports[i], c2, k);
    }
  }

  lemma {:induction false} NamesSeparateBack(c: Cell, a: seq<CellPort>)
    requires WellFormed(c)
    ensures Separate(c.ports, a, (q, p) => CellPortEquiv(p, q))
  {
    forall i, j, k | 0 <= i < |c.ports| && 0 <= j < |c.ports| && 0 <= k < |a| && CellPortEquiv(a[k], c.ports[i]) && CellPortEquiv(a[k], c.ports[j]) ensures i == j {
      assert Findable(c)[i] == c.ports[i] && Findable(c)[j] == c.ports[j];
    }
  }

  /** The port terms of equivalent cells differ by those of the ports that were not matched to a listed port. */
  lemma {:induction false} PortsHashDiffer(c1: Cell, c2: Cell, hs: StringHash)
    requires WellFormed(c1) && WellFormed(c2) && EquivPorts(c1, c2)
    ensures PortsTotal(c1, hs) - ClashTotal(c1, c2, hs) == PortsTotal(c2, hs) - UnlistedTotal(c1, c2, hs)
  {
    var h, rel := p => PortTerm(p, hs), CellPortEquiv;
    NamesSeparate(c1, c2.ports);
    NamesSeparateBack(c2, c1.ports);
    forall p, q | CellPortEquiv(p, q) ensures h(p) == h(q) { PortTermAgrees(p, q, hs); }
    forall i | 0 <= i < |c1.ports|
      ensures TermIfHas(c2.ports, rel, h, c1.ports[i]) == PortTerm(c1.ports[i], hs) - ClashTerm(c2, hs, c1.ports[i])
    {
      ListedMatch(c1, c2, i);
    }
    forall k | 0 <= k < |c2.ports|
      ensures TermIfMatched(c1.ports, rel, h, c2.ports[k]) == PortTerm(c2.ports[k], hs) - UnlistedTerm(c1, hs, c2.ports[k])
    {
      ListedMatched(c1, c2, k);
    }
    hide CellPortEquiv, PortTerm, AllIn, Separate, WellFormed, TermIfHas, TermIfMatched, ClashTerm, UnlistedTerm;
    MatchedTotals(c1.ports, c2.ports, rel, h);
    TotalEq(c1.ports, p => TermIfHas(c2.ports, rel, h, p), p => PortTerm(p, hs) - ClashTerm(c2, hs, p));
    TotalEq(c2.ports, p => TermIfMatched(c1.ports, rel, h, p), p => PortTerm(p, hs) - UnlistedTerm(c1, hs, p));
    TotalAdd(c1.ports, p => PortTerm(p, hs) - ClashTerm(c2, hs, p), p => ClashTerm(c2, hs, p), h);
    TotalAdd(c2.ports, p => PortTerm(p, hs) - UnlistedTerm(c1, hs, p), p => UnlistedTerm(c1, hs, p), h);
  }

  lemma {:induction false} PgHashAgrees(c1: Cell, c2: Cell, hs: StringHash)
    requires WellFormed(c1) && EquivPgPorts(c1, c2)
    ensures PgTotal(c1, hs) == PgTotal(c2, hs)
  {
    PgSeparate(c1, c2.pgPorts);
    Matching(c1.pgPorts, c2.pgPorts, PgPortEquiv, p => HashPgPort(p, hs));
  }

  lemma {:induction false} SharedHashAgrees(c1: Cell, c2: Cell, hs: StringHash)
    requires Pointwise(c1.sequentials, c2.sequentials, SequentialEquiv)
    ensures SharedTotal(c1, hs) == SharedTotal(c2, hs)
  {
    var h := s => SharedTerm(s, hs);
    forall s, t | SequentialEquiv(s, t) ensures h(s) == h(t) { SharedTermAgrees(s, t, hs); }
    hide SequentialEquiv, SharedTerm, Pointwise;
    PointwiseTotal(c1.sequentials, c2.sequentials, SequentialEquiv, h);
  }

  lemma {:induction false} StatetableHashAgrees(s: Option<Statetable>, t: Option<Statetable>, hs: StringHash)
    requires StatetableEquiv(s, t)
    ensures HashStatetable(s, hs) == HashStatetable(t, hs)
  {
    if s.Some? {
      var h := p => HashPort(p, hs);
      PointwiseTotal(s.value.inputs, t.value.inputs, PortEquiv, h);
      PointwiseTotal(s.value.internals, t.value.internals, PortEquiv, h);
      PointwiseTotal(s.value.rows, t.value.rows, RowEquiv, r => HashRow(r));
    }
  }

  lemma WrapSum(p: int, s: int, t: int, b: int)
    requires s % M == t % M
    ensures (p + s + b) % M == (p + t + b) % M
  {}

  /** What every equivalent cell adds alike, apart from the ports. */
  ghost function CommonTotal(c: Cell, hs: StringHash): int { PgTotal(c, hs) + SharedTotal(c, hs) + HashStatetable(c.statetable, hs) }

  lemma HashParts(c: Cell, hs: StringHash)
    ensures HashCell(c, hs) == (CommonTotal(c, hs) + (PortsTotal(c, hs) + ResidualTotal(c))) % M
  {
    TotalParts(c.sequentials, hs);
    hide PortsTotal, PgTotal, HashStatetable, Total;
    WrapSum(PortsTotal(c, hs) + PgTotal(c, hs), SequentialsTotal(c, hs), SharedTotal(c, hs) + ResidualTotal(c), HashStatetable(c.statetable, hs));
  }

  lemma ShiftIff(z: int, r: int, r': int)
    ensures (z + r) % M == (z + r') % M <==> r % M == r' % M
  {
    assert (z + r) % M == (z + r') % M <==> (r - r') % M == 0;
    assert r % M == r' % M <==> (r - r') % M == 0;
  }

  lemma CommonAgrees(c1: Cell, c2: Cell, hs: StringHash)
    requires WellFormed(c1) && EquivCells(c1, c2)
    ensures CommonTotal(c1, hs) == CommonTotal(c2, hs)
  {
    hide WellFormed, HashStatetable, StatetableEquiv, Pointwise, EquivPgPorts, EquivPorts, EquivArcSets;
    PgHashAgrees(c1, c2, hs);
    SharedHashAgrees(c1, c2, hs);
    StatetableHashAgrees(c1.statetable, c2.statetable, hs);
  }

  /** Equivalent cells hash alike, whatever the order of their ports, exactly when what only the hash reads agrees: the register
      flags and clear/preset outputs, and the listed ports that were not compared with a listed port. */
  lemma {:induction false} HashAgreesIff(c1: Cell, c2: Cell, hs: StringHash)
    requires WellFormed(c1) && WellFormed(c2) && EquivCells(c1, c2)
    ensures HashCell(c1, hs) == HashCell(c2, hs)
            <==> (ClashTotal(c1, c2, hs) + ResidualTotal(c1)) % M == (UnlistedTotal(c1, c2, hs) + ResidualTotal(c2)) % M
  {
    CommonAgrees(c1, c2, hs);
    PortsHashDiffer(c1, c2, hs);
    HashParts(c1, hs);
    HashParts(c2, hs);
    hide EquivCells, WellFormed, HashCell, CommonTotal, ClashTotal, UnlistedTotal, PortsTotal, ResidualTotal;
    var common := CommonTotal(c1, hs) + PortsTotal(c1, hs) - ClashTotal(c1, c2, hs);
    ShiftIff(common, ClashTotal(c1, c2, hs) + ResidualTotal(c1), UnlistedTotal(c1, c2, hs) + ResidualTotal(c2));
    assert common + (ClashTotal(c1, c2, hs) + ResidualTotal(c1)) == CommonTotal(c1, hs) + (PortsTotal(c1, hs) + ResidualTotal(c1));
    assert common + (UnlistedTotal(c1, c2, hs) + ResidualTotal(c2)) == CommonTotal(c2, hs) + (PortsTotal(c2, hs) + ResidualTotal(c2));
  }

  /** No listed port of c1 has the name of a bit of c2: then the ports add the same. */
  lemma {:induction false} NothingLeftOver(c1: Cell, c2: Cell, hs: StringHash)
    requires WellFormed(c1) && WellFormed(c2) && EquivPorts(c1, c2)
    requires forall i | 0 <= i < |c1.ports| :: !Named(c2.bits, c1.ports[i].port.name)
    ensures ClashTotal(c1, c2, hs) == UnlistedTotal(c1, c2, hs) == 0
  {
    TotalZero(c1.ports, p => ClashTerm(c2, hs, p));
    forall i | 0 <= i < |c1.ports| ensures Has(c2.ports, c1.ports[i], CellPortEquiv) { ListedMatch(c1, c2, i); }
    NamesSeparate(c1, c2.ports);
    Matching(c1.ports, c2.ports, CellPortEquiv, _ => 0);
    forall k | 0 <= k < |c2.ports| ensures UnlistedTerm(c1, hs, c2.ports[k]) == 0 { ListedMatched(c1, c2, k); }
    TotalZero(c2.ports, p => UnlistedTerm(c1, hs, p));
  }

  /** A register and a latch that agree in all else are equivalent, but land in different buckets. */
  lemma {:induction false} HashNotDetermined(hs: StringHash) returns (c1: Cell, c2: Cell)
    ensures WellFormed(c1) && WellFormed(c2) && EquivCells(c1, c2) && HashCell(c1, hs) != HashCell(c2, hs)
  {
    var q := Port(0, "Q", 0);
    var register := Sequential(true, Null, Null, q, q, Null, Null, 0, 0);
    c1 := Cell([], [], [], [register], Option.None, []);
    c2 := Cell([], [], [], [register.(isRegister := false)], Option.None, []);
    assert EquivCells(c1, c2);
    HashAgreesIff(c1, c2, hs);
    NothingLeftOver(c1, c2, hs);
    hide EquivCells, HashCell, WellFormed, HashExpr, ClashTotal, UnlistedTotal;
    TotalOne(register, s => Residual(s));
    TotalOne(register.(isRegister := false), s => Residual(s));
  }

  lemma TotalOne<T>(x: T, h: T -> int)
    ensures Total([x], h) == h(x)
  {
    assert [x][1..] == [];
  }

  function ExampleCell(): Cell {
    var a, z := Port(0, "A", 0), Port(1, "Z", 1);
    Cell([CellPort(a, Null, Null), CellPort(z, And(Ref(a), Not(Ref(a))), Ref(a))], [], [PgPort("VDD", 1)],
         [Sequential(true, Ref(a), Not(Ref(a)), z, a, Ref(a), Null, 2, 1)],
         Some(Statetable([a], [z], [Row([1], [2], [3])])), [])
  }

  /** The parts of one hash; that of Z wraps. */
  lemma ExampleParts(hs: StringHash)
    requires hs("A") == 10 && hs("Z") == 1431655765 && hs("VDD") == 7
    ensures var a, z := Port(0, "A", 0), Port(1, "Z", 1);
            HashPort(a, hs) == 30 && HashPort(z, hs) == 4 && HashExpr(Ref(a), hs) == 510 && HashExpr(Not(Ref(a)), hs) == 15810
            && HashExpr(Or(Ref(a), Not(Ref(a))), hs) == 48960 && HashExpr(And(Ref(a), Not(Ref(a))), hs) == 114240
            && HashExpr(Xor(Ref(a), Not(Ref(a))), hs) == 244800
  {
    var a, z := Port(0, "A", 0), Port(1, "Z", 1);
    assert HashExpr(Ref(a), hs) == 510;
    assert HashExpr(Not(Ref(a)), hs) == 15810;
  }

  lemma ExamplePorts(hs: StringHash)
    requires hs("A") == 10 && hs("Z") == 1431655765 && hs("VDD") == 7
    ensures PortsTotal(ExampleCell(), hs) == 345304 && PgTotal(ExampleCell(), hs) == 26
  {
    var c := ExampleCell();
    ExampleParts(hs);
    TotalTwo(c.ports[0], c.ports[1], p => PortTerm(p, hs));
    TotalOne(c.pgPorts[0], p => HashPgPort(p, hs));
  }

  lemma ExampleSequential(hs: StringHash)
    requires hs("A") == 10 && hs("Z") == 1431655765 && hs("VDD") == 7
    ensures SequentialsTotal(ExampleCell(), hs) == 120280
  {
    var c := ExampleCell();
    ExampleParts(hs);
    TotalOne(c.sequentials[0], s => HashSequential(s, hs));
    assert HashExpr(Null, hs) == 0;
  }

  lemma ExampleRow()
    ensures HashRow(Row([1], [2], [3])) == 70
  {
    TotalOne(1, v => v * 9);
    TotalOne(2, v => v * 11);
    TotalOne(3, v => v * 13);
  }

  lemma ExampleTable(hs: StringHash)
    requires hs("A") == 10 && hs("Z") == 1431655765 && hs("VDD") == 7
    ensures HashStatetable(ExampleCell().statetable, hs) == 600
  {
    var t := ExampleCell().statetable.value;
    ExampleParts(hs);
    ExampleRow();
    hide HashExpr, HashPort, HashRow;
    TotalOne(t.inputs[0], p => HashPort(p, hs));
    TotalOne(t.internals[0], p => HashPort(p, hs));
    TotalOne(t.rows[0], r => HashRow(r));
  }

  /** A cell with one of everything: ports, power port, register and state table. */
  method HashExample(hs: StringHash) returns (hash: int)
    requires hs("A") == 10 && hs("Z") == 1431655765 && hs("VDD") == 7
    ensures hash == 345304 + 26 + 120280 + 600
  {
    hide PortsTotal, PgTotal, SequentialsTotal, HashStatetable;
    hash := HashCellOf(ExampleCell(), hs);
    ExamplePorts(hs);
    ExampleSequential(hs);
    ExampleTable(hs);
  }

  lemma TotalTwo<T>(x: T, y: T, h: T -> int)
    ensures Total([x, y], h) == h(x) + h(y)
  {
    assert [x, y][1..] == [y];
    TotalOne(y, h);
  }
}
