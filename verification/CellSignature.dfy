/** What two equivalent cells have in common, field by field. */
module CellSignature {
  import opened Common
  import opened FuncExpr
  import opened CellEquiv
  import opened CellHash
  import opened EquivIndex

  // ---- a part as the value of its compared fields --------------------------------------------

  function NameOf(p: Port): (string, nat) { (p.name, p.dir) }

  /** Name and direction, function, enable. */
  function PortSign(p: CellPort): ((string, nat), Expr<(string, nat)>, Expr<(string, nat)>) {
    (NameOf(p.port), Shape(p.function_), Shape(p.enable))
  }

  function PgPortSign(p: PgPort): (string, nat) { (p.name, p.pgType) }

  datatype SequentialSign = SequentialSign(clock: Expr<(string, nat)>, data: Expr<(string, nat)>, output: (string, nat), outputInv: (string, nat),
                                           clear: Expr<(string, nat)>, preset: Expr<(string, nat)>)

  function SignOf(s: Sequential): SequentialSign {
    SequentialSign(Shape(s.clock), Shape(s.data), NameOf(s.output), NameOf(s.outputInv), Shape(s.clear), Shape(s.preset))
  }

  datatype ArcSetSign = ArcSetSign(from: (string, nat), to: (string, nat), role: nat, cond: Expr<(string, nat)>,
                                   sdfCond: Option<string>, sdfCondStart: Option<string>, sdfCondEnd: Option<string>,
                                   modeName: Option<string>, modeValue: Option<string>, arcs: seq<Arc>)

  function ArcSign(s: ArcSet): ArcSetSign {
    ArcSetSign(NameOf(s.from), NameOf(s.to), s.role, Shape(s.cond), s.sdfCond, s.sdfCondStart, s.sdfCondEnd, s.modeName, s.modeValue, s.arcs)
  }

  // ---- lists of parts ------------------------------------------------------------------------

  ghost function Signs<T, S>(s: seq<T>, sign: T -> S): set<S> { set k | 0 <= k < |s| :: sign(s[k]) }

  ghost function InOrder<T, S>(s: seq<T>, sign: T -> S): seq<S> { seq(|s|, k requires 0 <= k < |s| => sign(s[k])) }

  /** A relation that is equality of signs: one list inside another, and lists alike element by element. */
  lemma {:induction false} AllInIff<T, S>(a: seq<T>, b: seq<T>, rel: (T, T) -> bool, sign: T -> S)
    requires forall x, y :: rel(x, y) <==> sign(x) == sign(y)
    ensures AllIn(a, b, rel) <==> Signs(a, sign) <= Signs(b, sign)
  {
    if AllIn(a, b, rel) {
      forall z | z in Signs(a, sign) ensures z in Signs(b, sign) {
        var i :| 0 <= i < |a| && sign(a[i]) == z;
        assert Has(b, a[i], rel);
        var k :| 0 <= k < |b| && rel(a[i], b[k]);
      }
    }
    if Signs(a, sign) <= Signs(b, sign) {
      forall i | 0 <= i < |a| ensures Has(b, a[i], rel) {
        assert sign(a[i]) in Signs(b, sign);
        var k :| 0 <= k < |b| && sign(b[k]) == sign(a[i]);
        assert rel(a[i], b[k]);
      }
    }
  }

  lemma {:induction false} PointwiseIff<T, S>(a: seq<T>, b: seq<T>, rel: (T, T) -> bool, sign: T -> S)
    requires forall x, y :: rel(x, y) <==> sign(x) == sign(y)
    ensures Pointwise(a, b, rel) <==> InOrder(a, sign) == InOrder(b, sign)
  {
    if InOrder(a, sign) == InOrder(b, sign) {
      assert |a| == |InOrder(a, sign)| == |b|;
      forall i | 0 <= i < |a| ensures rel(a[i], b[i]) { assert InOrder(a, sign)[i] == InOrder(b, sign)[i]; }
    }
  }

  // ---- the parts -----------------------------------------------------------------------------

  lemma PortSignIff(p: CellPort, q: CellPort)
    ensures CellPortEquiv(p, q) <==> PortSign(p) == PortSign(q)
  {
    EquivIff(p.function_, q.function_);
    EquivIff(p.enable, q.enable);
  }

  lemma SequentialSignIff(s: Sequential, t: Sequential)
    ensures SequentialEquiv(s, t) <==> SignOf(s) == SignOf(t)
  {
    EquivIff(s.clock, t.clock);
    EquivIff(s.data, t.data);
    EquivIff(s.clear, t.clear);
    EquivIff(s.preset, t.preset);
  }

  lemma ArcSignIff(s: ArcSet, t: ArcSet)
    ensures FoundArcSet(s, t) <==> ArcSign(s) == ArcSign(t)
  {
    FoundIsKey(s, t);
    EquivIff(s.cond, t.cond);
  }

  ghost predicate TablesAlike(s: Option<Statetable>, t: Option<Statetable>) {
    || (s.None? && t.None?)
    || (s.Some? && t.Some? && InOrder(s.value.inputs, NameOf) == InOrder(t.value.inputs, NameOf)
        && InOrder(s.value.internals, NameOf) == InOrder(t.value.internals, NameOf) && s.value.rows == t.value.rows)
  }

  lemma TableSignIff(s: Option<Statetable>, t: Option<Statetable>)
    ensures StatetableEquiv(s, t) <==> TablesAlike(s, t)
  {
    if s.Some? && t.Some? {
      PointwiseIff(s.value.inputs, t.value.inputs, PortEquiv, NameOf);
      PointwiseIff(s.value.internals, t.value.internals, PortEquiv, NameOf);
      RowsIff(s.value.rows, t.value.rows);
    }
  }

  lemma RowsIff(a: seq<Row>, b: seq<Row>)
    ensures Pointwise(a, b, RowEquiv) <==> a == b
  {
    if Pointwise(a, b, RowEquiv) {
      forall i | 0 <= i < |a| ensures a[i] == b[i] { assert RowEquiv(a[i], b[i]); }
    }
  }

  // ---- the cells -----------------------------------------------------------------------------

  /** As many listed ports, power ports and arc sets, each found in the second cell with all its compared fields; the sequentials and
      the state table alike in order. */
  ghost predicate Alike(c1: Cell, c2: Cell) {
    && |c1.ports| == |c2.ports| && Signs(c1.ports, PortSign) <= Signs(c2.ports + c2.bits, PortSign)
    && |c1.pgPorts| == |c2.pgPorts| && Signs(c1.pgPorts, PgPortSign) <= Signs(c2.pgPorts, PgPortSign)
    && InOrder(c1.sequentials, SignOf) == InOrder(c2.sequentials, SignOf)
    && TablesAlike(c1.statetable, c2.statetable)
    && |c1.arcSets| == |c2.arcSets| && Signs(c1.arcSets, ArcSign) <= Signs(c2.arcSets, ArcSign)
  }

  lemma {:induction false} PortsIff(c1: Cell, c2: Cell)
    ensures EquivPorts(c1, c2) <==> |c1.ports| == |c2.ports| && Signs(c1.ports, PortSign) <= Signs(c2.ports + c2.bits, PortSign)
  {
    forall p, q ensures CellPortEquiv(p, q) <==> PortSign(p) == PortSign(q) { PortSignIff(p, q); }
    hide CellPortEquiv, PortSign, AllIn, Signs;
    AllInIff(c1.ports, c2.ports + c2.bits, CellPortEquiv, PortSign);
  }

  lemma {:induction false} SequentialsIff(c1: Cell, c2: Cell)
    ensures Pointwise(c1.sequentials, c2.sequentials, SequentialEquiv) <==> InOrder(c1.sequentials, SignOf) == InOrder(c2.sequentials, SignOf)
  {
    forall s, t ensures SequentialEquiv(s, t) <==> SignOf(s) == SignOf(t) { SequentialSignIff(s, t); }
    hide SequentialEquiv, SignOf, Pointwise, InOrder;
    PointwiseIff(c1.sequentials, c2.sequentials, SequentialEquiv, SignOf);
  }

  lemma {:induction false} ArcSetsIff(c1: Cell, c2: Cell)
    ensures EquivArcSets(c1, c2) <==> |c1.arcSets| == |c2.arcSets| && Signs(c1.arcSets, ArcSign) <= Signs(c2.arcSets, ArcSign)
  {
    forall s, t ensures FoundArcSet(s, t) <==> ArcSign(s) == ArcSign(t) { ArcSignIff(s, t); }
    hide FoundArcSet, ArcSign, AllIn, Signs;
    AllInIff(c1.arcSets, c2.arcSets, FoundArcSet, ArcSign);
  }

  /** Exactly when cells are equivalent, field by field. */
  lemma {:induction false} EquivCellsIff(c1: Cell, c2: Cell)
    ensures EquivCells(c1, c2) <==> Alike(c1, c2)
  {
    PortsIff(c1, c2);
    AllInIff(c1.pgPorts, c2.pgPorts, PgPortEquiv, PgPortSign);
    SequentialsIff(c1, c2);
    TableSignIff(c1.statetable, c2.statetable);
    ArcSetsIff(c1, c2);
    hide EquivPorts, EquivArcSets, Pointwise, StatetableEquiv, TablesAlike, Signs, InOrder, AllIn;
  }

  /** A well-formed cell has the very arc sets and power ports of the cells it is equivalent to. */
  lemma {:induction false} EquivCellsShare(c1: Cell, c2: Cell)
    requires WellFormed(c1) && EquivCells(c1, c2)
    ensures Signs(c1.arcSets, ArcSign) == Signs(c2.arcSets, ArcSign) && Signs(c1.pgPorts, PgPortSign) == Signs(c2.pgPorts, PgPortSign)
  {
    RestSymmetric(c1, c2);
    ArcSetsIff(c1, c2);
    ArcSetsIff(c2, c1);
    AllInIff(c1.pgPorts, c2.pgPorts, PgPortEquiv, PgPortSign);
    AllInIff(c2.pgPorts, c1.pgPorts, PgPortEquiv, PgPortSign);
    hide EquivCells, EquivArcSets, WellFormed, Signs, AllIn, StatetableEquiv;
  }

  // ---- one arc set apart ---------------------------------------------------------------------

  function Buffer(arcs: seq<Arc>): Cell {
    var a, z := Port(0, "A", 0), Port(1, "Z", 1);
    Cell([CellPort(a, Expr.Null, Expr.Null), CellPort(z, Ref(a), Expr.Null)], [], [], [], Option.None,
         [ArcSet(a, z, 0, Expr.Null, Option.None, Option.None, Option.None, Option.None, Option.None, arcs)])
  }

  /** Two cells alike in everything but the arcs of their one arc set are not equivalent. Edges: 0 rises, 1 falls. */
  lemma {:induction false} ArcsApart() returns (c1: Cell, c2: Cell)
    ensures c1 == Buffer([Arc(0, 0), Arc(1, 1)]) && c2 == Buffer([Arc(0, 1), Arc(1, 0)])
    ensures WellFormed(c1) && WellFormed(c2) && !EquivCells(c1, c2) && !EquivCells(c2, c1)
  {
    c1, c2 := Buffer([Arc(0, 0), Arc(1, 1)]), Buffer([Arc(0, 1), Arc(1, 0)]);
    assert Arc(0, 0) != Arc(0, 1) && [Arc(0, 0), Arc(1, 1)][0] == Arc(0, 0) && [Arc(0, 1), Arc(1, 0)][0] == Arc(0, 1);
    BufferSigns([Arc(0, 0), Arc(1, 1)]);
    BufferSigns([Arc(0, 1), Arc(1, 0)]);
    EquivCellsIff(c1, c2);
    EquivCellsIff(c2, c1);
    hide EquivCells, Signs, InOrder, TablesAlike, ArcSign;
    assert |"A"| == |"Z"| == 1 && "A"[0] != "Z"[0];
  }

  lemma BufferSigns(arcs: seq<Arc>)
    ensures Signs(Buffer(arcs).arcSets, ArcSign) == {ArcSign(Buffer(arcs).arcSets[0])} && ArcSign(Buffer(arcs).arcSets[0]).arcs == arcs
  {
    assert ArcSign(Buffer(arcs).arcSets[0]) in Signs(Buffer(arcs).arcSets, ArcSign);
  }

  /** So the index lists neither of them. */
  method BuffersApart(hs: StringHash) returns (lists: seq<seq<CellId>>)
    ensures lists == []
  {
    hide EquivCells, HashCell, Indexed, Bucketed, WellFormed;
    var lib := Library(x => if x == 0 then Buffer([Arc(0, 0), Arc(1, 1)]) else Buffer([Arc(0, 1), Arc(1, 0)]), x => false, hs);
    var index := new EquivCellIndex(lib);
    index.FindEquivCells([0, 1]);
    ghost var c1, c2 := ArcsApart();
    assert Usable([0, 1], lib.dontUse) == [0, 1] by { UsableTwo(lib.dontUse); }
    assert index.seen == [0, 1];
    ghost var rel := index.Rel();
    assert forall x, y | x in index.seen && y in index.seen && x != y :: !rel(x, y);
    NoMatchNoList(index.groups, index.seen, rel);
    lists := index.groups.lists;
  }

  lemma UsableTwo(dontUse: CellId -> bool)
    requires !dontUse(0) && !dontUse(1)
    ensures Usable([0, 1], dontUse) == [0, 1]
  {
    assert [0, 1][1..] == [1] && [1][1..] == [];
  }
}
