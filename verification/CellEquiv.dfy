/** When two library cells can stand in for each other. */
module CellEquiv {
  import opened Common
  import opened FuncExpr

  datatype CellPort = CellPort(port: Port, function_: Expr<Port>, enable: Expr<Port>)
  datatype PgPort = PgPort(name: string, pgType: nat)
  datatype Sequential = Sequential(isRegister: bool, clock: Expr<Port>, data: Expr<Port>, output: Port, outputInv: Port,
                                   clear: Expr<Port>, preset: Expr<Port>, clearPresetOutput: nat, clearPresetOutputInv: nat)
  datatype Row = Row(inputs: seq<nat>, current: seq<nat>, next: seq<nat>)
  datatype Statetable = Statetable(inputs: seq<Port>, internals: seq<Port>, rows: seq<Row>)

  /** Edges by index; from is -1 when the arc has no from edge. */
  datatype Arc = Arc(from: int, to: int)
  datatype ArcSet = ArcSet(from: Port, to: Port, role: nat, cond: Expr<Port>, sdfCond: Option<string>, sdfCondStart: Option<string>,
                           sdfCondEnd: Option<string>, modeName: Option<string>, modeValue: Option<string>, arcs: seq<Arc>)

  /** ports are the listed ports; bits are the bus bits, which can be found by name but are not listed. */
  datatype Cell = Cell(ports: seq<CellPort>, bits: seq<CellPort>, pgPorts: seq<PgPort>, sequentials: seq<Sequential>,
                       statetable: Option<Statetable>, arcSets: seq<ArcSet>)

  // ---- one list inside another ---------------------------------------------------------------

  /** Some element of s matches x. */
  predicate Has<T>(s: seq<T>, x: T, rel: (T, T) -> bool) { exists k | 0 <= k < |s| :: rel(x, s[k]) }

  predicate AllIn<T>(a: seq<T>, b: seq<T>, rel: (T, T) -> bool) { forall i | 0 <= i < |a| :: Has(b, a[i], rel) }

  /** No two elements of a match the same element of b. */
  ghost predicate Separate<T>(a: seq<T>, b: seq<T>, rel: (T, T) -> bool) {
    forall i, j, k | 0 <= i < |a| && 0 <= j < |a| && 0 <= k < |b| && rel(a[i], b[k]) && rel(a[j], b[k]) :: i == j
  }

  ghost function Total<T>(s: seq<T>, h: T -> int): int { if |s| == 0 then 0 else h(s[0]) + Total(s[1..], h) }

  lemma {:induction false} TotalSplit<T>(s: seq<T>, k: nat, h: T -> int)
    requires k < |s|
    ensures Total(s, h) == h(s[k]) + Total(s[..k] + s[k + 1..], h)
  {
    var t := s[..k] + s[k + 1..];
    if k == 0 {
      assert t == s[1..];
    } else {
      TotalSplit(s[1..], k - 1, h);
      assert t[0] == s[0] && t[1..] == s[1..][..k - 1] + s[1..][k..];
    }
  }

  /** The inverse image: some element of a matches y. */
  predicate Matched<T>(a: seq<T>, y: T, rel: (T, T) -> bool) { exists i | 0 <= i < |a| :: rel(a[i], y) }

  /** The first element of a and its match set aside. */
  lemma {:induction false} MatchDropped<T>(a: seq<T>, b: seq<T>, rel: (T, T) -> bool, m: nat)
    requires |a| > 0 && AllIn(a, b, rel) && Separate(a, b, rel) && m < |b| && rel(a[0], b[m])
    ensures AllIn(a[1..], b[..m] + b[m + 1..], rel) && Separate(a[1..], b[..m] + b[m + 1..], rel)
  {
    var a', b' := a[1..], b[..m] + b[m + 1..];
    forall i | 0 <= i < |a'| ensures Has(b', a'[i], rel) {
      assert Has(b, a[i + 1], rel);
      var k :| 0 <= k < |b| && rel(a[i + 1], b[k]);
      assert k != m;
      assert b'[if k < m then k else k - 1] == b[k];
    }
    forall i, j, k | 0 <= i < |a'| && 0 <= j < |a'| && 0 <= k < |b'| && rel(a'[i], b'[k]) && rel(a'[j], b'[k]) ensures i == j {
      assert b'[k] == b[if k < m then k else k + 1];
      assert a'[i] == a[i + 1] && a'[j] == a[j + 1];
    }
  }

  lemma MatchedLater<T>(a: seq<T>, y: T, rel: (T, T) -> bool)
    requires |a| > 0 && Matched(a[1..], y, rel)
    ensures Matched(a, y, rel)
  {
    var i :| 0 <= i < |a| - 1 && rel(a[1..][i], y);
    assert rel(a[i + 1], y);
  }

  lemma {:induction false} TotalEq<T>(s: seq<T>, f: T -> int, g: T -> int)
    requires forall i | 0 <= i < |s| :: f(s[i]) == g(s[i])
    ensures Total(s, f) == Total(s, g)
  {
    if |s| > 0 {
      forall i | 0 <= i < |s| - 1 ensures f(s[1..][i]) == g(s[1..][i]) { assert s[1..][i] == s[i + 1]; }
      TotalEq(s[1..], f, g);
    }
  }

  lemma {:induction false} TotalAdd<T>(s: seq<T>, f: T -> int, g: T -> int, h: T -> int)
    requires forall x :: f(x) + g(x) == h(x)
    ensures Total(s, f) + Total(s, g) == Total(s, h)
  {
    if |s| > 0 { TotalAdd(s[1..], f, g, h); }
  }

  /** The terms of the elements of a that match in b, and of the elements of b that are matched. */
  ghost function TermIfHas<T>(b: seq<T>, rel: (T, T) -> bool, h: T -> int, x: T): int { if Has(b, x, rel) then h(x) else 0 }
  ghost function TermIfMatched<T>(a: seq<T>, rel: (T, T) -> bool, h: T -> int, y: T): int { if Matched(a, y, rel) then h(y) else 0 }

  /** Matches are one to one: then the matched parts of two lists have the same total. */
  lemma {:induction false} MatchedTotals<T>(a: seq<T>, b: seq<T>, rel: (T, T) -> bool, h: T -> int)
    requires Separate(a, b, rel) && Separate(b, a, (y, x) => rel(x, y)) && forall x, y :: rel(x, y) ==> h(x) == h(y)
    ensures Total(a, x => TermIfHas(b, rel, h, x)) == Total(b, y => TermIfMatched(a, rel, h, y))
  {
    if |a| == 0 {
      TotalZero(b, y => TermIfMatched(a, rel, h, y));
    } else if Has(b, a[0], rel) {
      var m :| 0 <= m < |b| && rel(a[0], b[m]);
      var a', b' := a[1..], b[..m] + b[m + 1..];
      PairDropped(a, b, rel, m);
      MatchedTotals(a', b', rel, h);
      TotalEq(a', x => TermIfHas(b, rel, h, x), x => TermIfHas(b', rel, h, x));
      TotalEq(b', y => TermIfMatched(a, rel, h, y), y => TermIfMatched(a', rel, h, y));
      TotalSplit(b, m, y => TermIfMatched(a, rel, h, y));
    } else {
      var a' := a[1..];
      FirstDropped(a, b, rel);
      MatchedTotals(a', b, rel, h);
      TotalEq(b, y => TermIfMatched(a, rel, h, y), y => TermIfMatched(a', rel, h, y));
    }
  }

  lemma {:induction false} TotalZero<T>(s: seq<T>, f: T -> int)
    requires forall i | 0 <= i < |s| :: f(s[i]) == 0
    ensures Total(s, f) == 0
  {
    if |s| > 0 { TotalZero(s[1..], f); }
  }

  lemma {:induction false} MatchedIff<T>(a: seq<T>, y: T, rel: (T, T) -> bool)
    requires |a| > 0
    ensures Matched(a, y, rel) <==> rel(a[0], y) || Matched(a[1..], y, rel)
  {
    if Matched(a[1..], y, rel) { MatchedLater(a, y, rel); }
    if Matched(a, y, rel) && !rel(a[0], y) {
      var i :| 0 <= i < |a| && rel(a[i], y);
      assert a[1..][i - 1] == a[i];
    }
  }

  lemma {:induction false} HasIff<T>(b: seq<T>, m: nat, x: T, rel: (T, T) -> bool)
    requires m < |b|
    ensures Has(b, x, rel) <==> rel(x, b[m]) || Has(b[..m] + b[m + 1..], x, rel)
  {
    var b' := b[..m] + b[m + 1..];
    forall k | 0 <= k < |b| && k != m ensures b'[if k < m then k else k - 1] == b[k] {}
    forall k | 0 <= k < |b'| ensures b'[k] == b[if k < m then k else k + 1] {}
  }

  /** A matched pair set aside: no other element loses or gains a match. */
  lemma {:induction false} PairDropped<T>(a: seq<T>, b: seq<T>, rel: (T, T) -> bool, m: nat)
    requires |a| > 0 && m < |b| && rel(a[0], b[m]) && Separate(a, b, rel) && Separate(b, a, (y, x) => rel(x, y))
    ensures var b' := b[..m] + b[m + 1..]; Separate(a[1..], b', rel) && Separate(b', a[1..], (y, x) => rel(x, y))
    ensures forall i | 0 <= i < |a| - 1 :: Has(b, a[1..][i], rel) <==> Has(b[..m] + b[m + 1..], a[1..][i], rel)
    ensures forall y | y in b[..m] + b[m + 1..] :: Matched(a, y, rel) <==> Matched(a[1..], y, rel)
  {
    var a', b' := a[1..], b[..m] + b[m + 1..];
    forall i | 0 <= i < |a'| ensures a'[i] == a[i + 1] && !rel(a'[i], b[m]) { HasIff(b, m, a'[i], rel); }
    forall k | 0 <= k < |b'| ensures b'[k] == b[if k < m then k else k + 1] && !rel(a[0], b'[k]) { MatchedIff(a, b'[k], rel); }
    forall i | 0 <= i < |a'| ensures Has(b, a'[i], rel) <==> Has(b', a'[i], rel) { HasIff(b, m, a'[i], rel); }
    forall y | y in b' ensures Matched(a, y, rel) <==> Matched(a', y, rel) { MatchedIff(a, y, rel); }
  }

  lemma {:induction false} FirstDropped<T>(a: seq<T>, b: seq<T>, rel: (T, T) -> bool)
    requires |a| > 0 && !Has(b, a[0], rel) && Separate(a, b, rel) && Separate(b, a, (y, x) => rel(x, y))
    ensures Separate(a[1..], b, rel) && Separate(b, a[1..], (y, x) => rel(x, y))
    ensures forall k | 0 <= k < |b| :: Matched(a, b[k], rel) <==> Matched(a[1..], b[k], rel)
  {
    forall i | 0 <= i < |a| - 1 ensures a[1..][i] == a[i + 1] {}
    forall k | 0 <= k < |b| ensures Matched(a, b[k], rel) <==> Matched(a[1..], b[k], rel) { MatchedIff(a, b[k], rel); }
  }

  /** Lists of one length, every element of a with its own match in b: then every element of b is matched, and totals agree. */
  lemma {:induction false} Matching<T>(a: seq<T>, b: seq<T>, rel: (T, T) -> bool, h: T -> int)
    requires |a| == |b| && AllIn(a, b, rel) && Separate(a, b, rel)
    requires forall x, y :: rel(x, y) ==> h(x) == h(y)
    ensures Total(a, h) == Total(b, h)
    ensures forall k | 0 <= k < |b| :: Matched(a, b[k], rel)
  {
    if |a| > 0 {
      assert Has(b, a[0], rel);
      var m :| 0 <= m < |b| && rel(a[0], b[m]);
      var b' := b[..m] + b[m + 1..];
      MatchDropped(a, b, rel, m);
      hide AllIn, Separate;
      Matching(a[1..], b', rel, h);
      TotalSplit(b, m, h);
      forall k | 0 <= k < |b| ensures Matched(a, b[k], rel) {
        if k != m {
          assert b'[if k < m then k else k - 1] == b[k];
          MatchedLater(a, b[k], rel);
        }
      }
    }
  }

  /** A symmetric relation: the match goes both ways. */
  lemma {:induction false} MatchingBack<T>(a: seq<T>, b: seq<T>, rel: (T, T) -> bool)
    requires |a| == |b| && AllIn(a, b, rel) && Separate(a, b, rel) && forall x, y :: rel(x, y) ==> rel(y, x)
    ensures AllIn(b, a, rel)
  {
    Matching(a, b, rel, _ => 0);
    forall k | 0 <= k < |b| ensures Has(a, b[k], rel) {
      assert Matched(a, b[k], rel);
      var i :| 0 <= i < |a| && rel(a[i], b[k]);
      assert rel(b[k], a[i]);
    }
  }

  lemma {:induction false} AllInTransitive<T>(a: seq<T>, b: seq<T>, c: seq<T>, rel: (T, T) -> bool)
    requires AllIn(a, b, rel) && AllIn(b, c, rel) && forall x, y, z :: rel(x, y) && rel(y, z) ==> rel(x, z)
    ensures AllIn(a, c, rel)
  {
    forall i | 0 <= i < |a| ensures Has(c, a[i], rel) {
      assert Has(b, a[i], rel);
      var k :| 0 <= k < |b| && rel(a[i], b[k]);
      assert Has(c, b[k], rel);
      var l :| 0 <= l < |c| && rel(b[k], c[l]);
      assert rel(a[i], c[l]);
    }
  }

  lemma {:induction false} AllInReflexive<T>(a: seq<T>, rel: (T, T) -> bool)
    requires forall x :: rel(x, x)
    ensures AllIn(a, a, rel)
  {
    forall i | 0 <= i < |a| ensures Has(a, a[i], rel) { assert rel(a[i], a[i]); }
  }

  // ---- ports ---------------------------------------------------------------------------------

  predicate CellPortEquiv(p: CellPort, q: CellPort) {
    PortEquiv(p.port, q.port) && Equiv(p.function_, q.function_) && Equiv(p.enable, q.enable)
  }

  predicate PgPortEquiv(p: PgPort, q: PgPort) { p.name == q.name && p.pgType == q.pgType }

  /** Everything findLibertyPort can find. */
  function Findable(c: Cell): seq<CellPort> { c.ports + c.bits }

  /** Each port of cell1, looked up by name in cell2, is equivalent to what is found. Names are unique within a cell. */
  predicate EquivPorts(c1: Cell, c2: Cell) { |c1.ports| == |c2.ports| && AllIn(c1.ports, Findable(c2), CellPortEquiv) }

  predicate EquivPgPorts(c1: Cell, c2: Cell) { |c1.pgPorts| == |c2.pgPorts| && AllIn(c1.pgPorts, c2.pgPorts, PgPortEquiv) }

  // ---- sequentials and state tables ----------------------------------------------------------

  predicate Pointwise<T>(a: seq<T>, b: seq<T>, rel: (T, T) -> bool) { |a| == |b| && forall i | 0 <= i < |a| :: rel(a[i], b[i]) }

  /** The register/latch flag and the clear/preset outputs are not compared. */
  predicate SequentialEquiv(s: Sequential, t: Sequential) {
    && Equiv(s.clock, t.clock) && Equiv(s.data, t.data) && PortEquiv(s.output, t.output) && PortEquiv(s.outputInv, t.outputInv)
    && Equiv(s.clear, t.clear) && Equiv(s.preset, t.preset)
  }

  predicate RowEquiv(r: Row, s: Row) { r.inputs == s.inputs && r.current == s.current && r.next == s.next }

  predicate StatetableEquiv(s: Option<Statetable>, t: Option<Statetable>) {
    || (s.None? && t.None?)
    || (s.Some? && t.Some? && Pointwise(s.value.inputs, t.value.inputs, PortEquiv) && Pointwise(s.value.internals, t.value.internals, PortEquiv)
        && Pointwise(s.value.rows, t.value.rows, RowEquiv))
  }

  // ---- timing arc sets -----------------------------------------------------------------------

  /** A null string comes first. */
  predicate StringLessIf(s: Option<string>, t: Option<string>) {
    (s.None? && t.Some?) || (s.Some? && t.Some? && StringLess(s.value, t.value))
  }

  predicate ArcsLess(a: seq<Arc>, b: seq<Arc>) {
    if |a| < |b| then true
    else if |a| > |b| then false
    else if |a| == 0 then false
    else if a[0].from != b[0].from then a[0].from < b[0].from
    else if a[0].to != b[0].to then a[0].to < b[0].to
    else ArcsLess(a[1..], b[1..])
  }

  /** The order of the map that arc sets are looked up in. */
  predicate ArcSetLess(s: ArcSet, t: ArcSet) {
    if !PortEquiv(s.from, t.from) then PortLess(s.from, t.from)
    else if !PortEquiv(s.to, t.to) then PortLess(s.to, t.to)
    else if s.role != t.role then s.role < t.role
    else if !Equiv(s.cond, t.cond) then Less(s.cond, t.cond)
    else if s.sdfCond != t.sdfCond then StringLessIf(s.sdfCond, t.sdfCond)
    else if s.sdfCondStart != t.sdfCondStart then StringLessIf(s.sdfCondStart, t.sdfCondStart)
    else if s.sdfCondEnd != t.sdfCondEnd then StringLessIf(s.sdfCondEnd, t.sdfCondEnd)
    else if s.modeName != t.modeName then StringLessIf(s.modeName, t.modeName)
    else if s.modeValue != t.modeValue then StringLessIf(s.modeValue, t.modeValue)
    else ArcsLess(s.arcs, t.arcs)
  }

  /** Found under the order: neither is less. */
  predicate SameKey(s: ArcSet, t: ArcSet) { !ArcSetLess(s, t) && !ArcSetLess(t, s) }

  predicate ArcEquiv(a: Arc, b: Arc) { a.from == b.from && a.to == b.to }

  predicate ArcSetEquiv(s: ArcSet, t: ArcSet) {
    && PortEquiv(s.from, t.from) && PortEquiv(s.to, t.to) && s.role == t.role && Equiv(s.cond, t.cond)
    && s.sdfCond == t.sdfCond && s.sdfCondStart == t.sdfCondStart && s.sdfCondEnd == t.sdfCondEnd && Pointwise(s.arcs, t.arcs, ArcEquiv)
  }

  predicate FoundArcSet(s: ArcSet, t: ArcSet) { SameKey(s, t) && ArcSetEquiv(s, t) }

  predicate EquivArcSets(c1: Cell, c2: Cell) { |c1.arcSets| == |c2.arcSets| && AllIn(c1.arcSets, c2.arcSets, FoundArcSet) }

  // ---- cells ---------------------------------------------------------------------------------

  predicate EquivCells(c1: Cell, c2: Cell) {
    && EquivPorts(c1, c2) && EquivPgPorts(c1, c2) && Pointwise(c1.sequentials, c2.sequentials, SequentialEquiv)
    && StatetableEquiv(c1.statetable, c2.statetable) && EquivArcSets(c1, c2)
  }

  /** What cell construction keeps: one port per name, one power port per name, one arc set per key. */
  ghost predicate WellFormed(c: Cell) {
    && (forall i, j | 0 <= i < j < |Findable(c)| :: Findable(c)[i].port.name != Findable(c)[j].port.name)
    && (forall i, j | 0 <= i < j < |c.pgPorts| :: c.pgPorts[i].name != c.pgPorts[j].name)
    && (forall i, j | 0 <= i < j < |c.arcSets| :: !SameKey(c.arcSets[i], c.arcSets[j]))
  }

  /** Some port of s has this name. */
  predicate Named(s: seq<CellPort>, name: string) { exists k | 0 <= k < |s| :: s[k].port.name == name }

  /** Every listed port of c2 that c1 does not list has an equivalent among the bits of c1. */
  predicate BitsAnswer(c1: Cell, c2: Cell) {
    forall k | 0 <= k < |c2.ports| && !Named(c1.ports, c2.ports[k].port.name) :: Has(c1.bits, c2.ports[k], CellPortEquiv)
  }

  /** Every listed port of c1 with the name of a bit of c2 has an equivalent in c3. */
  predicate ClashesReach(c1: Cell, c2: Cell, c3: Cell) {
    forall i | 0 <= i < |c1.ports| && Named(c2.bits, c1.ports[i].port.name) :: Has(Findable(c3), c1.ports[i], CellPortEquiv)
  }

  // ---- the pieces are equivalences -----------------------------------------------------------

  lemma CellPortEquivalence(p: CellPort, q: CellPort, r: CellPort)
    ensures CellPortEquiv(p, p) && (CellPortEquiv(p, q) ==> CellPortEquiv(q, p))
    ensures CellPortEquiv(p, q) && CellPortEquiv(q, r) ==> CellPortEquiv(p, r)
  {
    EquivIsEquivalence(p.function_, q.function_, r.function_);
    EquivIsEquivalence(p.enable, q.enable, r.enable);
  }

  lemma SequentialEquivalence(s: Sequential, t: Sequential, u: Sequential)
    ensures SequentialEquiv(s, s) && (SequentialEquiv(s, t) ==> SequentialEquiv(t, s))
    ensures SequentialEquiv(s, t) && SequentialEquiv(t, u) ==> SequentialEquiv(s, u)
  {
    EquivIsEquivalence(s.clock, t.clock, u.clock);
    EquivIsEquivalence(s.data, t.data, u.data);
    EquivIsEquivalence(s.clear, t.clear, u.clear);
    EquivIsEquivalence(s.preset, t.preset, u.preset);
  }

  lemma {:induction false} ArcsLessTotal(a: seq<Arc>, b: seq<Arc>)
    ensures a == b <==> !ArcsLess(a, b) && !ArcsLess(b, a)
  {
    if |a| == |b| && |a| > 0 {
      ArcsLessTotal(a[1..], b[1..]);
      assert a == [a[0]] + a[1..] && b == [b[0]] + b[1..];
    }
  }

  lemma StringLessIfTotal(s: Option<string>, t: Option<string>)
    ensures s == t <==> !StringLessIf(s, t) && !StringLessIf(t, s)
  {
    if s.Some? && t.Some? { StringLessTotal(s.value, t.value); }
  }

  /** What the map order compares, as an equivalence. */
  predicate KeyEquiv(s: ArcSet, t: ArcSet) {
    && PortEquiv(s.from, t.from) && PortEquiv(s.to, t.to) && s.role == t.role && Equiv(s.cond, t.cond)
    && s.sdfCond == t.sdfCond && s.sdfCondStart == t.sdfCondStart && s.sdfCondEnd == t.sdfCondEnd
    && s.modeName == t.modeName && s.modeValue == t.modeValue && s.arcs == t.arcs
  }

  /** An arc set is found exactly under an equivalent key. */
  lemma SameKeyIff(s: ArcSet, t: ArcSet)
    ensures SameKey(s, t) <==> KeyEquiv(s, t)
  {
    PortOrder(s.from, t.from, s.from);
    PortOrder(s.to, t.to, s.to);
    LessTotal(s.cond, t.cond);
    EquivIsEquivalence(s.cond, t.cond, s.cond);
    EquivIsEquivalence(t.cond, s.cond, t.cond);
    hide PortLess, PortEquiv, Equiv, Less, StringLessIf, ArcsLess;
    StringLessIfTotal(s.sdfCond, t.sdfCond);
    StringLessIfTotal(s.sdfCondStart, t.sdfCondStart);
    StringLessIfTotal(s.sdfCondEnd, t.sdfCondEnd);
    StringLessIfTotal(s.modeName, t.modeName);
    StringLessIfTotal(s.modeValue, t.modeValue);
    ArcsLessTotal(s.arcs, t.arcs);
    PortEquivSymmetric(s.from, t.from);
    PortEquivSymmetric(s.to, t.to);
  }

  lemma PortEquivSymmetric(p: Port, q: Port)
    ensures PortEquiv(p, q) <==> PortEquiv(q, p)
  {}

  /** So whatever is found is also equivalent. */
  lemma FoundIsKey(s: ArcSet, t: ArcSet)
    ensures FoundArcSet(s, t) <==> KeyEquiv(s, t)
  {
    SameKeyIff(s, t);
  }

  lemma FoundEquivalence(s: ArcSet, t: ArcSet, u: ArcSet)
    ensures FoundArcSet(s, s) && (FoundArcSet(s, t) ==> FoundArcSet(t, s))
    ensures FoundArcSet(s, t) && FoundArcSet(t, u) ==> FoundArcSet(s, u)
  {
    FoundIsKey(s, s);
    FoundIsKey(s, t);
    FoundIsKey(t, s);
    FoundIsKey(t, u);
    FoundIsKey(s, u);
    EquivIsEquivalence(s.cond, t.cond, u.cond);
    hide FoundArcSet, Equiv;
  }

  // ---- cell equivalence ----------------------------------------------------------------------

  lemma {:induction false} PointwiseEquivalence<T>(a: seq<T>, b: seq<T>, c: seq<T>, rel: (T, T) -> bool)
    requires forall x, y, z :: rel(x, x) && (rel(x, y) ==> rel(y, x)) && (rel(x, y) && rel(y, z) ==> rel(x, z))
    ensures Pointwise(a, a, rel) && (Pointwise(a, b, rel) ==> Pointwise(b, a, rel))
    ensures Pointwise(a, b, rel) && Pointwise(b, c, rel) ==> Pointwise(a, c, rel)
  {}

  lemma SequentialsEquivalence(a: seq<Sequential>, b: seq<Sequential>, c: seq<Sequential>)
    ensures Pointwise(a, a, SequentialEquiv) && (Pointwise(a, b, SequentialEquiv) ==> Pointwise(b, a, SequentialEquiv))
    ensures Pointwise(a, b, SequentialEquiv) && Pointwise(b, c, SequentialEquiv) ==> Pointwise(a, c, SequentialEquiv)
  {
    forall x, y, z
      ensures SequentialEquiv(x, x) && (SequentialEquiv(x, y) ==> SequentialEquiv(y, x))
              && (SequentialEquiv(x, y) && SequentialEquiv(y, z) ==> SequentialEquiv(x, z))
    {
      SequentialEquivalence(x, y, z);
    }
    hide SequentialEquiv;
    PointwiseEquivalence(a, b, c, SequentialEquiv);
  }

  lemma StatetableEquivalence(s: Option<Statetable>, t: Option<Statetable>, u: Option<Statetable>)
    ensures StatetableEquiv(s, s) && (StatetableEquiv(s, t) ==> StatetableEquiv(t, s))
    ensures StatetableEquiv(s, t) && StatetableEquiv(t, u) ==> StatetableEquiv(s, u)
  {}

  /** The two quantified shapes of an equivalence, for the list lemmas. */
  lemma CellPortEquivAll()
    ensures forall x :: CellPortEquiv(x, x)
    ensures forall x, y :: CellPortEquiv(x, y) ==> CellPortEquiv(y, x)
    ensures forall x, y, z :: CellPortEquiv(x, y) && CellPortEquiv(y, z) ==> CellPortEquiv(x, z)
  {
    forall x, y, z ensures CellPortEquiv(x, x) && (CellPortEquiv(x, y) ==> CellPortEquiv(y, x)) && (CellPortEquiv(x, y) && CellPortEquiv(y, z) ==> CellPortEquiv(x, z)) {
      CellPortEquivalence(x, y, z);
    }
  }

  lemma FoundArcSetAll()
    ensures forall x :: FoundArcSet(x, x)
    ensures forall x, y :: FoundArcSet(x, y) ==> FoundArcSet(y, x)
    ensures forall x, y, z :: FoundArcSet(x, y) && FoundArcSet(y, z) ==> FoundArcSet(x, z)
  {
    forall x, y, z ensures FoundArcSet(x, x) && (FoundArcSet(x, y) ==> FoundArcSet(y, x)) && (FoundArcSet(x, y) && FoundArcSet(y, z) ==> FoundArcSet(x, z)) {
      FoundEquivalence(x, y, z);
    }
  }

  /** What is found is a listed port or a bit. */
  lemma {:induction false} FoundIff(p: CellPort, c: Cell)
    ensures Has(Findable(c), p, CellPortEquiv) <==> Has(c.ports, p, CellPortEquiv) || Has(c.bits, p, CellPortEquiv)
  {
    forall k | 0 <= k < |c.ports| ensures Findable(c)[k] == c.ports[k] {}
    forall k | 0 <= k < |c.bits| ensures Findable(c)[|c.ports| + k] == c.bits[k] {}
    forall k | |c.ports| <= k < |Findable(c)| ensures Findable(c)[k] == c.bits[k - |c.ports|] {}
  }

  /** An equivalent has the same name. */
  lemma HasNamed(s: seq<CellPort>, p: CellPort)
    requires Has(s, p, CellPortEquiv)
    ensures Named(s, p.port.name)
  {}

  /** Found, and named like a listed port: then that is what was found. */
  lemma {:induction false} FoundByName(p: CellPort, c: Cell, k: nat)
    requires WellFormed(c) && k < |c.ports| && c.ports[k].port.name == p.port.name && Has(Findable(c), p, CellPortEquiv)
    ensures CellPortEquiv(p, c.ports[k])
  {
    var j :| 0 <= j < |Findable(c)| && CellPortEquiv(p, Findable(c)[j]);
    assert Findable(c)[k] == c.ports[k];
  }

  /** Ports and power ports are matched by name, arc sets by key, and a well-formed cell has one of each. */
  lemma {:induction false} NamesSeparate(c: Cell, b: seq<CellPort>)
    requires WellFormed(c)
    ensures Separate(c.ports, b, CellPortEquiv)
  {
    forall i, j, k | 0 <= i < |c.ports| && 0 <= j < |c.ports| && 0 <= k < |b| && CellPortEquiv(c.ports[i], b[k]) && CellPortEquiv(c.ports[j], b[k]) ensures i == j {
      assert Findable(c)[i] == c.ports[i] && Findable(c)[j] == c.ports[j];
    }
  }

  lemma {:induction false} KeysSeparate(c: Cell, b: seq<ArcSet>)
    requires WellFormed(c)
    ensures Separate(c.arcSets, b, FoundArcSet)
  {
    forall i, j, k | 0 <= i < |c.arcSets| && 0 <= j < |c.arcSets| && 0 <= k < |b| && FoundArcSet(c.arcSets[i], b[k]) && FoundArcSet(c.arcSets[j], b[k]) ensures i == j {
      FoundEquivalence(c.arcSets[j], b[k], c.arcSets[i]);
      FoundEquivalence(c.arcSets[i], b[k], c.arcSets[j]);
    }
  }

  lemma {:induction false} PgSeparate(c: Cell, b: seq<PgPort>)
    requires WellFormed(c)
    ensures Separate(c.pgPorts, b, PgPortEquiv)
  {}

  /** Everything but the ports is symmetric. */
  lemma {:induction false} RestSymmetric(c1: Cell, c2: Cell)
    requires WellFormed(c1) && EquivCells(c1, c2)
    ensures EquivPgPorts(c2, c1) && Pointwise(c2.sequentials, c1.sequentials, SequentialEquiv) && StatetableEquiv(c2.statetable, c1.statetable) && EquivArcSets(c2, c1)
  {
    SequentialsEquivalence(c1.sequentials, c2.sequentials, c1.sequentials);
    StatetableEquivalence(c1.statetable, c2.statetable, c1.statetable);
    PgSeparate(c1, c2.pgPorts);
    MatchingBack(c1.pgPorts, c2.pgPorts, PgPortEquiv);
    KeysSeparate(c1, c2.arcSets);
    FoundArcSetAll();
    hide FoundArcSet, WellFormed, AllIn, Separate, EquivPorts, StatetableEquiv, Pointwise;
    MatchingBack(c1.arcSets, c2.arcSets, FoundArcSet);
  }

  /** A listed port of c2: one that c1 lists is answered by it, any other only by a bit. */
  lemma {:induction false} PortAnswered(c1: Cell, c2: Cell, k: nat)
    requires WellFormed(c2) && EquivPorts(c1, c2) && k < |c2.ports|
    ensures Has(Findable(c1), c2.ports[k], CellPortEquiv)
            <==> Named(c1.ports, c2.ports[k].port.name) || Has(c1.bits, c2.ports[k], CellPortEquiv)
  {
    var p := c2.ports[k];
    if Named(c1.ports, p.port.name) {
      var i :| 0 <= i < |c1.ports| && c1.ports[i].port.name == p.port.name;
      assert Has(Findable(c2), c1.ports[i], CellPortEquiv);
      FoundByName(c1.ports[i], c2, k);
      CellPortEquivalence(c1.ports[i], p, p);
      assert Has(c1.ports, p, CellPortEquiv);
    }
    FoundIff(p, c1);
    if Has(c1.ports, p, CellPortEquiv) { HasNamed(c1.ports, p); }
  }

  lemma {:induction false} EquivCellsReflexive(c: Cell)
    ensures EquivCells(c, c)
  {
    CellPortEquivAll();
    AllInReflexive(c.ports, CellPortEquiv);
    forall i | 0 <= i < |c.ports| ensures Has(Findable(c), c.ports[i], CellPortEquiv) { FoundIff(c.ports[i], c); }
    AllInReflexive(c.pgPorts, PgPortEquiv);
    FoundArcSetAll();
    AllInReflexive(c.arcSets, FoundArcSet);
    SequentialsEquivalence(c.sequentials, c.sequentials, c.sequentials);
    StatetableEquivalence(c.statetable, c.statetable, c.statetable);
  }

  /** Exactly when the comparison goes both ways: bits of c1 answer the listed ports of c2 that c1 does not list. */
  lemma {:induction false} EquivCellsSymmetricIff(c1: Cell, c2: Cell)
    requires WellFormed(c1) && WellFormed(c2) && EquivCells(c1, c2)
    ensures EquivCells(c2, c1) <==> BitsAnswer(c1, c2)
  {
    RestSymmetric(c1, c2);
    forall k | 0 <= k < |c2.ports|
      ensures Has(Findable(c1), c2.ports[k], CellPortEquiv)
              <==> Named(c1.ports, c2.ports[k].port.name) || Has(c1.bits, c2.ports[k], CellPortEquiv)
    {
      PortAnswered(c1, c2, k);
    }
    hide WellFormed, Has, Named, CellPortEquiv, EquivPgPorts, StatetableEquiv, EquivArcSets, Pointwise;
  }

  /** Exactly when two comparisons in a row give the third: the ports of c1 that were matched to bits of c2 are found in c3. */
  lemma {:induction false} EquivCellsTransitiveIff(c1: Cell, c2: Cell, c3: Cell)
    requires EquivCells(c1, c2) && EquivCells(c2, c3)
    ensures EquivCells(c1, c3) <==> ClashesReach(c1, c2, c3)
  {
    RestTransitive(c1, c2, c3);
    forall i | 0 <= i < |c1.ports| && !Named(c2.bits, c1.ports[i].port.name) ensures Has(Findable(c3), c1.ports[i], CellPortEquiv) {
      assert Has(Findable(c2), c1.ports[i], CellPortEquiv);
      FoundIff(c1.ports[i], c2);
      if Has(c2.bits, c1.ports[i], CellPortEquiv) { HasNamed(c2.bits, c1.ports[i]); }
      FoundBeyond(c1.ports[i], c2, c3);
    }
    hide Has, Named, CellPortEquiv, EquivPgPorts, StatetableEquiv, EquivArcSets, Pointwise;
  }

  lemma {:induction false} FoundBeyond(p: CellPort, c2: Cell, c3: Cell)
    requires Has(c2.ports, p, CellPortEquiv) && EquivPorts(c2, c3)
    ensures Has(Findable(c3), p, CellPortEquiv)
  {
    var k :| 0 <= k < |c2.ports| && CellPortEquiv(p, c2.ports[k]);
    assert Has(Findable(c3), c2.ports[k], CellPortEquiv);
    var j :| 0 <= j < |Findable(c3)| && CellPortEquiv(c2.ports[k], Findable(c3)[j]);
    CellPortEquivalence(p, c2.ports[k], Findable(c3)[j]);
  }

  lemma {:induction false} RestTransitive(c1: Cell, c2: Cell, c3: Cell)
    requires EquivCells(c1, c2) && EquivCells(c2, c3)
    ensures EquivPgPorts(c1, c3) && Pointwise(c1.sequentials, c3.sequentials, SequentialEquiv) && StatetableEquiv(c1.statetable, c3.statetable) && EquivArcSets(c1, c3)
  {
    FoundArcSetAll();
    SequentialsEquivalence(c1.sequentials, c2.sequentials, c3.sequentials);
    StatetableEquivalence(c1.statetable, c2.statetable, c3.statetable);
    AllInTransitive(c1.pgPorts, c2.pgPorts, c3.pgPorts, PgPortEquiv);
    hide EquivPorts, FoundArcSet, AllIn, StatetableEquiv, Pointwise;
    AllInTransitive(c1.arcSets, c2.arcSets, c3.arcSets, FoundArcSet);
  }

  function Bare(name: string): CellPort { CellPort(Port(0, name, 0), Null, Null) }

  function BareCell(ports: seq<CellPort>, bits: seq<CellPort>): Cell { Cell(ports, bits, [], [], Option.None, []) }

  /** One listed port each, nothing else: the comparison is the lookup of that port. */
  lemma {:induction false} BareEquiv(p: CellPort, q: CellPort, bits1: seq<CellPort>, bits2: seq<CellPort>)
    ensures EquivCells(BareCell([p], bits1), BareCell([q], bits2)) <==> Has([q] + bits2, p, CellPortEquiv)
  {
    var c1, c2 := BareCell([p], bits1), BareCell([q], bits2);
    assert EquivPgPorts(c1, c2) && EquivArcSets(c1, c2) && StatetableEquiv(c1.statetable, c2.statetable);
    assert Findable(c2) == [q] + bits2 && c1.ports[0] == p;
  }

  lemma BareNames()
    ensures CellPortEquiv(Bare("A"), Bare("A")) && CellPortEquiv(Bare("A[0]"), Bare("A[0]"))
    ensures !CellPortEquiv(Bare("A"), Bare("A[0]")) && !CellPortEquiv(Bare("A[0]"), Bare("A"))
  {
    assert |"A"| != |"A[0]"|;
  }

  /** A port named like a bus bit of the other cell: equivalent one way only. */
  lemma {:induction false} EquivCellsNotSymmetric() returns (c1: Cell, c2: Cell)
    ensures WellFormed(c1) && WellFormed(c2) && EquivCells(c1, c2) && !EquivCells(c2, c1)
  {
    var a, a0 := Bare("A"), Bare("A[0]");
    c1, c2 := BareCell([a0], []), BareCell([a], [a0]);
    BareNames();
    assert |"A"| != |"A[0]"|;
    BareEquiv(a0, a, [], [a0]);
    assert ([a] + [a0])[1] == a0;
    BareEquiv(a, a0, [a0], []);
  }

  /** The bit matched at the first comparison is not compared at the second: equivalence does not carry over. */
  lemma {:induction false} EquivCellsNotTransitive() returns (c1: Cell, c2: Cell, c3: Cell)
    ensures WellFormed(c1) && WellFormed(c2) && WellFormed(c3) && EquivCells(c1, c2) && EquivCells(c2, c3) && !EquivCells(c1, c3)
  {
    var a, a0 := Bare("A"), Bare("A[0]");
    c1, c2, c3 := BareCell([a0], []), BareCell([a], [a0]), BareCell([a], []);
    BareNames();
    assert |"A"| != |"A[0]"|;
    BareEquiv(a0, a, [], [a0]);
    assert ([a] + [a0])[1] == a0;
    BareEquiv(a, a, [a0], []);
    assert ([a] + [])[0] == a;
    BareEquiv(a0, a, [], []);
  }
}
