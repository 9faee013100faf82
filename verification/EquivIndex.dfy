/** The index of equivalent cells: hash buckets, and one list per group of equivalent cells. */
module EquivIndex {
  import opened Common
  import opened CellEquiv
  import opened CellHash

  /** Cells are known by identity. rel(x, y): an earlier cell x is found to match a later cell y. */
  type CellId = int
  type Rel = (CellId, CellId) -> bool

  /** The first element that passes a test. */
  function First(s: seq<CellId>, test: CellId -> bool): (r: Option<CellId>) {
    if |s| == 0 then None else if test(s[0]) then Some(s[0]) else First(s[1..], test)
  }

  function Filter(s: seq<CellId>, test: CellId -> bool): seq<CellId> {
    if |s| == 0 then [] else if test(s[0]) then [s[0]] + Filter(s[1..], test) else Filter(s[1..], test)
  }

  lemma {:induction false} FirstFound(s: seq<CellId>, test: CellId -> bool)
    ensures First(s, test).Some? ==> First(s, test).value in s && test(First(s, test).value)
    ensures First(s, test).None? ==> forall x | x in s :: !test(x)
  {
    if |s| > 0 { FirstFound(s[1..], test); }
  }

  /** Looking in a bucket only misses what would not match anyway. */
  lemma {:induction false} FirstInBucket(s: seq<CellId>, bucket: CellId -> bool, test: CellId -> bool, both: CellId -> bool)
    requires forall x :: both(x) <==> bucket(x) && test(x)
    ensures First(Filter(s, bucket), test) == First(s, both)
  {
    if |s| > 0 { FirstInBucket(s[1..], bucket, test, both); }
  }

  lemma {:induction false} FilterSnoc(s: seq<CellId>, x: CellId, test: CellId -> bool)
    ensures Filter(s + [x], test) == Filter(s, test) + if test(x) then [x] else []
  {
    if |s| == 0 {
      assert s + [x] == [x];
    } else {
      FilterSnoc(s[1..], x, test);
      assert (s + [x])[1..] == s[1..] + [x];
    }
  }

  // ---- groups --------------------------------------------------------------------------------

  /** The cell that x is grouped under: that of the first earlier match, or x itself. */
  ghost function Root(s: seq<CellId>, x: CellId, rel: Rel): CellId
    decreases |s|
  {
    if |s| == 0 then x
    else
      var n := |s| - 1;
      if s[n] != x then Root(s[..n], x, rel)
      else
        match First(s[..n], y => rel(y, x))
        case None => x
        case Some(y) => Root(s[..n], y, rel)
  }

  /** Some other cell is in the same group. */
  ghost predicate Grouped(s: seq<CellId>, x: CellId, rel: Rel) { exists y | y in s :: y != x && Root(s, y, rel) == Root(s, x, rel) }

  datatype Groups = Groups(lists: seq<seq<CellId>>, listOf: map<CellId, nat>, unique: seq<CellId>)

  ghost predicate ListOk(g: Groups, k: nat)
    requires k < |g.lists| == |g.unique|
  {
    && Distinct(g.lists[k]) && |g.lists[k]| >= 2 && g.lists[k][0] == g.unique[k]
    && forall x :: x in g.lists[k] <==> x in g.listOf && g.listOf[x] == k
  }

  ghost predicate CellOk(g: Groups, s: seq<CellId>, rel: Rel, x: CellId) {
    && (x in g.listOf <==> Grouped(s, x, rel))
    && (x in g.listOf ==> g.listOf[x] < |g.unique| && g.unique[g.listOf[x]] == Root(s, x, rel))
  }

  /** The lists are the groups of two or more of the cells seen so far. */
  ghost predicate Indexed(g: Groups, s: seq<CellId>, rel: Rel) {
    && Distinct(s) && |g.lists| == |g.unique| && Distinct(g.unique) && (forall x | x in g.listOf :: x in s && g.listOf[x] < |g.lists|)
    && (forall k | 0 <= k < |g.lists| :: ListOk(g, k)) && (forall x | x in s :: CellOk(g, s, rel, x))
  }

  lemma {:induction false} RootFacts(s: seq<CellId>, x: CellId, rel: Rel)
    ensures x in s ==> Root(s, x, rel) in s
    ensures x !in s ==> Root(s, x, rel) == x
    decreases |s|
  {
    if |s| > 0 {
      var n := |s| - 1;
      assert s == s[..n] + [s[n]];
      if s[n] != x {
        RootFacts(s[..n], x, rel);
      } else {
        FirstFound(s[..n], y => rel(y, x));
        match First(s[..n], y => rel(y, x))
        case None =>
        case Some(y) => RootFacts(s[..n], y, rel);
      }
    }
  }

  lemma RootSnoc(s: seq<CellId>, x: CellId, z: CellId, rel: Rel)
    ensures z != x ==> Root(s + [x], z, rel) == Root(s, z, rel)
    ensures Root(s + [x], x, rel) == match First(s, y => rel(y, x)) case None => x case Some(y) => Root(s, y, rel)
  {
    assert (s + [x])[..|s|] == s;
  }

  lemma {:induction false} RootIdempotent(s: seq<CellId>, x: CellId, rel: Rel)
    requires Distinct(s)
    ensures Root(s, Root(s, x, rel), rel) == Root(s, x, rel)
    decreases |s|
  {
    if |s| > 0 {
      var n := |s| - 1;
      var t := s[..n];
      assert s == t + [s[n]];
      RootSnoc(t, s[n], x, rel);
      if s[n] != x {
        RootIdempotent(t, x, rel);
        RootSnoc(t, s[n], Root(t, x, rel), rel);
        RootFacts(t, x, rel);
      } else {
        match First(t, y => rel(y, x))
        case None =>
        case Some(y) =>
          FirstFound(t, y => rel(y, x));
          RootIdempotent(t, y, rel);
          RootFacts(t, y, rel);
          RootSnoc(t, x, Root(t, y, rel), rel);
      }
    }
  }

  /** A cell without an earlier match starts a group of its own. */
  lemma {:induction false} NewSingle(g: Groups, s: seq<CellId>, rel: Rel, x: CellId)
    requires Indexed(g, s, rel) && x !in s && First(s, y => rel(y, x)).None?
    ensures Indexed(g, s + [x], rel)
  {
    var s' := s + [x];
    forall z ensures z in s ==> Root(s', z, rel) == Root(s, z, rel) && Root(s, z, rel) in s {
      RootSnoc(s, x, z, rel);
      RootFacts(s, z, rel);
    }
    RootSnoc(s, x, x, rel);
    hide Root, First, ListOk;
    forall z | z in s' ensures CellOk(g, s', rel, z) {
      GroupedWith(s, x, z, rel);
      if z in s { assert CellOk(g, s, rel, z); }
    }
  }

  /** Who is grouped once x is added. */
  lemma {:induction false} GroupedWith(s: seq<CellId>, x: CellId, z: CellId, rel: Rel)
    requires x !in s && forall y | y in s :: Root(s + [x], y, rel) == Root(s, y, rel)
    ensures z in s ==> (Grouped(s + [x], z, rel) <==> Grouped(s, z, rel) || Root(s + [x], x, rel) == Root(s, z, rel))
    ensures Grouped(s + [x], x, rel) <==> exists y | y in s :: Root(s, y, rel) == Root(s + [x], x, rel)
  {
    hide Root;
    if z in s && Grouped(s, z, rel) {
      var y :| y in s && y != z && Root(s, y, rel) == Root(s, z, rel);
      assert y in s + [x];
    }
    if z in s && Root(s + [x], x, rel) == Root(s, z, rel) { assert x in s + [x]; }
  }

  lemma NotGrouped(s: seq<CellId>, y: CellId, z: CellId, rel: Rel)
    requires z in s && z != y && !Grouped(s, y, rel)
    ensures Root(s, z, rel) != Root(s, y, rel)
  {}

  ghost predicate RootsKept(s: seq<CellId>, x: CellId, rel: Rel) { forall z | z in s :: Root(s + [x], z, rel) == Root(s, z, rel) }

  lemma RootsAreKept(s: seq<CellId>, x: CellId, rel: Rel)
    requires x !in s
    ensures RootsKept(s, x, rel)
  {
    forall z | z in s ensures Root(s + [x], z, rel) == Root(s, z, rel) { RootSnoc(s, x, z, rel); }
  }

  lemma {:induction false} JoinCellOk(g: Groups, g': Groups, s: seq<CellId>, rel: Rel, x: CellId, y: CellId, z: CellId)
    requires x !in s && y in s && y in g.listOf && z in s + [x] && CellOk(g, s, rel, y) && (z in s ==> CellOk(g, s, rel, z)) && RootsKept(s, x, rel)
    requires Root(s + [x], x, rel) == Root(s, y, rel) && g'.unique == g.unique && g'.listOf == g.listOf[x := g.listOf[y]]
    ensures CellOk(g', s + [x], rel, z)
  {
    hide Root;
    GroupedWith(s, x, z, rel);
    if z in s {
      if Root(s, z, rel) == Root(s, y, rel) { GroupedLike(s, y, z, rel); }
    }
  }

  /** x joins the list of its first match y, which is listed already. */
  lemma {:induction false} JoinList(g: Groups, s: seq<CellId>, rel: Rel, x: CellId, y: CellId)
    requires Indexed(g, s, rel) && x !in s && First(s, z => rel(z, x)) == Some(y) && y in g.listOf && g.listOf[y] < |g.lists|
    ensures var k := g.listOf[y]; Indexed(Groups(g.lists[k := g.lists[k] + [x]], g.listOf[x := k], g.unique), s + [x], rel)
  {
    var k, s' := g.listOf[y], s + [x];
    var g' := Groups(g.lists[k := g.lists[k] + [x]], g.listOf[x := k], g.unique);
    FirstFound(s, z => rel(z, x));
    RootSnoc(s, x, x, rel);
    RootsAreKept(s, x, rel);
    assert CellOk(g, s, rel, y);
    hide Root, First, CellOk, RootsKept;
    forall z | z in s' ensures CellOk(g', s', rel, z) { JoinCellOk(g, g', s, rel, x, y, z); }
    forall l | 0 <= l < |g'.lists| ensures ListOk(g', l) { JoinListOk(g, x, k, l); }
  }

  /** Sharing the root of a grouped cell is being grouped. */
  lemma GroupedLike(s: seq<CellId>, y: CellId, z: CellId, rel: Rel)
    requires y in s && z in s && Grouped(s, y, rel) && Root(s, z, rel) == Root(s, y, rel)
    ensures Grouped(s, z, rel)
  {
    var w :| w in s && w != y && Root(s, w, rel) == Root(s, y, rel);
    if z != y { assert y != z; } else { assert w != z; }
  }

  lemma JoinListOk(g: Groups, x: CellId, k: nat, l: nat)
    requires |g.lists| == |g.unique| && k < |g.lists| && l < |g.lists| && x !in g.listOf && ListOk(g, k) && ListOk(g, l)
    ensures ListOk(Groups(g.lists[k := g.lists[k] + [x]], g.listOf[x := k], g.unique), l)
  {}

  lemma {:induction false} StartCellOk(g: Groups, g': Groups, s: seq<CellId>, rel: Rel, x: CellId, y: CellId, z: CellId)
    requires x !in s && y in s && y !in g.listOf && z in s + [x] && CellOk(g, s, rel, y) && (z in s ==> CellOk(g, s, rel, z)) && RootsKept(s, x, rel)
    requires Root(s + [x], x, rel) == Root(s, y, rel) == y && g'.unique == g.unique + [y] && g'.listOf == g.listOf[y := |g.unique|][x := |g.unique|]
    ensures CellOk(g', s + [x], rel, z)
  {
    hide Root;
    GroupedWith(s, x, z, rel);
    if z in s && z != y { NotGrouped(s, y, z, rel); }
  }

  /** x and its first match y, in no list so far, start a list. */
  lemma {:induction false} StartList(g: Groups, s: seq<CellId>, rel: Rel, x: CellId, y: CellId)
    requires Indexed(g, s, rel) && x !in s && First(s, z => rel(z, x)) == Some(y) && y !in g.listOf
    ensures var k := |g.lists|; Indexed(Groups(g.lists + [[y, x]], g.listOf[y := k][x := k], g.unique + [y]), s + [x], rel)
  {
    var k, s' := |g.lists|, s + [x];
    var g' := Groups(g.lists + [[y, x]], g.listOf[y := k][x := k], g.unique + [y]);
    FirstFound(s, z => rel(z, x));
    RootSnoc(s, x, x, rel);
    RootsAreKept(s, x, rel);
    assert CellOk(g, s, rel, y);
    LonelyRoot(s, y, rel);
    UniqueGrows(g, s, rel, y);
    hide Root, First, CellOk, RootsKept;
    forall z | z in s' ensures CellOk(g', s', rel, z) { StartCellOk(g, g', s, rel, x, y, z); }
    forall l | 0 <= l < |g'.lists| ensures ListOk(g', l) { StartListOk(g, x, y, l); }
  }

  lemma StartListOk(g: Groups, x: CellId, y: CellId, l: nat)
    requires |g.lists| == |g.unique| && l <= |g.lists| && x != y && x !in g.listOf && y !in g.listOf && (l < |g.lists| ==> ListOk(g, l))
    requires forall z | z in g.listOf :: g.listOf[z] < |g.lists|
    ensures ListOk(Groups(g.lists + [[y, x]], g.listOf[y := |g.lists|][x := |g.lists|], g.unique + [y]), l)
  {}

  /** A cell in no group is its own root. */
  lemma LonelyRoot(s: seq<CellId>, y: CellId, rel: Rel)
    requires Distinct(s) && y in s && !Grouped(s, y, rel)
    ensures Root(s, y, rel) == y
  {
    RootFacts(s, y, rel);
    RootIdempotent(s, y, rel);
  }

  lemma UniqueGrows(g: Groups, s: seq<CellId>, rel: Rel, y: CellId)
    requires Indexed(g, s, rel) && y in s && y !in g.listOf
    ensures Distinct(g.unique + [y])
  {
    forall k | 0 <= k < |g.unique| ensures g.unique[k] != y {
      assert ListOk(g, k) && g.lists[k][0] == g.unique[k] && g.unique[k] in g.lists[k];
    }
  }

  // ---- what the lists mean -------------------------------------------------------------------

  /** rel is an equivalence among the cells of s. */
  ghost predicate EquivalenceOn(s: seq<CellId>, rel: Rel) {
    && (forall x, y | x in s && y in s && rel(x, y) :: rel(y, x))
    && (forall x, y, z | x in s && y in s && z in s && rel(x, y) && rel(y, z) :: rel(x, z))
  }

  lemma {:induction false} RootRelated(s: seq<CellId>, x: CellId, rel: Rel)
    requires Distinct(s) && EquivalenceOn(s, rel) && x in s
    ensures Root(s, x, rel) == x || rel(Root(s, x, rel), x)
    decreases |s|
  {
    var n := |s| - 1;
    var t := s[..n];
    assert s == t + [s[n]];
    if s[n] != x {
      RootRelated(t, x, rel);
    } else {
      FirstFound(t, y => rel(y, x));
      match First(t, y => rel(y, x))
      case None =>
      case Some(y) =>
        RootRelated(t, y, rel);
        RootFacts(t, y, rel);
    }
  }

  lemma {:induction false} RelatedSameRoot(s: seq<CellId>, x: CellId, y: CellId, rel: Rel)
    requires Distinct(s) && EquivalenceOn(s, rel) && x in s && y in s && rel(x, y)
    ensures Root(s, x, rel) == Root(s, y, rel)
    decreases |s|, 0
  {
    if x != y {
      var n := |s| - 1;
      var t := s[..n];
      assert s == t + [s[n]];
      if s[n] == y {
        LastSameRoot(s, y, x, rel);
      } else if s[n] == x {
        assert rel(y, x);
        LastSameRoot(s, x, y, rel);
      } else {
        RelatedSameRoot(t, x, y, rel);
      }
    }
  }

  lemma {:induction false} LastSameRoot(s: seq<CellId>, last: CellId, y: CellId, rel: Rel)
    requires Distinct(s) && EquivalenceOn(s, rel) && y in s && y != last && |s| > 0 && s[|s| - 1] == last && rel(y, last)
    ensures Root(s, last, rel) == Root(s, y, rel)
    decreases |s| - 1, 1
  {
    var t := s[..|s| - 1];
    assert s == t + [last];
    FirstFound(t, z => rel(z, last));
    var w := First(t, z => rel(z, last)).value;
    assert rel(last, y);
    RelatedSameRoot(t, w, y, rel);
  }

  /** In one list. */
  predicate Together(g: Groups, x: CellId, y: CellId) { x in g.listOf && y in g.listOf && g.listOf[x] == g.listOf[y] }

  lemma {:induction false} TogetherIff(g: Groups, s: seq<CellId>, rel: Rel, x: CellId, y: CellId)
    requires Indexed(g, s, rel) && EquivalenceOn(s, rel) && x in s && y in s && x != y
    ensures Together(g, x, y) <==> rel(x, y)
  {
    assert CellOk(g, s, rel, x) && CellOk(g, s, rel, y);
    if rel(x, y) {
      RelatedSameRoot(s, x, y, rel);
      assert Grouped(s, x, rel) && Grouped(s, y, rel);
    }
    if Together(g, x, y) {
      RootRelated(s, x, rel);
      RootRelated(s, y, rel);
      RootFacts(s, x, rel);
    }
  }

  // ---- building the index --------------------------------------------------------------------

  /** The cells behind the identities. */
  datatype Library = Library(cellOf: CellId -> Cell, dontUse: CellId -> bool, hs: StringHash) {
    ghost function Hash(x: CellId): int { HashCell(cellOf(x), hs) }

    /** The test of the bucket scan for x. */
    ghost function Like(x: CellId): CellId -> bool { y => EquivCells(cellOf(y), cellOf(x)) }

    /** A later cell y in the bucket of x is found to match x. */
    ghost predicate Matches(x: CellId, y: CellId) { Hash(x) == Hash(y) && EquivCells(cellOf(x), cellOf(y)) }
  }

  function Usable(cells: seq<CellId>, dontUse: CellId -> bool): seq<CellId> { Filter(cells, x => !dontUse(x)) }

  ghost function BucketOf(s: seq<CellId>, lib: Library, h: int): seq<CellId> { Filter(s, x => lib.Hash(x) == h) }

  function BucketAt(buckets: map<int, seq<CellId>>, h: int): seq<CellId> { if h in buckets then buckets[h] else [] }

  /** Each bucket holds the cells of its hash in the order they came. */
  ghost predicate Bucketed(buckets: map<int, seq<CellId>>, s: seq<CellId>, lib: Library) {
    forall h: int :: BucketAt(buckets, h) == BucketOf(s, lib, h)
  }

  lemma {:induction false} BucketedSnoc(buckets: map<int, seq<CellId>>, s: seq<CellId>, lib: Library, x: CellId)
    requires Bucketed(buckets, s, lib)
    ensures var h := lib.Hash(x); Bucketed(buckets[h := BucketAt(buckets, h) + [x]], s + [x], lib)
  {
    hide HashCell;
    forall h: int ensures BucketOf(s + [x], lib, h) == BucketOf(s, lib, h) + if lib.Hash(x) == h then [x] else [] {
      FilterSnoc(s, x, y => lib.Hash(y) == h);
    }
  }

  /** The scan of a bucket finds the first earlier match. */
  lemma {:induction false} BucketScan(buckets: map<int, seq<CellId>>, s: seq<CellId>, lib: Library, x: CellId)
    requires Bucketed(buckets, s, lib)
    ensures First(BucketAt(buckets, lib.Hash(x)), lib.Like(x)) == First(s, y => lib.Matches(y, x))
  {
    hide HashCell, EquivCells;
    FirstInBucket(s, y => lib.Hash(y) == lib.Hash(x), lib.Like(x), y => lib.Matches(y, x));
  }

  lemma {:induction false} FirstAt(s: seq<CellId>, test: CellId -> bool, i: nat)
    requires i <= |s| && (forall j | 0 <= j < i :: !test(s[j])) && (i < |s| ==> test(s[i]))
    ensures First(s, test) == if i < |s| then Some(s[i]) else None
  {
    if i > 0 { FirstAt(s[1..], test, i - 1); }
  }

  class EquivCellIndex {
    const lib: Library
    /** hash_matches, equiv_cells_ with its shared lists, unique_equiv_cells_. */
    var buckets: map<int, seq<CellId>>
    var groups: Groups
    ghost var seen: seq<CellId>

    ghost function Rel(): Rel { (x, y) => lib.Matches(x, y) }

    ghost predicate Ok()
      reads this
    {
      Bucketed(buckets, seen, lib) && Indexed(groups, seen, Rel())
    }

    constructor (lib: Library)
      ensures Ok() && seen == [] && this.lib == lib
    {
      this.lib := lib;
      buckets, groups, seen := map[], Groups([], map[], []), [];
    }

    method FindEquivCells(library: seq<CellId>)
      requires Ok() && Distinct(seen + library)
      modifies this
      ensures Ok() && seen == old(seen) + Usable(library, lib.dontUse)
    {
      hide Bucketed, Indexed;
      var i := 0;
      assert library[..0] == [];
      while i < |library|
        invariant 0 <= i <= |library| && Ok() && seen == old(seen) + Usable(library[..i], lib.dontUse)
      {
        var cell := library[i];
        assert library[..i + 1] == library[..i] + [cell];
        FilterSnoc(library[..i], cell, x => !lib.dontUse(x));
        if !lib.dontUse(cell) {
          UnseenYet(old(seen), library, i, lib.dontUse);
          AddCell(cell);
        }
        i := i + 1;
      }
      assert library[..i] == library;
    }

    /** One usable cell: look for the first match in its bucket, join or start a list, and enter the bucket. */
    method AddCell(cell: CellId)
      requires Ok() && cell !in seen
      modifies this
      ensures Ok() && seen == old(seen) + [cell]
    {
      hide Bucketed, Indexed, EquivCells, HashCell, First;
      var hash := HashCellOf(lib.cellOf(cell), lib.hs);
      BucketedSnoc(buckets, seen, lib, cell);
      BucketScan(buckets, seen, lib, cell);
      if hash in buckets {
        var matches := buckets[hash];
        var found := FindMatch(matches, cell);
        Enlist(found, cell);
        buckets := buckets[hash := matches + [cell]];
      } else {
        FirstOfNone(lib.Like(cell));
        Enlist(None, cell);
        buckets := buckets[hash := [cell]];
        assert [cell] == [] + [cell];
      }
      seen := seen + [cell];
    }

    method FindMatch(matches: seq<CellId>, cell: CellId) returns (found: Option<CellId>)
      ensures found == First(matches, lib.Like(cell))
    {
      hide EquivCells, First;
      var j := 0;
      while j < |matches|
        invariant 0 <= j <= |matches| && forall l | 0 <= l < j :: !lib.Like(cell)(matches[l])
      {
        if EquivCells(lib.cellOf(matches[j]), lib.cellOf(cell)) {
          FirstAt(matches, lib.Like(cell), j);
          return Some(matches[j]);
        }
        j := j + 1;
      }
      FirstAt(matches, lib.Like(cell), j);
      found := None;
    }

    /** cell joins the list of its first match, if it has one. */
    method Enlist(found: Option<CellId>, cell: CellId)
      requires Indexed(groups, seen, Rel()) && cell !in seen && First(seen, y => lib.Matches(y, cell)) == found
      modifies `groups
      ensures Indexed(groups, seen + [cell], Rel())
    {
      ghost var g, rel := groups, Rel();
      assert First(seen, y => rel(y, cell)) == found by { SameFirst(seen, y => lib.Matches(y, cell), y => rel(y, cell)); }
      match found
      case None => NewSingle(g, seen, rel, cell);
      case Some(other) =>
        if other !in groups.listOf {
          StartList(g, seen, rel, cell, other);
          groups := Groups(groups.lists + [[other, cell]], groups.listOf[other := |groups.lists|][cell := |groups.lists|], groups.unique + [other]);
        } else {
          var k := groups.listOf[other];
          JoinList(g, seen, rel, cell, other);
          groups := Groups(groups.lists[k := groups.lists[k] + [cell]], groups.listOf[cell := k], groups.unique);
        }
    }
  }

  lemma FirstOfNone(test: CellId -> bool)
    ensures First([], test) == None
  {}

  lemma {:induction false} SameFirst(s: seq<CellId>, a: CellId -> bool, b: CellId -> bool)
    requires forall x :: a(x) <==> b(x)
    ensures First(s, a) == First(s, b)
  {
    if |s| > 0 { SameFirst(s[1..], a, b); }
  }

  lemma {:induction false} FilterMember(s: seq<CellId>, test: CellId -> bool, x: CellId)
    ensures x in Filter(s, test) <==> x in s && test(x)
  {
    if |s| > 0 { FilterMember(s[1..], test, x); }
  }

  lemma UsableMember(cells: seq<CellId>, dontUse: CellId -> bool, x: CellId)
    ensures x in Usable(cells, dontUse) <==> x in cells && !dontUse(x)
  {
    FilterMember(cells, x => !dontUse(x), x);
  }

  lemma UnseenYet(seen: seq<CellId>, library: seq<CellId>, i: nat, dontUse: CellId -> bool)
    requires Distinct(seen + library) && i < |library|
    ensures library[i] !in seen + Usable(library[..i], dontUse)
  {
    FilterMember(library[..i], x => !dontUse(x), library[i]);
    var all := seen + library;
    forall j | 0 <= j < |seen| ensures seen[j] != library[i] { assert all[j] == seen[j] && all[|seen| + i] == library[i]; }
    forall j | 0 <= j < i ensures library[j] != library[i] { assert all[|seen| + j] == library[j] && all[|seen| + i] == library[i]; }
  }

  /** What cell construction keeps. */
  ghost predicate Built(s: seq<CellId>, lib: Library) { forall x | x in s :: WellFormed(lib.cellOf(x)) }

  /** Names of listed ports and of bits never mislead the comparison: what it finds as a bit, it also finds the other way and further on. */
  ghost predicate Clean(s: seq<CellId>, lib: Library) {
    && (forall x, y | x in s && y in s && lib.Matches(x, y) :: BitsAnswer(lib.cellOf(x), lib.cellOf(y)))
    && (forall x, y, z | x in s && y in s && z in s && lib.Matches(x, y) && lib.Matches(y, z) ::
          ClashesReach(lib.cellOf(x), lib.cellOf(y), lib.cellOf(z)))
  }

  /** Exactly when matching is an equivalence among the cells. */
  lemma {:induction false} EquivalenceIff(s: seq<CellId>, lib: Library)
    requires Built(s, lib)
    ensures EquivalenceOn(s, (x, y) => lib.Matches(x, y)) <==> Clean(s, lib)
  {
    hide EquivCells, HashCell, WellFormed, BitsAnswer, ClashesReach;
    forall x, y | x in s && y in s && lib.Matches(x, y) ensures lib.Matches(y, x) <==> BitsAnswer(lib.cellOf(x), lib.cellOf(y)) {
      EquivCellsSymmetricIff(lib.cellOf(x), lib.cellOf(y));
    }
    forall x, y, z | x in s && y in s && z in s && lib.Matches(x, y) && lib.Matches(y, z)
      ensures lib.Matches(x, z) <==> ClashesReach(lib.cellOf(x), lib.cellOf(y), lib.cellOf(z))
    {
      EquivCellsTransitiveIff(lib.cellOf(x), lib.cellOf(y), lib.cellOf(z));
    }
  }

  /** Two cells share a list exactly when they match. */
  ghost predicate ListsAreClasses(g: Groups, s: seq<CellId>, rel: Rel) {
    forall x, y | x in s && y in s && x != y :: Together(g, x, y) <==> rel(x, y)
  }

  lemma {:induction false} ClassesIff(g: Groups, s: seq<CellId>, rel: Rel)
    requires Indexed(g, s, rel) && forall x | x in s :: rel(x, x)
    ensures ListsAreClasses(g, s, rel) <==> EquivalenceOn(s, rel)
  {
    if EquivalenceOn(s, rel) {
      forall x, y | x in s && y in s && x != y ensures Together(g, x, y) <==> rel(x, y) { TogetherIff(g, s, rel, x, y); }
    }
    hide Indexed;
  }

  /** Two cells share a list exactly when they hash alike and are equivalent: this holds of the cells indexed exactly when they are clean. */
  lemma {:induction false} ListedTogetherIff(g: Groups, s: seq<CellId>, lib: Library)
    requires Built(s, lib) && Indexed(g, s, (x, y) => lib.Matches(x, y))
    ensures ListsAreClasses(g, s, (x, y) => lib.Matches(x, y)) <==> Clean(s, lib)
  {
    EquivalenceIff(s, lib);
    forall x | x in s ensures lib.Matches(x, x) { EquivCellsReflexive(lib.cellOf(x)); }
    hide EquivCells, HashCell, Clean, Indexed, EquivalenceOn, ListsAreClasses;
    ClassesIff(g, s, (x, y) => lib.Matches(x, y));
  }

  /** The lists are disjoint, hold two cells or more without repetition, and each is named once by its first cell. */
  lemma {:induction false} ListsDisjoint(g: Groups, s: seq<CellId>, rel: Rel, k: nat, l: nat)
    requires Indexed(g, s, rel) && k < l < |g.lists|
    ensures |g.lists[k]| >= 2 && Distinct(g.lists[k]) && g.unique[k] == g.lists[k][0] && g.unique[k] != g.unique[l]
    ensures forall x :: !(x in g.lists[k] && x in g.lists[l])
  {
    assert ListOk(g, k) && ListOk(g, l);
  }

  /** No two cells match: no lists. */
  lemma {:induction false} NoMatchNoList(g: Groups, s: seq<CellId>, rel: Rel)
    requires Indexed(g, s, rel) && forall x, y | x in s && y in s && x != y :: !rel(x, y)
    ensures g.lists == []
  {
    if |g.lists| > 0 {
      assert ListOk(g, 0);
      var x, y := g.lists[0][0], g.lists[0][1];
      assert x in g.lists[0] && y in g.lists[0] && x != y;
      TogetherIff(g, s, rel, x, y);
    }
  }
}
