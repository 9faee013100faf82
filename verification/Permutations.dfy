/** Permutations given as a list of exchanges, the form pivoting and selection sort produce. */
module Permutations {
  function Swap<T>(s: seq<T>, i: nat, j: nat): seq<T>
    requires i < |s| && j < |s|
  {
    s[i := s[j]][j := s[i]]
  }

  /** index[k] names the row exchanged with row k at step k. */
  ghost predicate Pivots(index: seq<nat>, n: nat) { |index| <= n && forall k | 0 <= k < |index| :: k <= index[k] < n }

  /** The exchanges applied to a sequence, in order. */
  ghost function Exchanged<T>(s: seq<T>, index: seq<nat>): (r: seq<T>)
    requires Pivots(index, |s|)
    ensures |r| == |s|
  {
    if |index| == 0 then s
    else
      var m := |index| - 1;
      assert Pivots(index[..m], |s|);
      Swap(Exchanged(s, index[..m]), m, index[m])
  }

  ghost function Identity(n: nat): seq<nat> { seq(n, i requires i >= 0 => i) }

  /** The row permutation that index encodes. */
  ghost function Perm(n: nat, index: seq<nat>): (p: seq<nat>)
    requires Pivots(index, n)
    ensures |p| == n
  {
    Exchanged(Identity(n), index)
  }

  ghost predicate Occurs(p: seq<nat>, x: nat) { exists k | 0 <= k < |p| :: p[k] == x }

  /** Every number below n, each once. */
  ghost predicate Permutes(p: seq<nat>, n: nat) {
    && |p| == n && (forall i | 0 <= i < n :: p[i] < n) && (forall i | 0 <= i < n :: Occurs(p, i))
    && (forall i, j | 0 <= i < j < n :: p[i] != p[j])
  }

  lemma {:induction false} SwapPermutes(p: seq<nat>, n: nat, k: nat, l: nat)
    requires Permutes(p, n) && k < n && l < n
    ensures Permutes(Swap(p, k, l), n)
  {
    var q := Swap(p, k, l);
    forall i | 0 <= i < n ensures Occurs(q, i) {
      assert Occurs(p, i);
      var m :| 0 <= m < n && p[m] == i;
      assert q[if m == k then l else if m == l then k else m] == i;
    }
  }

  lemma {:induction false} PermOnto(n: nat, index: seq<nat>)
    requires Pivots(index, n)
    ensures Permutes(Perm(n, index), n)
  {
    if |index| == 0 {
      forall i | 0 <= i < n ensures Occurs(Perm(n, index), i) { assert Perm(n, index)[i] == i; }
    } else {
      var m := |index| - 1;
      assert Pivots(index[..m], n);
      PermOnto(n, index[..m]);
      hide Permutes;
      SwapPermutes(Perm(n, index[..m]), n, m, index[m]);
    }
  }

  /** Exchanging entries is reading them through the permutation. */
  lemma {:induction false} ExchangedIsPerm<T>(s: seq<T>, index: seq<nat>)
    requires Pivots(index, |s|)
    ensures forall i | 0 <= i < |s| :: Perm(|s|, index)[i] < |s| && Exchanged(s, index)[i] == s[Perm(|s|, index)[i]]
  {
    if |index| > 0 {
      var m := |index| - 1;
      assert Pivots(index[..m], |s|);
      ExchangedIsPerm(s, index[..m]);
    }
  }
}
