/** Square matrices as rows, and the view of a mutable matrix as one. */
module Matrices {
  type Mat = seq<seq<real>>

  ghost predicate Square(m: Mat, n: nat) { |m| == n && forall i | 0 <= i < n :: |m[i]| == n }

  ghost function Rows(a: array2<real>): (m: Mat)
    reads a
    ensures |m| == a.Length0 && forall i | 0 <= i < a.Length0 :: |m[i]| == a.Length1 && forall j | 0 <= j < a.Length1 :: m[i][j] == a[i, j]
  {
    seq(a.Length0, i requires 0 <= i < a.Length0 reads a => seq(a.Length1, j requires 0 <= j < a.Length1 reads a => a[i, j]))
  }
}
