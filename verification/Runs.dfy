/** Reasoning along runs. */
module Runs {

  /** If each step of a run keeps p exactly under q, p holds all along exactly when q does. */
  lemma {:induction false} HoldsAlong(p: seq<bool>, q: seq<bool>)
    requires |p| == |q| + 1 && p[0]
    requires forall k | 0 <= k < |q| && p[k] :: p[k + 1] <==> q[k]
    ensures (forall k | 0 <= k <= |q| :: p[k]) <==> (forall k | 0 <= k < |q| :: q[k])
    decreases |q|
  {
    if q != [] {
      var n := |q| - 1;
      assert forall k | 0 <= k <= n :: p[..|q|][k] == p[k];
      assert forall k | 0 <= k < n :: q[..n][k] == q[k];
      HoldsAlong(p[..|q|], q[..n]);
      assert (forall k | 0 <= k <= n :: p[k]) <==> (forall k | 0 <= k <= n :: p[..|q|][k]);
      assert (forall k | 0 <= k < n :: q[k]) <==> (forall k | 0 <= k < n :: q[..n][k]);
      assert p[n] ==> (p[n + 1] <==> q[n]);
    }
  }
}
