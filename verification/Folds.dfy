/** Runs of a state machine as folds, and the induction principle for their invariants. */
module Folds {

  /** The state after feeding the elements of `ts` to `f` from left to right. */
  function Fold<S, T>(f: (S, T) -> S, s: S, ts: seq<T>): S {
    if ts == [] then s else f(Fold(f, s, ts[..|ts| - 1]), ts[|ts| - 1])
  }

  /** An indexed invariant that every step carries on holds at the end of the fold. */
  lemma {:induction false} FoldInvariant<S(!new), T>(f: (S, T) -> S, s: S, ts: seq<T>, inv: (S, nat) -> bool)
    requires inv(s, 0)
    requires forall y: S, j: nat :: j < |ts| && inv(y, j) ==> inv(f(y, ts[j]), j + 1)
    ensures inv(Fold(f, s, ts), |ts|)
  {
    if ts != [] {
      var n := |ts| - 1;
      FoldInvariant(f, s, ts[..n], inv);
    }
  }

  lemma {:induction false} FoldConcat<S, T>(f: (S, T) -> S, s: S, a: seq<T>, b: seq<T>)
    ensures Fold(f, s, a + b) == Fold(f, Fold(f, s, a), b)
  {
    if b == [] {
      assert a + b == a;
    } else {
      var n := |b| - 1;
      FoldConcat(f, s, a, b[..n]);
      assert (a + b)[..|a + b| - 1] == a + b[..n];
    }
  }
}
