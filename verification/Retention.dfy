/// Oldest-first eviction under a count limit and a byte limit, the policy that
/// `store.rs` and `websocket.rs` share.

module Retention {
  import opened Common

  predicate Fits(weights: seq<nat>, count: nat, bytes: nat) {
    |weights| <= count && Sum(weights) <= bytes
  }

  /// Dropping the first `drop` entries leaves the longest suffix that fits.
  predicate LongestFit(weights: seq<nat>, count: nat, bytes: nat, drop: nat) {
    drop <= |weights| && Fits(weights[drop..], count, bytes) &&
    forall k | 0 <= k < drop :: !Fits(weights[k..], count, bytes)
  }

  /// There is only one such suffix.
  lemma LongestFitIsUnique(weights: seq<nat>, count: nat, bytes: nat, a: nat, b: nat)
    requires LongestFit(weights, count, bytes, a) && LongestFit(weights, count, bytes, b)
    ensures a == b
  {
  }

  lemma SumSuffix(weights: seq<nat>, k: nat)
    requires k < |weights|
    ensures Sum(weights[k..]) == weights[k] + Sum(weights[k + 1..])
  {
    assert weights[k..][1..] == weights[k + 1..];
  }

  lemma {:induction false} SumUpdate(weights: seq<nat>, i: nat, w: nat)
    requires i < |weights|
    ensures weights[i] <= Sum(weights)
    ensures Sum(weights[i := w]) == Sum(weights) - weights[i] + w
  {
    if i > 0 {
      SumUpdate(weights[1..], i - 1, w);
      assert weights[i := w][1..] == weights[1..][i - 1 := w];
    } else {
      assert weights[i := w][1..] == weights[1..];
    }
  }
}
