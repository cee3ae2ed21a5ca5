/** Runs of any system of steps. */
module Runs {
  /** If every step from a good state leads to a good one exactly when it is no hazard, a run
      is good throughout exactly when it meets no hazard. */
  lemma FirstBreach(inv: seq<bool>, hazard: seq<bool>)
    requires |inv| == |hazard| + 1 && inv[0]
    requires forall k :: 0 <= k < |hazard| ==> (inv[k] ==> (inv[k + 1] <==> !hazard[k]))
    ensures (forall k :: 0 <= k < |inv| ==> inv[k]) <==> (forall k :: 0 <= k < |hazard| ==> !hazard[k])
  {
    if forall k :: 0 <= k < |inv| ==> inv[k] {
      forall k | 0 <= k < |hazard| ensures !hazard[k] { assert inv[k] && inv[k + 1]; }
    }
    if forall k :: 0 <= k < |hazard| ==> !hazard[k] {
      var n := 0;
      while n < |hazard|
        invariant n <= |hazard|
        invariant forall k :: 0 <= k <= n ==> inv[k]
      {
        assert inv[n] && !hazard[n];
        n := n + 1;
      }
    }
  }
}
