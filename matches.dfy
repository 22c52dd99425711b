/**
 * `np.sum(pred == target)` on two index vectors of equal length: the number
 * of rows whose predicted class index equals the target class index.
 */
module Matches {

  /** An accuracy as the pair (rows predicted correctly, rows seen). */
  datatype Tally = Tally(correct: nat, total: nat)

  function MatchCount(pred: seq<int>, target: seq<int>): nat
    requires |pred| == |target|
  {
    if |pred| == 0 then 0
    else
      MatchCount(pred[..|pred| - 1], target[..|target| - 1]) +
      (if pred[|pred| - 1] == target[|target| - 1] then 1 else 0)
  }

  /** The rows on which prediction and target agree. */
  ghost function MatchPositions(pred: seq<int>, target: seq<int>): set<nat>
    requires |pred| == |target|
  {
    set i: nat | i < |pred| && pred[i] == target[i]
  }

  /** Extending both vectors by one row adds that row to the agreeing rows exactly when it agrees. */
  lemma PositionsSnoc(pred: seq<int>, target: seq<int>)
    requires |pred| == |target| > 0
    ensures var n := |pred| - 1;
      MatchPositions(pred, target) ==
      MatchPositions(pred[..n], target[..n]) + (if pred[n] == target[n] then {n} else {})
  {
    var n := |pred| - 1;
    var p, t := pred[..n], target[..n];
    forall i: nat
      ensures i in MatchPositions(pred, target) <==>
              i in MatchPositions(p, t) + (if pred[n] == target[n] then {n} else {})
    {
      if i < n {
        assert pred[i] == p[i] && target[i] == t[i];
      }
    }
  }

  /** MatchCount counts exactly the agreeing rows. */
  lemma {:induction false} MatchCountIsPositionCount(pred: seq<int>, target: seq<int>)
    requires |pred| == |target|
    ensures MatchCount(pred, target) == |MatchPositions(pred, target)|
  {
    if |pred| > 0 {
      var n := |pred| - 1;
      MatchCountIsPositionCount(pred[..n], target[..n]);
      PositionsSnoc(pred, target);
      assert n !in MatchPositions(pred[..n], target[..n]);
    } else {
      assert MatchPositions(pred, target) == {};
    }
  }

  /**
   * At most every row agrees; all rows agree exactly when the vectors are
   * equal, and none does exactly when they differ everywhere.
   */
  lemma {:induction false} MatchCountBounds(pred: seq<int>, target: seq<int>)
    requires |pred| == |target|
    ensures MatchCount(pred, target) <= |pred|
    ensures MatchCount(pred, target) == |pred| <==> pred == target
    ensures MatchCount(pred, target) == 0 <==> forall i :: 0 <= i < |pred| ==> pred[i] != target[i]
  {
    if |pred| > 0 {
      var n := |pred| - 1;
      var p, t := pred[..n], target[..n];
      MatchCountBounds(p, t);
      assert pred == p + [pred[n]] && target == t + [target[n]];
      if MatchCount(pred, target) == |pred| {
        assert p == t;
      }
    }
  }

  /** Counting over two consecutive blocks of rows adds up. */
  lemma {:induction false} MatchCountAppend(p1: seq<int>, t1: seq<int>, p2: seq<int>, t2: seq<int>)
    requires |p1| == |t1| && |p2| == |t2|
    ensures MatchCount(p1 + p2, t1 + t2) == MatchCount(p1, t1) + MatchCount(p2, t2)
    decreases |p2|
  {
    if |p2| > 0 {
      var n := |p2| - 1;
      MatchCountAppend(p1, t1, p2[..n], t2[..n]);
      assert (p1 + p2)[..|p1 + p2| - 1] == p1 + p2[..n];
      assert (t1 + t2)[..|t1 + t2| - 1] == t1 + t2[..n];
    } else {
      assert p1 + p2 == p1 && t1 + t2 == t1;
    }
  }
}
