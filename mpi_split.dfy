/**
 * `Comm.Split(color)` with mpi4py's default key 0: every rank of the parent
 * communicator lands in the new communicator of its colour, and the members
 * keep their parent rank order, so the new rank is the position in that order.
 */
module MpiSplit {
  import opened Slicing

  /** The parent ranks whose colour is c, in increasing order. */
  function Split(colours: seq<int>, c: int): seq<nat>
  {
    if |colours| == 0 then []
    else Split(colours[..|colours| - 1], c) + (if colours[|colours| - 1] == c then [|colours| - 1] else [])
  }

  /** The position of x in s. */
  function IndexOf(s: seq<nat>, x: nat): (k: nat)
    requires x in s
    ensures k < |s| && s[k] == x
    ensures forall j :: 0 <= j < k ==> s[j] != x
  {
    if s[0] == x then 0 else 1 + IndexOf(s[1..], x)
  }

  /** `Split(colours[rank]).Get_rank()`: the rank's position among the ranks of its own colour. */
  function SplitRank(colours: seq<int>, rank: nat): (k: nat)
    requires rank < |colours|
    ensures k < |Split(colours, colours[rank])| && Split(colours, colours[rank])[k] == rank
  {
    SplitMembers(colours, colours[rank]);
    IndexOf(Split(colours, colours[rank]), rank)
  }

  /** A split group holds exactly the ranks of its colour, in increasing order. */
  lemma {:induction false} SplitMembers(colours: seq<int>, c: int)
    ensures StrictlyIncreasing(Split(colours, c))
    ensures forall i :: i in Split(colours, c) <==> 0 <= i < |colours| && colours[i] == c
  {
    if |colours| > 0 {
      var n := |colours| - 1;
      var prefix := colours[..n];
      SplitMembers(prefix, c);
      var earlier := Split(prefix, c);
      assert Split(colours, c) == earlier + (if colours[n] == c then [n] else []);
      forall j | 0 <= j < |earlier|
        ensures earlier[j] < n
      {
        assert earlier[j] in earlier;
      }
    }
  }

  /** The total size of the groups of colours 0 .. k - 1. */
  function GroupSizes(colours: seq<int>, k: nat): nat
  {
    if k == 0 then 0 else GroupSizes(colours, k - 1) + |Split(colours, k - 1)|
  }

  lemma {:induction false} GroupSizesOfNone(k: nat)
    ensures GroupSizes([], k) == 0
  {
    if k > 0 {
      GroupSizesOfNone(k - 1);
    }
  }

  lemma {:induction false} GroupSizesSnoc(colours: seq<int>, k: nat)
    requires |colours| > 0
    ensures GroupSizes(colours, k) ==
            GroupSizes(colours[..|colours| - 1], k) + (if 0 <= colours[|colours| - 1] < k then 1 else 0)
  {
    if k > 0 {
      GroupSizesSnoc(colours, k - 1);
    }
  }

  /** When every colour lies in [0, k), the sizes of the k groups add up to the number of ranks. */
  lemma {:induction false} GroupSizesTotal(colours: seq<int>, k: nat)
    requires forall i :: 0 <= i < |colours| ==> 0 <= colours[i] < k
    ensures GroupSizes(colours, k) == |colours|
  {
    if |colours| > 0 {
      var n := |colours| - 1;
      GroupSizesTotal(colours[..n], k);
      GroupSizesSnoc(colours, k);
      assert 0 <= colours[n] < k;
    } else {
      GroupSizesOfNone(k);
    }
  }

  /**
   * When every colour lies in [0, k), the k split groups partition the ranks:
   * each rank is in the group of its own colour and in no other, and the group
   * sizes add up to the number of ranks.
   */
  lemma SplitPartitions(colours: seq<int>, k: nat)
    requires forall i :: 0 <= i < |colours| ==> 0 <= colours[i] < k
    ensures forall i :: 0 <= i < |colours| ==> i in Split(colours, colours[i])
    ensures forall i, c :: 0 <= i < |colours| && c != colours[i] ==> i !in Split(colours, c)
    ensures GroupSizes(colours, k) == |colours|
  {
    forall i | 0 <= i < |colours|
      ensures i in Split(colours, colours[i])
    {
      SplitMembers(colours, colours[i]);
    }
    forall i, c | 0 <= i < |colours| && c != colours[i]
      ensures i !in Split(colours, c)
    {
      SplitMembers(colours, c);
    }
    GroupSizesTotal(colours, k);
  }
}
