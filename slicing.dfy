/**
 * Python's extended slicing `rows[start:stop:step]` with a positive step and
 * non-negative bounds, the only form the drivers use, and the facts about it
 * that the sharding relies on.
 */
module Slicing {
  import opened DivMod

  /** The indices 0, 1, ..., n - 1. */
  function Range(n: nat): (r: seq<nat>)
    ensures |r| == n && forall i :: 0 <= i < n ==> r[i] == i
  {
    seq(n, i requires 0 <= i < n => i)
  }

  ghost predicate StrictlyIncreasing(s: seq<int>)
  {
    forall i, j :: 0 <= i < j < |s| ==> s[i] < s[j]
  }

  /**
   * `rows[start:stop:step]`: the elements at start, start + step, ... that lie
   * below both stop and len(rows) (Python clips both bounds to the length).
   */
  function StepSlice<T>(rows: seq<T>, start: nat, stop: nat, step: nat): seq<T>
    requires step >= 1
    decreases |rows| - start
  {
    if start >= stop || start >= |rows| then []
    else [rows[start]] + StepSlice(rows, start + step, stop, step)
  }

  /** The row indices that `rows[start:stop:step]` picks from a sequence of n rows. */
  function PickedIndices(n: nat, start: nat, stop: nat, step: nat): seq<nat>
    requires step >= 1
  {
    StepSlice<nat>(Range(n), start, stop, step)
  }

  /** The row indices that `rows[offset:len(rows):stride]` picks from a sequence of n rows. */
  function StrideIndices(n: nat, offset: nat, stride: nat): seq<nat>
    requires stride >= 1
  {
    PickedIndices(n, offset, n, stride)
  }

  /** Two strictly increasing sequences with the same elements are equal. */
  lemma {:induction false} IncreasingEqual(a: seq<int>, b: seq<int>)
    requires StrictlyIncreasing(a) && StrictlyIncreasing(b)
    requires forall x :: x in a <==> x in b
    ensures a == b
    decreases |a|
  {
    if |a| > 0 {
      assert a[0] in a;
    }
    if |b| > 0 {
      assert b[0] in b;
    }
    if |a| > 0 && |b| > 0 {
      assert a[0] == b[0] by {
        var i :| 0 <= i < |a| && a[i] == b[0];
        var j :| 0 <= j < |b| && b[j] == a[0];
        assert a[0] <= a[i] && b[0] <= b[j];
      }
      forall x
        ensures x in a[1..] <==> x in b[1..]
      {
        if x in a[1..] {
          var k :| 0 <= k < |a| - 1 && a[1..][k] == x;
          assert x in b;
          var m :| 0 <= m < |b| && b[m] == x;
          assert a[0] < a[k + 1];
          assert b[1..][m - 1] == x;
        }
        if x in b[1..] {
          var k :| 0 <= k < |b| - 1 && b[1..][k] == x;
          assert x in a;
          var m :| 0 <= m < |a| && a[m] == x;
          assert b[0] < b[k + 1];
          assert a[1..][m - 1] == x;
        }
      }
      IncreasingEqual(a[1..], b[1..]);
      assert a == [a[0]] + a[1..];
      assert b == [b[0]] + b[1..];
    }
  }

  /**
   * The indices a step slice picks are increasing, start at `start`, and are
   * exactly those below both bounds whose distance from `start` is a multiple of the step.
   */
  lemma StepSliceOfRange(n: nat, start: nat, stop: nat, step: nat)
    requires step >= 1
    ensures StrictlyIncreasing(PickedIndices(n, start, stop, step))
    ensures forall k :: 0 <= k < |PickedIndices(n, start, stop, step)| ==>
              start <= PickedIndices(n, start, stop, step)[k]
    ensures forall i :: i in PickedIndices(n, start, stop, step) <==>
              start <= i < stop && i < n && (i - start) % step == 0
  {
    PickedIncreasing(n, start, stop, step);
    PickedMembers(n, start, stop, step);
  }

  lemma {:induction false} PickedIncreasing(n: nat, start: nat, stop: nat, step: nat)
    requires step >= 1
    ensures StrictlyIncreasing(PickedIndices(n, start, stop, step))
    ensures forall k :: 0 <= k < |PickedIndices(n, start, stop, step)| ==>
              start <= PickedIndices(n, start, stop, step)[k]
    decreases n - start
  {
    if start < stop && start < n {
      PickedIncreasing(n, start + step, stop, step);
      var rest := PickedIndices(n, start + step, stop, step);
      assert PickedIndices(n, start, stop, step) == [start] + rest;
    }
  }

  lemma {:induction false} PickedMembers(n: nat, start: nat, stop: nat, step: nat)
    requires step >= 1
    ensures forall i :: i in PickedIndices(n, start, stop, step) <==>
              start <= i < stop && i < n && (i - start) % step == 0
    decreases n - start
  {
    var idx := PickedIndices(n, start, stop, step);
    if start >= stop || start >= n {
      assert idx == [];
    } else {
      PickedMembers(n, start + step, stop, step);
      var rest := PickedIndices(n, start + step, stop, step);
      assert idx == [start] + rest;
      forall i
        ensures i in idx <==> start <= i < stop && i < n && (i - start) % step == 0
      {
        assert i in idx <==> i == start || i in rest;
        if start < i < start + step {
          SmallRemainder(i - start, step);
        } else if i >= start + step {
          ModSubDivisor(i - start, step);
        }
      }
    }
  }

  /**
   * The shard `rows[offset::stride]` of n rows, for offset < stride, holds exactly
   * the indices i < n with i % stride == offset, in increasing order.
   */
  lemma StrideMembers(n: nat, offset: nat, stride: nat)
    requires offset < stride
    ensures StrictlyIncreasing(StrideIndices(n, offset, stride))
    ensures forall i :: i in StrideIndices(n, offset, stride) <==> 0 <= i < n && i % stride == offset
  {
    StepSliceOfRange(n, offset, n, stride);
    forall i | 0 <= i
      ensures (offset <= i && (i - offset) % stride == 0) <==> i % stride == offset
    {
      ResidueShift(i, offset, stride);
    }
  }

  /**
   * `rows[start::step]` of n rows holds ceil((n - start) / step) rows: one for
   * start itself and one for every further whole step that stays below n.
   */
  lemma {:induction false} StrideLength(n: nat, start: nat, step: nat)
    requires step >= 1
    ensures |StrideIndices(n, start, step)| == if start < n then (n - 1 - start) / step + 1 else 0
    decreases n - start
  {
    if start < n {
      assert StrideIndices(n, start, step) == [start] + StrideIndices(n, start + step, step);
      StrideLength(n, start + step, step);
      if start + step < n {
        ModSubDivisor(n - 1 - start, step);
      } else {
        SmallRemainder(n - 1 - start, step);
      }
    }
  }

  /** Counting from an offset below the stride, the multiples of the stride are the numbers with that residue. */
  lemma ResidueShift(i: int, offset: int, stride: int)
    requires 0 <= i && 0 <= offset < stride
    ensures (offset <= i && (i - offset) % stride == 0) <==> i % stride == offset
  {
    if offset <= i && (i - offset) % stride == 0 {
      var q := (i - offset) / stride;
      assert i - offset == q * stride;
      DivModUnique(i, stride, q, offset);
    }
    if i % stride == offset {
      var q := i / stride;
      assert i == q * stride + offset;
      assert q >= 0;
      assert q * stride >= 0;
      DivModUnique(i - offset, stride, q, 0);
    }
  }

  /** Row k of a step slice is the row at the k-th picked index. */
  lemma {:induction false} StepSliceAt<T>(rows: seq<T>, start: nat, stop: nat, step: nat)
    requires step >= 1
    ensures |StepSlice(rows, start, stop, step)| == |PickedIndices(|rows|, start, stop, step)|
    ensures forall k :: 0 <= k < |PickedIndices(|rows|, start, stop, step)| ==>
              PickedIndices(|rows|, start, stop, step)[k] < |rows|
    ensures forall k :: 0 <= k < |StepSlice(rows, start, stop, step)| ==>
              StepSlice(rows, start, stop, step)[k] == rows[PickedIndices(|rows|, start, stop, step)[k]]
    decreases |rows| - start
  {
    if !(start >= stop || start >= |rows|) {
      StepSliceAt(rows, start + step, stop, step);
    }
  }

  /** A unit-stride slice from j to the end is the suffix from j. */
  lemma {:induction false} UnitStrideIsSuffix<T>(rows: seq<T>, j: nat)
    requires j <= |rows|
    ensures StepSlice(rows, j, |rows|, 1) == rows[j..]
    decreases |rows| - j
  {
    if j < |rows| {
      UnitStrideIsSuffix(rows, j + 1);
      assert rows[j..] == [rows[j]] + rows[j + 1..];
    }
  }
}
