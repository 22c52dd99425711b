/**
 * The single-model training driver that shards the training rows over the
 * processes. Each process keeps the rows rank, rank + size, rank + 2 * size,
 * ... of both the inputs and the targets, trains on batches of
 * GLOBAL_BATCH_SIZE / size of its own rows, and runs, per batch, forward,
 * loss, loss gradient, zero_grad, backward and the optimizer step. The
 * numerics are abstracted away: a training run is modelled by the trace of
 * calls it makes on the model and optimizer.
 */
module NNFromScratch {
  import opened Wrappers
  import opened DivMod
  import opened Slicing
  import opened MpiSplit
  import opened Matches

  const EPOCHS: nat := 10
  const GLOBAL_BATCH_SIZE: nat := 128

  // ---------------------------------------------------------------- sharding

  datatype LoadError = BatchNotDivisible

  /** This process's training rows and its batch size. */
  datatype LocalData<X, Y> = LocalData(x: seq<X>, y: seq<Y>, batchSize: nat)

  /**
   * `x_train[rank::size]`, `y_train[rank::size]`, then the assertion that the
   * global batch divides evenly over the processes and the per-process batch size.
   */
  function LoadLocal<X, Y>(xTrain: seq<X>, yTrain: seq<Y>, rank: nat, size: nat): (r: Result<LocalData<X, Y>, LoadError>)
    requires rank < size
    ensures r.Success? <==> GLOBAL_BATCH_SIZE % size == 0
    ensures r.Success? ==> r.value.batchSize >= 1 && r.value.batchSize * size == GLOBAL_BATCH_SIZE
  {
    var x := StepSlice(xTrain, rank, |xTrain|, size);
    var y := StepSlice(yTrain, rank, |yTrain|, size);
    if GLOBAL_BATCH_SIZE % size != 0 then Failure(BatchNotDivisible)
    else
      FloorDivBounds(GLOBAL_BATCH_SIZE, size);
      Success(LocalData(x, y, GLOBAL_BATCH_SIZE / size))
  }

  /**
   * Row k of the local inputs and row k of the local targets come from the
   * same original row, the k-th index i < n with i % size == rank.
   */
  lemma LocalRowsAligned<X, Y>(xTrain: seq<X>, yTrain: seq<Y>, rank: nat, size: nat)
    requires rank < size && |xTrain| == |yTrain|
    requires LoadLocal(xTrain, yTrain, rank, size).Success?
    ensures var d, idx := LoadLocal(xTrain, yTrain, rank, size).value, StrideIndices(|xTrain|, rank, size);
      && |d.x| == |idx| && |d.y| == |idx|
      && (forall k :: 0 <= k < |idx| ==>
            idx[k] < |xTrain| && idx[k] % size == rank &&
            d.x[k] == xTrain[idx[k]] && d.y[k] == yTrain[idx[k]])
  {
    StepSliceAt(xTrain, rank, |xTrain|, size);
    StepSliceAt(yTrain, rank, |yTrain|, size);
    StrideMembers(|xTrain|, rank, size);
    var idx := StrideIndices(|xTrain|, rank, size);
    forall k | 0 <= k < |idx|
      ensures idx[k] % size == rank
    {
      assert idx[k] in idx;
    }
  }

  /** The residue of every row index: the shard it belongs to. */
  function ResidueColours(n: nat, size: nat): seq<int>
    requires size >= 1
  {
    seq(n, i requires 0 <= i < n => i % size)
  }

  /** The number of rows the shards 0 .. k - 1 hold together. */
  function ShardRows(n: nat, size: nat, k: nat): nat
    requires k <= size
  {
    if k == 0 then 0 else ShardRows(n, size, k - 1) + |StrideIndices(n, k - 1, size)|
  }

  /** The shard of rank r is the colour class r of the colouring i |-> i % size. */
  lemma ShardIsResidueClass(n: nat, size: nat, r: nat)
    requires r < size
    ensures StrideIndices(n, r, size) == Split(ResidueColours(n, size), r)
  {
    StrideMembers(n, r, size);
    SplitMembers(ResidueColours(n, size), r);
    IncreasingEqual(StrideIndices(n, r, size), Split(ResidueColours(n, size), r));
  }

  lemma {:induction false} ShardRowsTotal(n: nat, size: nat, k: nat)
    requires 1 <= size && k <= size
    ensures ShardRows(n, size, k) == GroupSizes(ResidueColours(n, size), k)
  {
    if k > 0 {
      ShardRowsTotal(n, size, k - 1);
      ShardIsResidueClass(n, size, k - 1);
    }
  }

  /**
   * The shards of the `size` processes partition the rows: every row index
   * is in the shard of its residue and in no other, and the shards hold n
   * rows together, so each row is trained on by exactly one process, once.
   */
  lemma ShardsPartitionRows(n: nat, size: nat)
    requires size >= 1
    ensures forall i :: 0 <= i < n ==> i in StrideIndices(n, i % size, size)
    ensures forall i, r :: 0 <= r < size && r != i % size ==> i !in StrideIndices(n, r, size)
    ensures ShardRows(n, size, size) == n
  {
    forall r | 0 <= r < size
      ensures forall i :: i in StrideIndices(n, r, size) <==> 0 <= i < n && i % size == r
    {
      StrideMembers(n, r, size);
    }
    forall i | 0 <= i < n
      ensures i in StrideIndices(n, i % size, size)
    {
      StrideMembers(n, i % size, size);
    }
    SplitPartitions(ResidueColours(n, size), size);
    ShardRowsTotal(n, size, size);
  }

  /**
   * Shards are balanced but not equal: a lower rank holds as many rows as a
   * higher one or exactly one more, so with a batch size of 1 the processes
   * can run different numbers of iterations per epoch.
   */
  lemma ShardLengthsBalanced(n: nat, size: nat, r: nat, r': nat)
    requires r < r' < size
    ensures |StrideIndices(n, r', size)| <= |StrideIndices(n, r, size)| <= |StrideIndices(n, r', size)| + 1
  {
    StrideLength(n, r, size);
    StrideLength(n, r', size);
    if r < n <= r' {
      SmallRemainder(n - 1 - r, size);
    } else if r' < n {
      var x, y := n - 1 - r, n - 1 - r';
      var qx, qy := x / size, y / size;
      FloorDivBounds(x, size);
      FloorDivBounds(y, size);
      assert (qy + 2) * size == (qy + 1) * size + size;
      if qy > qx {
        MulMonotone(qx + 1, qy, size);
      }
      if qx > qy + 1 {
        MulMonotone(qy + 2, qx, size);
      }
    }
  }

  // ---------------------------------------------------------------- batches

  /** The half-open row range [lo, hi) of one batch. */
  datatype Batch = Batch(lo: nat, hi: nat)

  function Min(a: nat, b: nat): nat
  {
    if a <= b then a else b
  }

  /** The batches `for j in range(from, n, bs)` visits, each `[j, min(n, j + bs))`. */
  function BatchesFrom(from: nat, n: nat, bs: nat): seq<Batch>
    requires bs >= 1
    decreases n - from
  {
    if from >= n then [] else [Batch(from, Min(n, from + bs))] + BatchesFrom(from + bs, n, bs)
  }

  /** The batches of one epoch over n rows. */
  function Batches(n: nat, bs: nat): seq<Batch>
    requires bs >= 1
  {
    BatchesFrom(0, n, bs)
  }

  lemma {:induction false} BatchesFromShape(from: nat, n: nat, bs: nat)
    requires bs >= 1
    ensures |BatchesFrom(from, n, bs)| == if from < n then (n - from + bs - 1) / bs else 0
    ensures forall k :: 0 <= k < |BatchesFrom(from, n, bs)| ==>
              BatchesFrom(from, n, bs)[k].lo == from + k * bs &&
              BatchesFrom(from, n, bs)[k].lo < BatchesFrom(from, n, bs)[k].hi &&
              BatchesFrom(from, n, bs)[k].hi == Min(n, BatchesFrom(from, n, bs)[k].lo + bs)
    ensures |BatchesFrom(from, n, bs)| > 0 ==> BatchesFrom(from, n, bs)[|BatchesFrom(from, n, bs)| - 1].hi == n
    ensures forall k :: 0 <= k < |BatchesFrom(from, n, bs)| - 1 ==>
              BatchesFrom(from, n, bs)[k].hi == BatchesFrom(from, n, bs)[k].lo + bs
    decreases n - from
  {
    if from < n {
      var b := BatchesFrom(from, n, bs);
      var rest := BatchesFrom(from + bs, n, bs);
      BatchesFromShape(from + bs, n, bs);
      assert b == [Batch(from, Min(n, from + bs))] + rest;
      if from + bs >= n {
        DivModUnique(n - from + bs - 1, bs, 1, n - from - 1);
      } else {
        ModSubDivisor(n - from + bs - 1, bs);
      }
      forall k | 1 <= k < |b|
        ensures b[k].lo == from + k * bs
      {
        assert b[k] == rest[k - 1];
        assert (k - 1) * bs + bs == k * bs;
      }
    }
  }

  /** Row i lies in batch b. */
  predicate InBatch(b: Batch, i: int)
  {
    b.lo <= i < b.hi
  }

  /**
   * The batches of an epoch are non-empty and at most bs rows long; they
   * start at row 0, each starts where the previous ended, the last ends at
   * row n, only the last may be short, and there are ceil(n / bs) of them.
   */
  lemma BatchesTile(n: nat, bs: nat)
    requires bs >= 1
    ensures |Batches(n, bs)| == (n + bs - 1) / bs
    ensures forall k :: 0 <= k < |Batches(n, bs)| ==>
              Batches(n, bs)[k].lo < Batches(n, bs)[k].hi <= n &&
              Batches(n, bs)[k].hi - Batches(n, bs)[k].lo <= bs &&
              Batches(n, bs)[k].hi == Min(n, Batches(n, bs)[k].lo + bs)
    ensures forall k :: 0 <= k < |Batches(n, bs)| - 1 ==>
              Batches(n, bs)[k].hi - Batches(n, bs)[k].lo == bs &&
              Batches(n, bs)[k].hi == Batches(n, bs)[k + 1].lo
    ensures |Batches(n, bs)| > 0 ==> Batches(n, bs)[0].lo == 0 && Batches(n, bs)[|Batches(n, bs)| - 1].hi == n
  {
    var b := Batches(n, bs);
    BatchesFromShape(0, n, bs);
    if n == 0 {
      SmallRemainder(bs - 1, bs);
    }
    forall k | 0 <= k < |b| - 1
      ensures b[k].hi == b[k + 1].lo
    {
      assert (k + 1) * bs == k * bs + bs;
    }
  }

  /** Batch k of an epoch starts at row k * bs and ends bs rows later or at row n. */
  lemma BatchAt(n: nat, bs: nat, k: nat)
    requires bs >= 1 && k < |Batches(n, bs)|
    ensures Batches(n, bs)[k] == Batch(k * bs, Min(n, k * bs + bs))
    ensures k * bs < n
  {
    BatchesFromShape(0, n, bs);
  }

  /** A non-empty epoch has batches, and its last batch ends at row n. */
  lemma LastBatchEnds(n: nat, bs: nat)
    requires bs >= 1 && n > 0
    ensures |Batches(n, bs)| > 0 && Batches(n, bs)[|Batches(n, bs)| - 1].hi == n
  {
    BatchesFromShape(0, n, bs);
  }

  /** A row at or after `from` and before n lies in one of the batches from `from` on. */
  lemma {:induction false} RowInSomeBatch(from: nat, n: nat, bs: nat, i: nat) returns (k: nat)
    requires bs >= 1 && from <= i < n
    ensures k < |BatchesFrom(from, n, bs)| && InBatch(BatchesFrom(from, n, bs)[k], i)
    decreases n - from
  {
    var rest := BatchesFrom(from + bs, n, bs);
    assert BatchesFrom(from, n, bs) == [Batch(from, Min(n, from + bs))] + rest;
    if i < from + bs {
      k := 0;
    } else {
      var k' := RowInSomeBatch(from + bs, n, bs, i);
      k := k' + 1;
    }
  }

  /** Row i < n lies in batch i / bs. */
  lemma RowInItsBatch(n: nat, bs: nat, i: nat)
    requires bs >= 1 && i < n
    ensures i / bs < |Batches(n, bs)| && InBatch(Batches(n, bs)[i / bs], i)
  {
    var k := RowInSomeBatch(0, n, bs, i);
    RowInNoOtherBatch(n, bs, i, k);
  }

  /** A batch that holds row i is batch i / bs. */
  lemma RowInNoOtherBatch(n: nat, bs: nat, i: int, k: nat)
    requires bs >= 1 && k < |Batches(n, bs)| && InBatch(Batches(n, bs)[k], i)
    ensures k == i / bs
  {
    BatchAt(n, bs, k);
    DivModUnique(i, bs, k, i - k * bs);
  }

  /** Every row lies in exactly one batch of its epoch, the one numbered i / bs. */
  lemma BatchesCoverOnce(n: nat, bs: nat)
    requires bs >= 1
    ensures forall i :: 0 <= i < n ==> i / bs < |Batches(n, bs)| && InBatch(Batches(n, bs)[i / bs], i)
    ensures forall i, k :: 0 <= k < |Batches(n, bs)| && InBatch(Batches(n, bs)[k], i) ==> k == i / bs
  {
    forall i | 0 <= i < n
      ensures i / bs < |Batches(n, bs)| && InBatch(Batches(n, bs)[i / bs], i)
    {
      RowInItsBatch(n, bs, i);
    }
    forall i, k | 0 <= k < |Batches(n, bs)| && InBatch(Batches(n, bs)[k], i)
      ensures k == i / bs
    {
      RowInNoOtherBatch(n, bs, i, k);
    }
  }

  // ---------------------------------------------------------------- call trace

  /** The calls a training run makes on the model, the loss functions and the optimizer. */
  datatype Call =
    | Evaluate                   // compute_accuracy on the validation set: a forward pass only
    | Forward(lo: nat, hi: nat)  // model.forward on the input rows [lo, hi)
    | Loss(lo: nat, hi: nat)     // mse_loss against the target rows [lo, hi)
    | LossGrad(lo: nat, hi: nat) // mse_loss_grad against the target rows [lo, hi)
    | ZeroGrad                   // model.zero_grad
    | Backward                   // model.backward
    | Step                       // optimizer.step

  /** One loop iteration on batch b, whose target rows end at yHi. */
  function BatchCalls(b: Batch, yHi: nat): seq<Call>
  {
    [Forward(b.lo, b.hi), Loss(b.lo, yHi), LossGrad(b.lo, yHi), ZeroGrad, Backward, Step]
  }

  /**
   * The calls of one epoch; the target slice of a batch is cut with the
   * target sequence's own length ny, as `y_train[j:min(len(y_train), j + bs)]`.
   */
  function EpochTrace(batches: seq<Batch>, ny: nat, bs: nat): seq<Call>
  {
    if |batches| == 0 then []
    else BatchCalls(batches[0], Min(ny, batches[0].lo + bs)) + EpochTrace(batches[1..], ny, bs)
  }

  /** `for iteration in range(epochs)`: an evaluation then an epoch, and a final evaluation. */
  function TrainingTrace(epoch: seq<Call>, epochs: nat): seq<Call>
  {
    Repeat([Evaluate] + epoch, epochs) + [Evaluate]
  }

  function Repeat(s: seq<Call>, times: nat): seq<Call>
  {
    if times == 0 then [] else Repeat(s, times - 1) + s
  }

  /**
   * What the calls so far leave behind for the next one: the batch whose
   * forward pass the model holds (an evaluation's forward pass replaces it),
   * the batch whose loss gradient is at hand, whether the gradients were
   * zeroed since the last step and whether backward has run since then.
   */
  datatype Phase = Phase(forwarded: Option<nat>, gradOf: Option<nat>, zeroed: bool, backpropagated: bool)

  /** Nothing pending: the state at the start of a run and after every optimizer step. */
  const Idle := Phase(None, None, false, false)

  /**
   * The data dependencies between the calls: a loss and its gradient only on
   * the batch whose forward pass the model holds, backward only with such a
   * gradient and after a zero_grad since the last step (so the gradients are
   * this step's alone), and step only after backward. Evaluation may come at
   * any point; its forward pass discards the training one.
   */
  function Next(p: Phase, c: Call): Option<Phase>
  {
    match c
    case Evaluate => Some(p.(forwarded := None, gradOf := None))
    case Forward(lo, _) => Some(p.(forwarded := Some(lo), gradOf := None))
    case Loss(lo, _) => if p.forwarded == Some(lo) then Some(p) else None
    case LossGrad(lo, _) => if p.forwarded == Some(lo) then Some(p.(gradOf := Some(lo))) else None
    case ZeroGrad => Some(p.(zeroed := true, backpropagated := false))
    case Backward => if p.zeroed && p.gradOf.Some? then Some(p.(backpropagated := true)) else None
    case Step => if p.backpropagated then Some(Idle) else None
  }

  /** The phase after a sequence of calls, or None once a call is out of order. */
  function Run(p: Phase, trace: seq<Call>): Option<Phase>
    decreases |trace|
  {
    if |trace| == 0 then Some(p)
    else
      match Next(p, trace[0])
      case None => None
      case Some(q) => Run(q, trace[1..])
  }

  lemma {:induction false} RunAppend(p: Phase, a: seq<Call>, b: seq<Call>)
    ensures Run(p, a + b) == if Run(p, a).Some? then Run(Run(p, a).value, b) else None
    decreases |a|
  {
    if |a| > 0 {
      assert (a + b)[0] == a[0] && (a + b)[1..] == a[1..] + b;
      if Next(p, a[0]).Some? {
        RunAppend(Next(p, a[0]).value, a[1..], b);
      }
    } else {
      assert a + b == b;
    }
  }

  lemma BatchCallsLegal(b: Batch, yHi: nat)
    ensures Run(Idle, BatchCalls(b, yHi)) == Some(Idle)
  {
    var t := BatchCalls(b, yHi);
    var p1 := Phase(Some(b.lo), None, false, false);
    var p3 := Phase(Some(b.lo), Some(b.lo), false, false);
    var p4 := Phase(Some(b.lo), Some(b.lo), true, false);
    var p5 := Phase(Some(b.lo), Some(b.lo), true, true);
    assert Run(Idle, t) == Run(p1, t[1..]);
    assert Run(p1, t[1..]) == Run(p1, t[2..]);
    assert Run(p1, t[2..]) == Run(p3, t[3..]);
    assert Run(p3, t[3..]) == Run(p4, t[4..]);
    assert Run(p4, t[4..]) == Run(p5, t[5..]);
    assert Run(p5, t[5..]) == Run(Idle, t[6..]);
  }

  /**
   * The automaton asks for the data dependencies only, not the driver's own
   * order: zeroing the gradients before the forward pass is accepted too.
   */
  lemma ZeroGradFirstAccepted()
    ensures Run(Idle, [ZeroGrad, Forward(0, 1), Loss(0, 1), LossGrad(0, 1), Backward, Step]) == Some(Idle)
  {
    var t := [ZeroGrad, Forward(0, 1), Loss(0, 1), LossGrad(0, 1), Backward, Step];
    var z := Phase(None, None, true, false);
    var f := Phase(Some(0), None, true, false);
    var g := Phase(Some(0), Some(0), true, false);
    var d := Phase(Some(0), Some(0), true, true);
    assert Run(Idle, t) == Run(z, t[1..]);
    assert Run(z, t[1..]) == Run(f, t[2..]);
    assert Run(f, t[2..]) == Run(f, t[3..]);
    assert Run(f, t[3..]) == Run(g, t[4..]);
    assert Run(g, t[4..]) == Run(d, t[5..]);
    assert Run(d, t[5..]) == Run(Idle, t[6..]);
  }

  /** A step with no backward since the last step is refused. */
  lemma StepWithoutBackwardRefused()
    ensures Run(Idle, [Forward(0, 1), Loss(0, 1), LossGrad(0, 1), ZeroGrad, Step]) == None
  {
    var t := [Forward(0, 1), Loss(0, 1), LossGrad(0, 1), ZeroGrad, Step];
    var f := Phase(Some(0), None, false, false);
    var g := Phase(Some(0), Some(0), false, false);
    var z := Phase(Some(0), Some(0), true, false);
    assert Run(Idle, t) == Run(f, t[1..]);
    assert Run(f, t[1..]) == Run(f, t[2..]);
    assert Run(f, t[2..]) == Run(g, t[3..]);
    assert Run(g, t[3..]) == Run(z, t[4..]);
    assert Next(z, Step) == None;
  }

  /** A backward with no zero_grad since the last step is refused. */
  lemma BackwardWithoutZeroGradRefused()
    ensures Run(Idle, [Forward(0, 1), LossGrad(0, 1), Backward]) == None
  {
    var t := [Forward(0, 1), LossGrad(0, 1), Backward];
    var f := Phase(Some(0), None, false, false);
    var g := Phase(Some(0), Some(0), false, false);
    assert Run(Idle, t) == Run(f, t[1..]);
    assert Run(f, t[1..]) == Run(g, t[2..]);
    assert Next(g, Backward) == None;
  }

  /** Every epoch is a sequence of complete, correctly ordered iterations. */
  lemma {:induction false} EpochTraceLegal(batches: seq<Batch>, ny: nat, bs: nat)
    ensures Run(Idle, EpochTrace(batches, ny, bs)) == Some(Idle)
  {
    if |batches| > 0 {
      var first := BatchCalls(batches[0], Min(ny, batches[0].lo + bs));
      BatchCallsLegal(batches[0], Min(ny, batches[0].lo + bs));
      EpochTraceLegal(batches[1..], ny, bs);
      RunAppend(Idle, first, EpochTrace(batches[1..], ny, bs));
    }
  }

  /** Iteration k of an epoch occupies calls 6k .. 6k + 5 and works on batch k. */
  lemma {:induction false} EpochTraceBlocks(batches: seq<Batch>, ny: nat, bs: nat)
    ensures |EpochTrace(batches, ny, bs)| == 6 * |batches|
    ensures forall k :: 0 <= k < |batches| ==>
              EpochTrace(batches, ny, bs)[6 * k..6 * k + 6] == BatchCalls(batches[k], Min(ny, batches[k].lo + bs))
  {
    if |batches| > 0 {
      var t := EpochTrace(batches, ny, bs);
      var rest := EpochTrace(batches[1..], ny, bs);
      EpochTraceBlocks(batches[1..], ny, bs);
      forall k | 1 <= k < |batches|
        ensures t[6 * k..6 * k + 6] == BatchCalls(batches[k], Min(ny, batches[k].lo + bs))
      {
        assert batches[k] == batches[1..][k - 1];
        assert t[6 * k..6 * k + 6] == rest[6 * (k - 1)..6 * (k - 1) + 6];
      }
    }
  }

  /** In an epoch every optimizer step directly follows that iteration's zero_grad and backward. */
  lemma StepFollowsZeroGradAndBackward(batches: seq<Batch>, ny: nat, bs: nat)
    ensures |EpochTrace(batches, ny, bs)| == 6 * |batches|
    ensures forall t :: 0 <= t < |EpochTrace(batches, ny, bs)| && EpochTrace(batches, ny, bs)[t] == Step ==>
              t >= 5 && EpochTrace(batches, ny, bs)[t - 2] == ZeroGrad &&
              EpochTrace(batches, ny, bs)[t - 1] == Backward &&
              EpochTrace(batches, ny, bs)[t - 5] == Forward(batches[t / 6].lo, batches[t / 6].hi)
  {
    assert |EpochTrace(batches, ny, bs)| == 6 * |batches| by {
      EpochTraceBlocks(batches, ny, bs);
    }
    forall t | 0 <= t < |EpochTrace(batches, ny, bs)| && EpochTrace(batches, ny, bs)[t] == Step {
      StepAt(batches, ny, bs, t);
    }
  }

  /** The calls before the step at position t of an epoch. */
  lemma StepAt(batches: seq<Batch>, ny: nat, bs: nat, t: nat)
    requires t < |EpochTrace(batches, ny, bs)| && EpochTrace(batches, ny, bs)[t] == Step
    ensures |EpochTrace(batches, ny, bs)| == 6 * |batches|
    ensures t >= 5 && t / 6 < |batches|
    ensures EpochTrace(batches, ny, bs)[t - 2] == ZeroGrad && EpochTrace(batches, ny, bs)[t - 1] == Backward
    ensures EpochTrace(batches, ny, bs)[t - 5] == Forward(batches[t / 6].lo, batches[t / 6].hi)
  {
    var trace := EpochTrace(batches, ny, bs);
    assert |trace| == 6 * |batches| by {
      EpochTraceBlocks(batches, ny, bs);
    }
    var k := t / 6;
    FloorDivBounds(t, 6);
    assert 6 * k <= t < 6 * k + 6 && k < |batches|;
    var block := trace[6 * k..6 * k + 6];
    assert block == BatchCalls(batches[k], Min(ny, batches[k].lo + bs)) by {
      EpochTraceBlocks(batches, ny, bs);
    }
    assert trace[t] == block[t - 6 * k];
    assert t - 6 * k == 5;
    assert trace[t - 1] == block[4] && trace[t - 2] == block[3] && trace[t - 5] == block[0];
  }

  /** A whole training run, with its evaluations, keeps the order too. */
  lemma {:induction false} TrainingTraceLegal(epoch: seq<Call>, epochs: nat)
    requires Run(Idle, epoch) == Some(Idle)
    ensures Run(Idle, Repeat([Evaluate] + epoch, epochs)) == Some(Idle)
    ensures Run(Idle, TrainingTrace(epoch, epochs)) == Some(Idle)
  {
    RunAppend(Idle, [Evaluate], epoch);
    if epochs > 0 {
      TrainingTraceLegal(epoch, epochs - 1);
      RunAppend(Idle, Repeat([Evaluate] + epoch, epochs - 1), [Evaluate] + epoch);
    }
    RunAppend(Idle, Repeat([Evaluate] + epoch, epochs), [Evaluate]);
  }

  /**
   * One epoch of the training loop over n input rows and ny target rows with
   * batch size bs (non-zero: it is GLOBAL_BATCH_SIZE / size after the
   * divisibility assertion, see LoadLocal).
   */
  method TrainEpoch(n: nat, ny: nat, bs: nat) returns (trace: seq<Call>)
    requires bs >= 1
    ensures trace == EpochTrace(Batches(n, bs), ny, bs)
  {
    trace := [];
    var j: nat := 0;
    while j < n
      invariant EpochTrace(Batches(n, bs), ny, bs) == trace + EpochTrace(BatchesFrom(j, n, bs), ny, bs)
      decreases n - j
    {
      var hi := Min(n, j + bs);
      var yHi := Min(ny, j + bs);
      ghost var rest := BatchesFrom(j + bs, n, bs);
      assert BatchesFrom(j, n, bs) == [Batch(j, hi)] + rest;
      assert ([Batch(j, hi)] + rest)[1..] == rest;
      assert EpochTrace(BatchesFrom(j, n, bs), ny, bs) == BatchCalls(Batch(j, hi), yHi) + EpochTrace(rest, ny, bs);
      trace := trace + [Forward(j, hi), Loss(j, yHi), LossGrad(j, yHi), ZeroGrad, Backward, Step];
      j := j + bs;
    }
  }

  /** The epochs of the driver, each preceded by an evaluation, and a final evaluation. */
  method Train(n: nat, ny: nat, bs: nat, epochs: nat) returns (trace: seq<Call>)
    requires bs >= 1
    ensures trace == TrainingTrace(EpochTrace(Batches(n, bs), ny, bs), epochs)
  {
    trace := [];
    for iteration := 0 to epochs
      invariant trace == Repeat([Evaluate] + EpochTrace(Batches(n, bs), ny, bs), iteration)
    {
      var epoch := TrainEpoch(n, ny, bs);
      trace := trace + ([Evaluate] + epoch);
    }
    trace := trace + [Evaluate];
  }

  /**
   * The whole process: load the local shard, fail if the global batch does
   * not divide, otherwise train for EPOCHS epochs on the local rows.
   */
  method TrainProcess<X, Y>(xTrain: seq<X>, yTrain: seq<Y>, rank: nat, size: nat)
    returns (r: Result<seq<Call>, LoadError>)
    requires rank < size
    ensures r.Success? <==> GLOBAL_BATCH_SIZE % size == 0
    ensures r.Success? ==>
              var d := LoadLocal(xTrain, yTrain, rank, size).value;
              r.value == TrainingTrace(EpochTrace(Batches(|d.x|, d.batchSize), |d.y|, d.batchSize), EPOCHS)
    ensures r.Success? ==> Run(Idle, r.value) == Some(Idle)
  {
    var loaded := LoadLocal(xTrain, yTrain, rank, size);
    if loaded.Failure? {
      return Failure(loaded.error);
    }
    var d := loaded.value;
    var trace := Train(|d.x|, |d.y|, d.batchSize, EPOCHS);
    EpochTraceLegal(Batches(|d.x|, d.batchSize), |d.y|, d.batchSize);
    TrainingTraceLegal(EpochTrace(Batches(|d.x|, d.batchSize), |d.y|, d.batchSize), EPOCHS);
    r := Success(trace);
  }

  // ---------------------------------------------------------------- accuracy

  /**
   * `np.mean(pred == target)` as the pair (agreeing rows, rows): the
   * correct count is the number of positions where the two index vectors agree.
   */
  function Accuracy(pred: seq<int>, target: seq<int>): (r: Tally)
    requires |pred| == |target|
    ensures r.total == |pred|
    ensures r.correct == |MatchPositions(pred, target)|
    ensures r.correct <= r.total
    ensures r.correct == r.total <==> pred == target
  {
    MatchCountIsPositionCount(pred, target);
    MatchCountBounds(pred, target);
    Tally(MatchCount(pred, target), |pred|)
  }
}
