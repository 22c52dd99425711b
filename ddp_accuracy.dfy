/**
 * The validation tally of the data- and pipeline-parallel driver. Every
 * stage runs the inference schedule for every validation batch (the stages
 * must all take part for activations to flow), but only the last stage holds
 * the model output, so only it compares predicted and target class indices
 * and keeps the running counts; every other stage reports nothing.
 *
 * The class indices of a batch, which the source obtains by an argmax over
 * float outputs and one-hot targets, are given here as integer vectors.
 */
module DdpAccuracy {
  import opened Wrappers
  import opened Slicing
  import opened Matches

  /** Both index vectors list the same batches, with equally many rows per batch. */
  predicate SameShapes(preds: seq<seq<int>>, targets: seq<seq<int>>)
  {
    |preds| == |targets| && forall b :: 0 <= b < |preds| ==> |preds[b]| == |targets[b]|
  }

  /** The rows of all batches. */
  function TotalRows(batches: seq<seq<int>>): nat
  {
    if |batches| == 0 then 0 else TotalRows(batches[..|batches| - 1]) + |batches[|batches| - 1]|
  }

  /** The agreeing rows of all batches. */
  function TotalMatches(preds: seq<seq<int>>, targets: seq<seq<int>>): nat
    requires SameShapes(preds, targets)
  {
    if |preds| == 0 then 0
    else
      var n := |preds| - 1;
      TotalMatches(preds[..n], targets[..n]) + MatchCount(preds[n], targets[n])
  }

  /** The batches laid end to end: the whole validation set in loading order. */
  function Flatten(batches: seq<seq<int>>): seq<int>
  {
    if |batches| == 0 then [] else Flatten(batches[..|batches| - 1]) + batches[|batches| - 1]
  }

  lemma {:induction false} FlattenLength(batches: seq<seq<int>>)
    ensures |Flatten(batches)| == TotalRows(batches)
  {
    if |batches| > 0 {
      FlattenLength(batches[..|batches| - 1]);
    }
  }

  lemma {:induction false} SameShapesSameRows(preds: seq<seq<int>>, targets: seq<seq<int>>)
    requires SameShapes(preds, targets)
    ensures TotalRows(preds) == TotalRows(targets)
  {
    if |preds| > 0 {
      var n := |preds| - 1;
      SameShapesSameRows(preds[..n], targets[..n]);
    }
  }

  /** A tally never counts more correct rows than rows. */
  lemma {:induction false} TallyBounded(preds: seq<seq<int>>, targets: seq<seq<int>>)
    requires SameShapes(preds, targets)
    ensures TotalMatches(preds, targets) <= TotalRows(preds)
  {
    if |preds| > 0 {
      var n := |preds| - 1;
      TallyBounded(preds[..n], targets[..n]);
      MatchCountBounds(preds[n], targets[n]);
    }
  }

  /**
   * Tallying batch by batch gives the same counts as comparing the whole
   * validation set at once.
   */
  lemma {:induction false} BatchedTallyIsWholeSetTally(preds: seq<seq<int>>, targets: seq<seq<int>>)
    requires SameShapes(preds, targets)
    ensures |Flatten(preds)| == TotalRows(preds) == |Flatten(targets)|
    ensures TotalMatches(preds, targets) == MatchCount(Flatten(preds), Flatten(targets))
  {
    FlattenLength(preds);
    FlattenLength(targets);
    SameShapesSameRows(preds, targets);
    if |preds| > 0 {
      var n := |preds| - 1;
      BatchedTallyIsWholeSetTally(preds[..n], targets[..n]);
      MatchCountAppend(Flatten(preds[..n]), Flatten(targets[..n]), preds[n], targets[n]);
    }
  }

  /**
   * `compute_accuracy`: runs every validation batch in order and, on the
   * last stage only, returns (correct, total) over all of them.
   * `executed` lists the batch ids handed to the worker, in order.
   */
  method ComputeAccuracy(stageId: int, pipelineDepth: int, preds: seq<seq<int>>, targets: seq<seq<int>>)
    returns (executed: seq<nat>, accuracy: Option<Tally>)
    requires SameShapes(preds, targets)
    ensures executed == Range(|targets|)
    ensures accuracy.Some? <==> stageId == pipelineDepth - 1
    ensures accuracy.Some? ==> accuracy.value == Tally(TotalMatches(preds, targets), TotalRows(preds))
    ensures accuracy.Some? ==> accuracy.value.correct <= accuracy.value.total
  {
    var correct, total := 0, 0;
    executed := [];
    for batchId := 0 to |targets|
      invariant executed == Range(batchId)
      invariant stageId == pipelineDepth - 1 ==>
                  correct == TotalMatches(preds[..batchId], targets[..batchId]) &&
                  total == TotalRows(preds[..batchId])
      invariant correct <= total
    {
      executed := executed + [batchId];
      if stageId == pipelineDepth - 1 {
        assert preds[..batchId + 1][..batchId] == preds[..batchId];
        assert targets[..batchId + 1][..batchId] == targets[..batchId];
        MatchCountBounds(preds[batchId], targets[batchId]);
        correct := correct + MatchCount(preds[batchId], targets[batchId]);
        total := total + |preds[batchId]|;
      }
    }
    assert preds[..|targets|] == preds && targets[..|targets|] == targets;
    if stageId == pipelineDepth - 1 {
      accuracy := Some(Tally(correct, total));
    } else {
      accuracy := None;
    }
  }
}
