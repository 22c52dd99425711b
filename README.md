# Index logic of the ShallowSpeed distributed MLP drivers

This project models the integer bookkeeping of two MPI training drivers of
ShallowSpeed, written in Dafny and proved correct:

- `distributed_MLP/train_MLP_DDP.py` runs data and pipeline parallelism
  together. A world of `DP * PP` ranks is split into data-parallel
  communicators, colour `rank % PP`, and pipeline communicators, colour
  `rank // PP`. The driver checks its configuration, sizes the per-replica
  batches and tells each rank which dataset shard to load. In
  `compute_accuracy`, only the last pipeline stage tallies correct
  predictions.
- `distributed_MLP/NN_From_Scratch.py` runs plain data parallelism. Each
  process keeps the training rows `rank, rank + size, ...`, trains on batches
  of `GLOBAL_BATCH_SIZE // size` rows (the last batch may be short), and
  calls forward, loss, loss gradient, `zero_grad`, `backward` and `step` on
  each batch.

Modules:

- `Slicing`: Python's `rows[start:stop:step]`.
- `MpiSplit`: `Comm.Split` with the default key. The new communicator holds
  the ranks of one colour in increasing order, and the new rank is a rank's
  position in that order.
- `DdpTopology`: start-up of `train_MLP_DDP.py`.
- `DdpAccuracy`: its `compute_accuracy`.
- `Matches`: `np.sum(pred == target)`.
- `NNFromScratch`: sharding, the batch loop as a trace of calls, and the
  accuracy of `NN_From_Scratch.py`.
- `DivMod` and `Wrappers`: helper modules.

The drivers' assertion failures, and the division by a micro-batch count of
zero, are `Failure` results. MPI guarantees `rank < size`, and the model
takes that as a precondition.

## Model

| member | source | states |
|---|---|---|
| `DdpTopology.Setup` | distributed_MLP/train_MLP_DDP.py:47-81 | Start-up succeeds exactly when DP*PP is the world size, DP divides the global batch and the micro-batch count is non-zero. A failure names the first check that fails, in the driver's order: the world size (:49), then the batch split (:50), then the micro-batch division (:74). The sanity check on communicator sizes (:57) never fails. On success: replica = rank // PP < DP and stage = rank % PP < PP. The pipeline group is the block of consecutive ranks of the replica, and the data-parallel group is one rank per replica at the same stage. batch_size * DP == GLOBAL_BATCH_SIZE, and the micro-batch size is the floor of batch_size / N_MUBATCHES. The training shard is (replica, DP) and the validation shard is (0, 1). |
| `DdpTopology.Place` | distributed_MLP/train_MLP_DDP.py:54-81 | The placement of an accepted start-up meets every success clause of `Setup`, given the groups read from the two splits. |
| `DdpTopology.Communicators` | distributed_MLP/train_MLP_DDP.py:54-63 | The two split communicators of a rank are the stage's stride and the replica's block, and the rank's positions in them are rank // PP < DP and rank % PP < PP. |
| `DdpTopology.ReplicaBatch` | distributed_MLP/train_MLP_DDP.py:73 | Once DP divides the global batch, each replica's batch times DP is exactly the global batch. |
| `DdpTopology.MicroBatch` | distributed_MLP/train_MLP_DDP.py:74 | The micro-batch size m is the largest for which N_MUBATCHES micro-batches fit: m * N <= batch < (m + 1) * N. |
| `DdpTopology.CoordinatesBijective` | distributed_MLP/train_MLP_DDP.py:54-55 | rank -> (rank // PP, rank % PP) maps [0, DP*PP) into [0,DP)x[0,PP), and q*PP + s is its inverse in both directions. |
| `DdpTopology.PipelineGroup` | distributed_MLP/train_MLP_DDP.py:55 | The ranks with colour rank // PP == q, in order, are exactly q*PP, ..., q*PP + PP - 1. |
| `DdpTopology.DataParallelGroup` | distributed_MLP/train_MLP_DDP.py:54 | The ranks with colour rank % PP == s, in order, are exactly s, PP + s, ..., (DP-1)*PP + s. |
| `DdpTopology.RankGroups` | distributed_MLP/train_MLP_DDP.py:54-63 | A rank's communicators have DP and PP members. Its rank in the pipeline communicator (the model's `stage_idx`) is rank % PP, and its rank in the data-parallel communicator is rank // PP. |
| `DdpTopology.PlacementBijective` | distributed_MLP/train_MLP_DDP.py:54-57 | Under an accepted configuration no two ranks get the same (replica, stage), and every pair in [0,DP)x[0,PP) is held by some rank. |
| `DdpTopology.GroupsCoverCoordinates` | distributed_MLP/train_MLP_DDP.py:54-75 | Member k of a data-parallel group is replica k at the same stage. Member k of a pipeline group is stage k, and every member loads the same training shard. |
| `DdpTopology.ValidationShardIsWholeSet` | distributed_MLP/train_MLP_DDP.py:78-81 | The validation load as shard 0 of 1 selects every row in order. |
| `DdpTopology.DefaultConfiguration` | distributed_MLP/train_MLP_DDP.py:43-74 | With the driver's constants on one process, start-up succeeds with stage 0 of 1, batch size 128 and micro-batch size 128. |
| `DdpAccuracy.ComputeAccuracy` | distributed_MLP/train_MLP_DDP.py:12-38 | Every batch id is executed in order on every stage. A result exists exactly on the last stage (stage_id == pipeline_depth - 1). There, correct is the number of agreeing rows over all batches, total is the number of rows, and correct <= total. |
| `DdpAccuracy.TallyBounded` | distributed_MLP/train_MLP_DDP.py:20-34 | The tallied correct count never exceeds the tallied row count. |
| `DdpAccuracy.BatchedTallyIsWholeSetTally` | distributed_MLP/train_MLP_DDP.py:22-34 | Tallying batch by batch gives the same counts as comparing the concatenated validation set at once. |
| `Matches.MatchCountIsPositionCount` | distributed_MLP/NN_From_Scratch.py:28-30 | The match count is the number of positions i with pred[i] == target[i]. |
| `Matches.MatchCountBounds` | distributed_MLP/NN_From_Scratch.py:28-30 | The match count is at most the row count. It equals the row count exactly when pred == target, and is 0 exactly when they differ at every row. |
| `Matches.MatchCountAppend` | distributed_MLP/train_MLP_DDP.py:33 | Match counts of two consecutive blocks of rows add up. |
| `NNFromScratch.Accuracy` | distributed_MLP/NN_From_Scratch.py:28-30 | The accuracy is (matching positions, rows), with matches <= rows, and matches == rows exactly when every prediction is right. |
| `MpiSplit.SplitMembers` | distributed_MLP/train_MLP_DDP.py:54-55 | A split group holds exactly the ranks of its colour, in increasing order. |
| `MpiSplit.SplitPartitions` | distributed_MLP/train_MLP_DDP.py:54-57 | With colours in [0,k), each rank is in its own colour's group and no other, and the k group sizes add up to the world size. |
| `MpiSplit.SplitRank` | distributed_MLP/train_MLP_DDP.py:62-63 | A rank's rank in its new communicator is its position among the ranks of its colour. |
| `Slicing.StepSliceOfRange` | distributed_MLP/NN_From_Scratch.py:78-79 | `range(n)[start:stop:step]` is increasing. It holds exactly the i with start <= i < min(stop, n) and (i - start) % step == 0. |
| `Slicing.StrideMembers` | distributed_MLP/NN_From_Scratch.py:78-79 | The shard `[rank:n:size]` holds exactly the indices i < n with i % size == rank, in increasing order. |
| `Slicing.StrideLength` | distributed_MLP/NN_From_Scratch.py:78-79 | `rows[start::step]` of n rows holds ceil((n - start) / step) rows, and none once start >= n. |
| `Slicing.StepSliceAt` | distributed_MLP/NN_From_Scratch.py:78-79 | Row k of a step slice of rows is the row at the k-th picked index. |
| `Slicing.UnitStrideIsSuffix` | distributed_MLP/train_MLP_DDP.py:81 | A slice with step 1 from j to the end is the suffix from j. |
| `NNFromScratch.LoadLocal` | distributed_MLP/NN_From_Scratch.py:75-81 | Loading succeeds exactly when size divides GLOBAL_BATCH_SIZE. The batch size is then at least 1, and batch_size * size == GLOBAL_BATCH_SIZE. |
| `NNFromScratch.LocalRowsAligned` | distributed_MLP/NN_From_Scratch.py:78-79 | With len(x) == len(y), row k of the x-shard and row k of the y-shard come from the same original row. That row is the k-th index i with i % size == rank. |
| `NNFromScratch.ShardIsResidueClass` | distributed_MLP/NN_From_Scratch.py:78-79 | The shard of rank r is the colour class r of i -> i % size. |
| `NNFromScratch.ShardsPartitionRows` | distributed_MLP/NN_From_Scratch.py:75-79 | Each row index is in the shard of its residue and in no other. The shard lengths add up to n, so every row is used by exactly one process, once. |
| `NNFromScratch.ShardLengthsBalanced` | distributed_MLP/NN_From_Scratch.py:78-79 | For ranks r < r', shard r holds as many rows as shard r' or exactly one more. So shards, and with them the number of batches per epoch, can differ between processes. |
| `NNFromScratch.BatchesTile` | distributed_MLP/NN_From_Scratch.py:100-102 | There are ceil(n/bs) batches. Each is non-empty and at most bs long. They start at 0, consecutive batches abut, and the last ends at n. Only the last may be short. |
| `NNFromScratch.BatchesCoverOnce` | distributed_MLP/NN_From_Scratch.py:100-102 | Row i lies in batch i // bs and in no other batch. |
| `NNFromScratch.BatchAt` | distributed_MLP/NN_From_Scratch.py:100-101 | Batch k is [k*bs, min(n, k*bs + bs)) and starts below n. |
| `NNFromScratch.TrainEpoch` | distributed_MLP/NN_From_Scratch.py:100-110 | The loop's calls are exactly the epoch trace of the batches [j, min(n, j+bs)) for j in range(0, n, bs). |
| `NNFromScratch.BatchCallsLegal` | distributed_MLP/NN_From_Scratch.py:104-110 | One iteration (forward, loss, loss gradient, zero_grad, backward, step) satisfies the data dependencies between the calls and leaves nothing pending. |
| `NNFromScratch.EpochTraceLegal` | distributed_MLP/NN_From_Scratch.py:100-110 | An epoch satisfies the data dependencies between the driver's calls. Loss and its gradient are taken only on the batch whose forward pass the model holds. Backward runs only with that gradient at hand and after a zero_grad since the last step. Step runs only after a backward. The automaton that states these dependencies also accepts orders other than the driver's (`ZeroGradFirstAccepted`). |
| `NNFromScratch.EpochTraceBlocks` | distributed_MLP/NN_From_Scratch.py:100-110 | Iteration k occupies calls 6k..6k+5 and works on batch k. |
| `NNFromScratch.StepFollowsZeroGradAndBackward` | distributed_MLP/NN_From_Scratch.py:104-110 | Every step is immediately preceded by backward and, before that, zero_grad. Five calls earlier comes the forward of that same batch. |
| `NNFromScratch.Train` | distributed_MLP/NN_From_Scratch.py:93-112 | The run is EPOCHS repetitions of (evaluation, epoch) followed by a final evaluation. |
| `NNFromScratch.TrainingTraceLegal` | distributed_MLP/NN_From_Scratch.py:93-112 | A whole run with its evaluations keeps the call order. |
| `NNFromScratch.TrainProcess` | distributed_MLP/NN_From_Scratch.py:78-112 | A process fails exactly when size does not divide GLOBAL_BATCH_SIZE. Otherwise it trains EPOCHS epochs on its shard with batch size GLOBAL_BATCH_SIZE / size, and its whole call trace is legal. |

## Left out

- MPI mechanics are not modelled: `COMM_WORLD`, `Barrier`, rank and size discovery, and the real `Split`. `Split` is modelled as "the ranks of equal colour in rank order". Rank and size are parameters.
- The post-training `assert_sync` model-hash comparison is not modelled. It compares floating-point weights across processes.
- Dataset download, normalisation, the train/test split and parquet/npy I/O are not modelled. They are file I/O and library calls.
- All numerics are left out: forward and backward passes, `mse_loss` and its gradient, SGD updates, and the argmax over float outputs. They live in `minMLP` or are floating point. Predicted and target class indices are inputs.
- `minMLP.pipe` (`Worker`, `Dataset`, `DataParallelSchedule`, `InferenceSchedule`) is not part of this model. `Worker.execute` appears only as the batch id it is handed. `Dataset.load` appears only as the (rank, size) arguments it receives. The validation-shard lemma assumes the interleaved `rows[rank::size]` rule used in `NN_From_Scratch.py`.
- The training loop of `train_MLP_DDP.py` (lines 85-99) is not modelled. It only hands batch ids from minMLP's `Dataset.get_num_batches` to `Worker.execute`.
- Timing, printing and `rprint` are left out, as are the `model.eval()`/`model.train()` mode switches, which only flip a flag inside `minMLP`.
- The choice between `MLP` and `Distributed_MLP` (`NN_From_Scratch.py` lines 84-87) is not modelled. With more than one process the driver passes the communicator into `Distributed_MLP`. The processes average their gradients there, and that gradient averaging is not modelled. Shards differ in length by up to one row (`ShardLengthsBalanced`), so with small batches some ranks run one more iteration per epoch than others. Whether that leaves the averaging's collective calls unmatched depends on `Distributed_MLP`, which is not part of this model.
- DdpAccuracy.ComputeAccuracy: returns the pair (correct, total) instead of the float `correct / total`. It does not model the `ZeroDivisionError` when there are no validation batches.
- NNFromScratch.Accuracy: returns the pair (matches, rows) instead of the float `np.mean`. It does not model the NaN of an empty validation set.
- NNFromScratch.TrainEpoch: a call records row bounds, not the rows themselves. Target slices are cut with the targets' own length, as in the source. `LocalRowsAligned` shows that the two shards have equal length when the inputs do.
- `NN_From_Scratch.py` shards every row: the shards of ranks 0..size-1 cover [0, n) once each (`ShardsPartitionRows`). Its batch loop keeps a short last batch (`BatchesTile`). Batch counting in minMLP's `Dataset.get_num_batches`, which the DDP driver relies on, is not modelled.
