/**
 * Start-up of the data- and pipeline-parallel training driver: the
 * configuration checks, the two communicator splits of the flat rank space,
 * the per-replica batch sizes and the arguments each rank's datasets are
 * loaded with.
 *
 * A rank r of a world of DP * PP ranks is placed at replica r / PP and
 * stage r % PP. The data-parallel communicator (used to average gradients)
 * joins the ranks that hold the same stage; the pipeline communicator (used
 * to relay activations and gradients) joins the ranks of one replica.
 */
module DdpTopology {
  import opened Wrappers
  import opened DivMod
  import opened Slicing
  import opened MpiSplit

  /** The driver's fixed configuration. */
  const DP_TILE_FACTOR: nat := 1
  const PP_TILE_FACTOR: nat := 1
  const GLOBAL_BATCH_SIZE: nat := 128
  const N_MUBATCHES: nat := 1

  /** The replica (pipeline colour) of a rank. */
  function Replica(rank: nat, pp: nat): nat
    requires pp >= 1
  {
    rank / pp
  }

  /** The stage (data-parallel colour) of a rank. */
  function Stage(rank: nat, pp: nat): nat
    requires pp >= 1
  {
    rank % pp
  }

  /** The rank that holds stage s of replica q. */
  function RankAt(q: nat, s: nat, pp: nat): nat
  {
    q * pp + s
  }

  /** The colour every rank passes to the data-parallel `Split`. */
  function DpColours(worldSize: nat, pp: nat): seq<int>
    requires pp >= 1
  {
    seq(worldSize, r requires 0 <= r < worldSize => Stage(r, pp))
  }

  /** The colour every rank passes to the pipeline `Split`. */
  function PpColours(worldSize: nat, pp: nat): seq<int>
    requires pp >= 1
  {
    seq(worldSize, r requires 0 <= r < worldSize => Replica(r, pp))
  }

  /** The ranks of replica q, stage by stage. */
  function PipelineBlock(q: nat, pp: nat): seq<nat>
  {
    seq(pp, k requires 0 <= k < pp => RankAt(q, k, pp))
  }

  /** The ranks that hold stage s, replica by replica. */
  function StageStride(dp: nat, s: nat, pp: nat): seq<nat>
  {
    seq(dp, k requires 0 <= k < dp => RankAt(k, s, pp))
  }

  /**
   * Rank -> (replica, stage) is a bijection from [0, dp * pp) onto
   * [0, dp) x [0, pp), with inverse RankAt.
   */
  lemma CoordinatesBijective(dp: nat, pp: nat)
    requires pp >= 1
    ensures forall r: nat :: r < dp * pp ==>
              Replica(r, pp) < dp && Stage(r, pp) < pp && RankAt(Replica(r, pp), Stage(r, pp), pp) == r
    ensures forall q: nat, s: nat :: q < dp && s < pp ==>
              RankAt(q, s, pp) < dp * pp && Replica(RankAt(q, s, pp), pp) == q && Stage(RankAt(q, s, pp), pp) == s
  {
    forall r: nat | r < dp * pp
      ensures Replica(r, pp) < dp && Stage(r, pp) < pp && RankAt(Replica(r, pp), Stage(r, pp), pp) == r
    {
      if r / pp >= dp {
        MulMonotone(dp, r / pp, pp);
      }
    }
    forall q: nat, s: nat | q < dp && s < pp
      ensures RankAt(q, s, pp) < dp * pp && Replica(RankAt(q, s, pp), pp) == q && Stage(RankAt(q, s, pp), pp) == s
    {
      MulMonotone(q + 1, dp, pp);
      assert (q + 1) * pp == q * pp + pp;
      DivModUnique(q * pp + s, pp, q, s);
    }
  }

  /** The pipeline communicator of colour q is the block of consecutive ranks q * pp .. q * pp + pp - 1. */
  lemma PipelineGroup(dp: nat, pp: nat, q: nat)
    requires pp >= 1 && q < dp
    ensures Split(PpColours(dp * pp, pp), q) == PipelineBlock(q, pp)
  {
    var colours := PpColours(dp * pp, pp);
    var block := PipelineBlock(q, pp);
    SplitMembers(colours, q);
    CoordinatesBijective(dp, pp);
    forall x
      ensures x in block <==> x in Split(colours, q)
    {
      if x in block {
        var k :| 0 <= k < pp && block[k] == x;
        assert x == RankAt(q, k, pp);
      }
      if x in Split(colours, q) {
        var r: nat := x;
        assert block[Stage(r, pp)] == RankAt(Replica(r, pp), Stage(r, pp), pp);
      }
    }
    IncreasingEqual(block, Split(colours, q));
  }

  /** The data-parallel communicator of colour s holds s, pp + s, 2 * pp + s, ...: one rank per replica. */
  lemma DataParallelGroup(dp: nat, pp: nat, s: nat)
    requires pp >= 1 && s < pp
    ensures Split(DpColours(dp * pp, pp), s) == StageStride(dp, s, pp)
  {
    var colours := DpColours(dp * pp, pp);
    var stride := StageStride(dp, s, pp);
    SplitMembers(colours, s);
    CoordinatesBijective(dp, pp);
    forall i, j | 0 <= i < j < dp
      ensures stride[i] < stride[j]
    {
      MulMonotone(i + 1, j, pp);
      assert (i + 1) * pp == i * pp + pp;
    }
    forall x
      ensures x in stride <==> x in Split(colours, s)
    {
      if x in stride {
        var k :| 0 <= k < dp && stride[k] == x;
        assert x == RankAt(k, s, pp);
      }
      if x in Split(colours, s) {
        var r: nat := x;
        assert stride[Replica(r, pp)] == RankAt(Replica(r, pp), Stage(r, pp), pp);
      }
    }
    IncreasingEqual(stride, Split(colours, s));
  }

  /**
   * Both communicators of a rank, and its rank in each: its position in the
   * pipeline is its stage, its position in the data-parallel group its replica.
   */
  lemma RankGroups(worldSize: nat, dp: nat, pp: nat, rank: nat)
    requires rank < worldSize && dp * pp == worldSize
    ensures dp >= 1 && pp >= 1
    ensures Replica(rank, pp) < dp && Stage(rank, pp) < pp
    ensures Split(DpColours(worldSize, pp), Stage(rank, pp)) == StageStride(dp, Stage(rank, pp), pp)
    ensures Split(PpColours(worldSize, pp), Replica(rank, pp)) == PipelineBlock(Replica(rank, pp), pp)
    ensures |StageStride(dp, Stage(rank, pp), pp)| == dp && |PipelineBlock(Replica(rank, pp), pp)| == pp
    ensures SplitRank(DpColours(worldSize, pp), rank) == Replica(rank, pp)
    ensures SplitRank(PpColours(worldSize, pp), rank) == Stage(rank, pp)
  {
    FactorsPositive(dp, pp, worldSize);
    CoordinatesBijective(dp, pp);
    var q, s := Replica(rank, pp), Stage(rank, pp);
    DataParallelGroup(dp, pp, s);
    PipelineGroup(dp, pp, q);
    var k := SplitRank(DpColours(worldSize, pp), rank);
    assert RankAt(k, s, pp) == rank;
    DivModUnique(rank, pp, k, s);
    var j := SplitRank(PpColours(worldSize, pp), rank);
    assert RankAt(q, j, pp) == rank;
    DivModUnique(rank, pp, q, j);
  }

  datatype ConfigError =
    | WorldSizeMismatch   // DP * PP differs from the world size
    | BatchNotDivisible   // the global batch does not split evenly over the replicas
    | GroupSizeMismatch   // a communicator came out with the wrong size (the sanity check)
    | ZeroMicroBatches    // the micro-batch size divides by a micro-batch count of zero

  /** The two arguments `Dataset.load` is called with: the shard's rank and the number of shards. */
  datatype ShardSpec = ShardSpec(rank: nat, size: nat)

  /** What one rank derives at start-up. */
  datatype Placement = Placement(
    dpGroup: seq<nat>,      // members of the data-parallel communicator
    ppGroup: seq<nat>,      // members of the pipeline communicator
    replica: nat,           // rank in the data-parallel communicator
    stage: nat,             // rank in the pipeline communicator: the model's stage index
    nStages: nat,           // size of the pipeline communicator: the model's stage count
    batchSize: nat,         // per-replica batch size
    microBatchSize: nat,
    trainShard: ShardSpec,  // arguments of the training dataset's load
    valShard: ShardSpec)    // arguments of the validation dataset's load

  /**
   * The start-up of one rank of a world of `worldSize` ranks, with the tiling
   * factors dp and pp, the global batch size and the micro-batch count.
   * Every assertion of the driver becomes an error, reported in the order the
   * driver checks them; the sanity check on the communicator sizes is proved
   * never to fail.
   */
  function Setup(worldSize: nat, rank: nat, dp: nat, pp: nat, globalBatch: nat, nMicro: nat)
    : (r: Result<Placement, ConfigError>)
    requires rank < worldSize
    ensures r.Success? <==> dp * pp == worldSize && globalBatch % dp == 0 && nMicro >= 1
    ensures r != Failure(GroupSizeMismatch)
    ensures dp * pp != worldSize ==> r == Failure(WorldSizeMismatch)
    ensures dp * pp == worldSize && globalBatch % dp != 0 ==> r == Failure(BatchNotDivisible)
    ensures dp * pp == worldSize && globalBatch % dp == 0 && nMicro == 0 ==> r == Failure(ZeroMicroBatches)
    ensures r.Success? ==> PlacedAt(r.value, worldSize, rank, dp, pp, globalBatch, nMicro)
  {
    if dp * pp != worldSize then Failure(WorldSizeMismatch)
    else if (RankGroups(worldSize, dp, pp, rank); globalBatch % dp != 0) then Failure(BatchNotDivisible)
    else if |Split(DpColours(worldSize, pp), Stage(rank, pp))| != dp
         || |Split(PpColours(worldSize, pp), Replica(rank, pp))| != pp then Failure(GroupSizeMismatch)
    else if nMicro == 0 then Failure(ZeroMicroBatches)
    else Success(Place(worldSize, rank, dp, pp, globalBatch, nMicro))
  }

  /**
   * What an accepted start-up gives rank `rank`: its replica rank // PP and
   * stage rank % PP, the pipeline group (the replica's block of consecutive
   * ranks) and the data-parallel group (one rank per replica at the same
   * stage), the per-replica and micro batch sizes and the two load arguments.
   */
  ghost predicate PlacedAt(p: Placement, worldSize: nat, rank: nat, dp: nat, pp: nat, globalBatch: nat, nMicro: nat)
  {
    && pp >= 1 && dp >= 1 && nMicro >= 1
    && p.replica == Replica(rank, pp) && p.replica < dp
    && p.stage == Stage(rank, pp) && p.stage < pp
    && p.nStages == pp
    && p.ppGroup == PipelineBlock(p.replica, pp)
    && p.dpGroup == StageStride(dp, p.stage, pp)
    && p.batchSize * dp == globalBatch
    && p.microBatchSize * nMicro <= p.batchSize < (p.microBatchSize + 1) * nMicro
    && p.trainShard == ShardSpec(p.replica, dp)
    && p.valShard == ShardSpec(0, 1)
  }

  /** `GLOBAL_BATCH_SIZE // DP_tile_factor`: each replica's share, exact once dp divides the global batch. */
  function ReplicaBatch(globalBatch: nat, dp: nat): (b: nat)
    requires dp >= 1 && globalBatch % dp == 0
    ensures b * dp == globalBatch
  {
    var b := globalBatch / dp;
    assert globalBatch == b * dp + globalBatch % dp;
    b
  }

  /** `batch_size // N_MUBATCHES`: the largest size of which nMicro micro-batches fit in the batch. */
  function MicroBatch(batch: nat, nMicro: nat): (m: nat)
    requires nMicro >= 1
    ensures m * nMicro <= batch < (m + 1) * nMicro
  {
    var m := batch / nMicro;
    assert batch == m * nMicro + batch % nMicro;
    assert (m + 1) * nMicro == m * nMicro + nMicro;
    m
  }

  /**
   * The two communicators a rank gets from the splits and its rank in each:
   * (data-parallel group, pipeline group, replica, stage).
   */
  function Communicators(worldSize: nat, rank: nat, dp: nat, pp: nat): (g: (seq<nat>, seq<nat>, nat, nat))
    requires rank < worldSize && dp * pp == worldSize
    ensures pp >= 1 && g.2 == Replica(rank, pp) && g.2 < dp && g.3 == Stage(rank, pp) && g.3 < pp
    ensures g.0 == StageStride(dp, g.3, pp) && g.1 == PipelineBlock(g.2, pp)
  {
    RankGroups(worldSize, dp, pp, rank);
    var dpColours, ppColours := DpColours(worldSize, pp), PpColours(worldSize, pp);
    (Split(dpColours, Stage(rank, pp)), Split(ppColours, Replica(rank, pp)),
     SplitRank(dpColours, rank), SplitRank(ppColours, rank))
  }

  /** The placement of an accepted start-up, read off the two split communicators. */
  function Place(worldSize: nat, rank: nat, dp: nat, pp: nat, globalBatch: nat, nMicro: nat): (p: Placement)
    requires rank < worldSize && dp * pp == worldSize && nMicro >= 1
    requires dp >= 1 && globalBatch % dp == 0
    ensures PlacedAt(p, worldSize, rank, dp, pp, globalBatch, nMicro)
  {
    var (dpGroup, ppGroup, replica, stage) := Communicators(worldSize, rank, dp, pp);
    var batchSize := ReplicaBatch(globalBatch, dp);
    Placement(dpGroup, ppGroup, replica, stage, |ppGroup|, batchSize, MicroBatch(batchSize, nMicro),
              ShardSpec(replica, |dpGroup|), ShardSpec(0, 1))
  }

  /**
   * Under an accepted configuration no two ranks share a (replica, stage)
   * pair, and every pair in [0, dp) x [0, pp) is held by the rank RankAt gives.
   */
  lemma PlacementBijective(worldSize: nat, dp: nat, pp: nat, globalBatch: nat, nMicro: nat)
    requires worldSize >= 1 && dp * pp == worldSize && globalBatch % dp == 0 && nMicro >= 1
    ensures forall r1, r2 ::
              (0 <= r1 < worldSize && 0 <= r2 < worldSize &&
               Setup(worldSize, r1, dp, pp, globalBatch, nMicro).value.replica ==
               Setup(worldSize, r2, dp, pp, globalBatch, nMicro).value.replica &&
               Setup(worldSize, r1, dp, pp, globalBatch, nMicro).value.stage ==
               Setup(worldSize, r2, dp, pp, globalBatch, nMicro).value.stage)
              ==> r1 == r2
    ensures forall q, s :: 0 <= q < dp && 0 <= s < pp ==>
              RankAt(q, s, pp) < worldSize &&
              Setup(worldSize, RankAt(q, s, pp), dp, pp, globalBatch, nMicro).value.replica == q &&
              Setup(worldSize, RankAt(q, s, pp), dp, pp, globalBatch, nMicro).value.stage == s
  {
    FactorsPositive(dp, pp, worldSize);
    CoordinatesBijective(dp, pp);
  }

  /**
   * Each data-parallel communicator holds the rank of every replica at one
   * stage, listed by replica; each pipeline communicator holds the rank of
   * every stage of one replica, listed by stage, and all of them load the
   * same training shard.
   */
  lemma GroupsCoverCoordinates(worldSize: nat, rank: nat, dp: nat, pp: nat, globalBatch: nat, nMicro: nat)
    requires rank < worldSize && Setup(worldSize, rank, dp, pp, globalBatch, nMicro).Success?
    ensures var p := Setup(worldSize, rank, dp, pp, globalBatch, nMicro).value;
      && |p.dpGroup| == dp && |p.ppGroup| == pp
      && (forall k :: 0 <= k < dp ==>
            p.dpGroup[k] < worldSize &&
            Setup(worldSize, p.dpGroup[k], dp, pp, globalBatch, nMicro).value.replica == k &&
            Setup(worldSize, p.dpGroup[k], dp, pp, globalBatch, nMicro).value.stage == p.stage)
      && (forall k :: 0 <= k < pp ==>
            p.ppGroup[k] < worldSize &&
            Setup(worldSize, p.ppGroup[k], dp, pp, globalBatch, nMicro).value.stage == k &&
            Setup(worldSize, p.ppGroup[k], dp, pp, globalBatch, nMicro).value.trainShard == p.trainShard)
  {
    var p := Setup(worldSize, rank, dp, pp, globalBatch, nMicro).value;
    PlacementBijective(worldSize, dp, pp, globalBatch, nMicro);
    forall k | 0 <= k < dp
      ensures p.dpGroup[k] == RankAt(k, p.stage, pp)
    {
    }
    forall k | 0 <= k < pp
      ensures p.ppGroup[k] == RankAt(p.replica, k, pp)
    {
    }
  }

  /**
   * The validation dataset is loaded as shard 0 of 1, which under the
   * interleaved rows[rank::size] rule selects every row in order.
   */
  lemma ValidationShardIsWholeSet<T>(worldSize: nat, rank: nat, dp: nat, pp: nat, globalBatch: nat, nMicro: nat,
                                     rows: seq<T>)
    requires rank < worldSize && Setup(worldSize, rank, dp, pp, globalBatch, nMicro).Success?
    ensures var v := Setup(worldSize, rank, dp, pp, globalBatch, nMicro).value.valShard;
      v.size >= 1 && StepSlice(rows, v.rank, |rows|, v.size) == rows
  {
    UnitStrideIsSuffix(rows, 0);
  }

  /** The driver's own configuration on a single process: one stage, one replica, batches of 128. */
  lemma DefaultConfiguration()
    ensures Setup(1, 0, DP_TILE_FACTOR, PP_TILE_FACTOR, GLOBAL_BATCH_SIZE, N_MUBATCHES).Success?
    ensures var p := Setup(1, 0, DP_TILE_FACTOR, PP_TILE_FACTOR, GLOBAL_BATCH_SIZE, N_MUBATCHES).value;
      p.stage == 0 && p.nStages == 1 && p.batchSize == 128 && p.microBatchSize == 128 && p.trainShard == ShardSpec(0, 1)
  {
  }
}
