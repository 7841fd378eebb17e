/**
 The two halves of a reshard: what senders announce and what receivers expect, each from the
 configuration it has computed for itself, under the strategy that both have chosen.
 */
module Halves {
  import opened MixedRadix
  import opened Shape
  import opened TiledArray
  import opened TileCoverage
  import opened Delivery
  import opened GatherShards
  import opened ScatterShards
  import opened PartialReplication
  import opened Pairwise
  import opened ScatterGatherPlan
  import opened Dispatch

  /** The device that holds the source shard, as a sender, announces the transfer. */
  ghost predicate Announced(strategy: Strategy, t: Transfer, src: Sharding, dst: Sharding)
    requires WellFormed(src) && WellFormed(dst)
  {
    match strategy
    case GatherTiles =>
      t in SentBy(ConfigOf(src.devices.start + t.src, AllTiles(src), src, dst), dst.devices.size)
    case ScatterTiles => src.devices.size > 0 && SentByScatter(t, src, dst)
    case FullyReplicated => SentPairwise(t, src, dst)
    case PartialToReplicated =>
      exists k: nat :: IsSliceDim(k, src.dims) && SendsSlice(k, t, src, dst)
    case PointToPoint => SentPairwise(t, src, dst)
    case AlongDim(j) => Changes(src.dims, dst.dims, j) && IsSent(t, src.dims, dst.dims, j)
    case _ => false
  }

  /** The device that holds the destination shard, as a receiver, expects it. */
  ghost predicate Expected(strategy: Strategy, t: Transfer, src: Sharding, dst: Sharding)
    requires WellFormed(src) && WellFormed(dst)
  {
    match strategy
    case GatherTiles => t in ReceivedBy(ConfigOf(dst.devices.start + t.dst, AllTiles(src), src, dst))
    case ScatterTiles => 0 < src.devices.size <= dst.devices.size && ReceivedByScatter(t, src, dst)
    case FullyReplicated => ReceivedPairwise(t, src, dst)
    case PartialToReplicated =>
      exists k: nat :: IsSliceDim(k, src.dims) && AwaitsSlice(k, t, src, dst)
    case PointToPoint => ReceivedPairwise(t, src, dst)
    case AlongDim(j) => Changes(src.dims, dst.dims, j) && IsExpected(t, src.dims, dst.dims, j)
    case _ => false
  }

  /** The slices along dim k: what the holder of a source shard sends ... */
  ghost predicate SendsSlice(k: nat, t: Transfer, src: Sharding, dst: Sharding)
    requires WellFormed(src) && WellFormed(dst) && IsSliceDim(k, src.dims)
  {
    t in SentBy(ConfigOf(src.devices.start + t.src, AllSlices(k, src), src, dst), dst.devices.size)
  }

  /** ... and what the holder of a destination shard awaits. */
  ghost predicate AwaitsSlice(k: nat, t: Transfer, src: Sharding, dst: Sharding)
    requires WellFormed(src) && WellFormed(dst) && IsSliceDim(k, src.dims)
  {
    t in ReceivedBy(ConfigOf(dst.devices.start + t.dst, AllSlices(k, src), src, dst))
  }

  /** A device with a source tile pairs it up with the destination shard of its number, unless it stands idle ... */
  ghost predicate SentPairwise(t: Transfer, src: Sharding, dst: Sharding)
    requires WellFormed(src)
  {
    && t.src == t.dst < src.devices.size && t.rect == TileRect(t.src, src.dims)
    && !StandsIdle(src.devices.start + t.src, src, dst)
  }

  /** ... and a receiver expects its tile from the source shard with its own number. */
  ghost predicate ReceivedPairwise(t: Transfer, src: Sharding, dst: Sharding)
    requires WellFormed(dst)
  {
    t.src == t.dst < dst.devices.size && t.rect == TileRect(t.dst, dst.dims)
  }

  /** What the caller has to respect, strategy by strategy; each condition is one that the code needs. */
  ghost predicate Permitted(strategy: Strategy, src: Sharding, dst: Sharding)
    requires WellFormed(src) && WellFormed(dst)
  {
    match strategy
    case GatherTiles => true
    case ScatterTiles => 0 < src.devices.size <= dst.devices.size && dst.devices.size % src.devices.size == 0
    case FullyReplicated => dst.devices.size <= src.devices.size
    case PartialToReplicated => exists k: nat :: IsSliceDim(k, src.dims)
    case PointToPoint => true
    case AlongDim(j) => Compatible(src.dims, dst.dims, j)
    case _ => false
  }

  // ----- the halves agree

  lemma OneSliceDim(k: nat, m: nat, src: Sharding)
    requires WellFormed(src) && IsSliceDim(k, src.dims) && IsSliceDim(m, src.dims)
    ensures k == m
  {
  }

  lemma SliceAnnounced(k: nat, t: Transfer, src: Sharding, dst: Sharding)
    requires WellFormed(src) && WellFormed(dst) && IsSliceDim(k, src.dims)
    ensures Announced(PartialToReplicated, t, src, dst) <==> SendsSlice(k, t, src, dst)
  {
    if Announced(PartialToReplicated, t, src, dst) {
      var m: nat :| IsSliceDim(m, src.dims) && SendsSlice(m, t, src, dst);
      OneSliceDim(m, k, src);
    }
  }

  lemma SliceExpected(k: nat, t: Transfer, src: Sharding, dst: Sharding)
    requires WellFormed(src) && WellFormed(dst) && IsSliceDim(k, src.dims)
    ensures Expected(PartialToReplicated, t, src, dst) <==> AwaitsSlice(k, t, src, dst)
  {
    if Expected(PartialToReplicated, t, src, dst) {
      var m: nat :| IsSliceDim(m, src.dims) && AwaitsSlice(m, t, src, dst);
      OneSliceDim(m, k, src);
    }
  }

  /** Announced and expected transfers of the slices, for the one dim that is cut. */
  lemma SliceHalves(k: nat, t: Transfer, src: Sharding, dst: Sharding)
    requires WellFormed(src) && WellFormed(dst) && IsSliceDim(k, src.dims)
    ensures Announced(PartialToReplicated, t, src, dst) <==> t in GatherPlan(AllSlices(k, src), src, dst)
    ensures Expected(PartialToReplicated, t, src, dst) <==> t in GatherPlan(AllSlices(k, src), src, dst)
  {
    GatherHalvesAgree(t, AllSlices(k, src), src, dst);
    SliceAnnounced(k, t, src, dst);
    SliceExpected(k, t, src, dst);
  }

  /** Each shard of a replicated array sits at the first cell of a grid that is not divided. */
  lemma OnlyOneCell(shard: nat, s: Sharding)
    requires WellFormed(s) && IsReplicated(s) && shard < s.devices.size
    ensures var cell, grid := GridCell(TileIndex(shard, s.dims), s.dims), Grid(s.dims);
      forall k :: 0 <= k < |grid| ==> cell[k] == 0 && grid[k].sharding == 1
  {
    ReplicatedDimsAreWhole(s.dims);
    RealDimsSharding(s.dims);
    SanePositive(s.dims);
    TileIndexInBox(shard, s.dims);
    AssembleParts(TileIndex(shard, s.dims), s.dims);
    var cell, grid := GridCell(TileIndex(shard, s.dims), s.dims), Grid(s.dims);
    forall k | 0 <= k < |grid| ensures cell[k] == 0 && grid[k].sharding == 1 {
      assert RealDims(s.dims) != [] ==> cell[k] < Shardings(RealDims(s.dims))[k];
    }
  }

  /** A tile of a replicated array starts at zero and ends with the array. */
  lemma WholeTileRect(shard: nat, s: Sharding)
    requires WellFormed(s) && IsReplicated(s) && shard < s.devices.size
    ensures TileRect(shard, s.dims) == WholeRect(ArrayShape(s.dims))
  {
    GridIsSane(s.dims);
    OnlyOneCell(shard, s);
    var cell, grid := GridCell(TileIndex(shard, s.dims), s.dims), Grid(s.dims);
    assert forall k :: 0 <= k < |grid| ==> cell[k] == 0 && grid[k].TileExtent() == grid[k].size;
  }

  function WholeRect(shape: seq<nat>): Rect {
    var lo: seq<int> := seq(|shape|, k => 0);
    var hi: seq<int> := seq(|shape|, (k: int) requires 0 <= k < |shape| => (shape[k] as int) - 1);
    Rect(lo, hi)
  }

  /** A sender does not stand idle if its destination shard exists. */
  lemma NotIdle(t: Transfer, src: Sharding, dst: Sharding)
    requires t.src < src.devices.size && t.src < dst.devices.size
    ensures !StandsIdle(src.devices.start + t.src, src, dst)
  {
    assert src.devices.Places(src.devices.start + t.src, t.src);
  }

  lemma PairwiseAgree(strategy: Strategy, t: Transfer, src: Sharding, dst: Sharding)
    requires WellFormed(src) && WellFormed(dst) && ArrayShape(src.dims) == ArrayShape(dst.dims)
    requires Chooses(strategy, src, dst) && (strategy.PointToPoint? || strategy.FullyReplicated?)
    requires Permitted(strategy, src, dst)
    ensures ReceivedPairwise(t, src, dst) <==> SentPairwise(t, src, dst) && t.dst < dst.devices.size
  {
    if t.src < src.devices.size && t.src < dst.devices.size {
      NotIdle(t, src, dst);
    }
    if t.src == t.dst < src.devices.size && t.dst < dst.devices.size && strategy.FullyReplicated? {
      WholeTileRect(t.src, src);
      WholeTileRect(t.dst, dst);
    }
  }

  /**
   A transfer is expected exactly when it is announced to a shard that exists.  Only surplus sources
   of a replicated array announce transfers to shards that do not.
   */
  lemma HalvesAgree(strategy: Strategy, t: Transfer, src: Sharding, dst: Sharding)
    requires WellFormed(src) && WellFormed(dst) && ArrayShape(src.dims) == ArrayShape(dst.dims)
    requires Chooses(strategy, src, dst) && Permitted(strategy, src, dst)
    ensures Expected(strategy, t, src, dst) <==> Announced(strategy, t, src, dst) && t.dst < dst.devices.size
    ensures Announced(strategy, t, src, dst) && !strategy.FullyReplicated? ==> t.dst < dst.devices.size
  {
    match strategy
    case GatherTiles => GatherHalvesAgree(t, AllTiles(src), src, dst);
    case ScatterTiles => ScatterHalvesAgreeIff(src, dst);
    case PartialToReplicated =>
      var k: nat :| IsSliceDim(k, src.dims);
      SliceHalves(k, t, src, dst);
    case AlongDim(j) => PlansAgree(t, src.dims, dst.dims, j);
    case FullyReplicated => PairwiseAgree(strategy, t, src, dst);
    case PointToPoint => PairwiseAgree(strategy, t, src, dst);
    case _ =>
  }

  // ----- one rectangle for each key

  /** The rectangle of a transfer follows from its two ends. */
  lemma OneRectPerKey(strategy: Strategy, t: Transfer, u: Transfer, src: Sharding, dst: Sharding)
    requires WellFormed(src) && WellFormed(dst) && ArrayShape(src.dims) == ArrayShape(dst.dims)
    requires Chooses(strategy, src, dst) && Permitted(strategy, src, dst)
    requires Announced(strategy, t, src, dst) && Announced(strategy, u, src, dst)
    requires t.src == u.src && t.dst == u.dst
    ensures t == u
  {
    match strategy
    case GatherTiles =>
      GatherHalvesAgree(t, AllTiles(src), src, dst);
      GatherHalvesAgree(u, AllTiles(src), src, dst);
    case ScatterTiles =>
      ScatterRect(t, src, dst);
      ScatterRect(u, src, dst);
    case PartialToReplicated =>
      var k: nat :| IsSliceDim(k, src.dims);
      SliceHalves(k, t, src, dst);
      SliceHalves(k, u, src, dst);
    case AlongDim(j) => SliceRect(t, u, src.dims, dst.dims, j);
    case _ =>
  }

  lemma ScatterRect(t: Transfer, src: Sharding, dst: Sharding)
    requires WellFormed(dst) && src.devices.size > 0 && SentByScatter(t, src, dst)
    ensures t.rect == TileRect(t.dst, dst.dims)
  {
  }

  lemma SliceRect(t: Transfer, u: Transfer, src: Dims, dst: Dims, j: nat)
    requires Compatible(src, dst, j) && IsSent(t, src, dst, j) && IsSent(u, src, dst, j)
    requires t.src == u.src && t.dst == u.dst
    ensures t == u
  {
    PlansAgree(t, src, dst, j);
    PlansAgree(u, src, dst, j);
  }

  // ----- the plan delivers

  /** Everything that receivers expect. */
  ghost function PlanOf(strategy: Strategy, src: Sharding, dst: Sharding): iset<Transfer>
    requires WellFormed(src) && WellFormed(dst)
  {
    iset t: Transfer | Expected(strategy, t, src, dst)
  }

  lemma PairwiseDelivers(strategy: Strategy, src: Sharding, dst: Sharding)
    requires WellFormed(src) && WellFormed(dst) && ArrayShape(src.dims) == ArrayShape(dst.dims)
    requires Chooses(strategy, src, dst) && (strategy.PointToPoint? || strategy.FullyReplicated?)
    requires Permitted(strategy, src, dst)
    ensures Delivers(PlanOf(strategy, src, dst), src, dst)
  {
    var plan := PlanOf(strategy, src, dst);
    forall t | t in plan ensures InsideTiles(t, src, dst) {
      PairwiseAgree(strategy, t, src, dst);
    }
    forall d: nat | d < dst.devices.size ensures Covers(plan, d, dst) {
      assert Transfer(d, d, TileRect(d, dst.dims)) in plan;
    }
  }

  /** Whatever strategy is chosen, what receivers expect fills every destination tile with data the senders have. */
  lemma ChosenPlanDelivers(strategy: Strategy, src: Sharding, dst: Sharding)
    requires WellFormed(src) && WellFormed(dst) && ArrayShape(src.dims) == ArrayShape(dst.dims)
    requires Chooses(strategy, src, dst) && Permitted(strategy, src, dst)
    ensures Delivers(PlanOf(strategy, src, dst), src, dst)
  {
    var plan := PlanOf(strategy, src, dst);
    forall t ensures t in plan <==> Announced(strategy, t, src, dst) && t.dst < dst.devices.size {
      HalvesAgree(strategy, t, src, dst);
    }
    match strategy
    case GatherTiles =>
      forall t ensures t in plan <==> t in GatherPlan(AllTiles(src), src, dst) {
        GatherHalvesAgree(t, AllTiles(src), src, dst);
      }
      assert plan == GatherPlan(AllTiles(src), src, dst);
      GatherShardsDelivers(src, dst);
    case ScatterTiles =>
      ScatterShardsDelivers(src, dst);
      assert plan == ScatterPlan(src, dst) by {
        forall t | SentByScatter(t, src, dst) ensures t in plan { SentIsExpected(t, src, dst); }
      }
    case PartialToReplicated =>
      var k: nat :| IsSliceDim(k, src.dims);
      forall t ensures t in plan <==> t in GatherPlan(AllSlices(k, src), src, dst) {
        SliceHalves(k, t, src, dst);
      }
      assert plan == GatherPlan(AllSlices(k, src), src, dst);
      PartialToReplicatedDelivers(k, src, dst);
    case AlongDim(j) =>
      ScatterGatherWorksIff(j, src, dst);
      assert plan == SlicePlan(src, dst, j) by {
        forall t ensures t in plan <==> t in SlicePlan(src, dst, j) { PlansAgree(t, src.dims, dst.dims, j); }
      }
    case _ => PairwiseDelivers(strategy, src, dst);
  }

  // ----- exactly when the chosen strategy works

  lemma SomeShardSomeElement(s: Sharding) returns (p: Point)
    requires WellFormed(s)
    ensures s.devices.size > 0 && InRect(TileRect(0, s.dims), p)
  {
    SanePositive(s.dims);
    ProductPositive(Shardings(s.dims));
    GridIsSane(s.dims);
    var grid := Grid(s.dims);
    p := TileRect(0, s.dims).lo;
    forall k | 0 <= k < |grid| ensures TileRect(0, s.dims).lo[k] <= TileRect(0, s.dims).hi[k] {
      assert grid[k].Sane() && !grid[k].IsReplica();
      ExtentTimesSharding(grid[k]);
    }
  }

  /** A receiver that expects nothing is left with an empty tile. */
  lemma NothingExpected(strategy: Strategy, src: Sharding, dst: Sharding)
    requires WellFormed(src) && WellFormed(dst) && forall t :: !Expected(strategy, t, src, dst)
    ensures !Delivers(PlanOf(strategy, src, dst), src, dst)
  {
    var p := SomeShardSomeElement(dst);
    assert !Covers(PlanOf(strategy, src, dst), 0, dst);
  }

  /** The halves agree, and what receivers expect fills every destination tile with data the senders have. */
  ghost predicate Works(strategy: Strategy, src: Sharding, dst: Sharding)
    requires WellFormed(src) && WellFormed(dst)
  {
    && (forall t :: Expected(strategy, t, src, dst) <==>
          Announced(strategy, t, src, dst) && t.dst < dst.devices.size)
    && (forall t :: Announced(strategy, t, src, dst) && !strategy.FullyReplicated? ==> t.dst < dst.devices.size)
    && Delivers(PlanOf(strategy, src, dst), src, dst)
  }

  lemma WorksIsPermitted(strategy: Strategy, src: Sharding, dst: Sharding)
    requires WellFormed(src) && WellFormed(dst) && ArrayShape(src.dims) == ArrayShape(dst.dims)
    requires Chooses(strategy, src, dst) && Works(strategy, src, dst)
    ensures Permitted(strategy, src, dst)
  {
    match strategy
    case GatherTiles =>
    case ScatterTiles => ScatterWorks(src, dst);
    case FullyReplicated => ReplicatedWorks(src, dst);
    case PartialToReplicated => SlicesWork(src, dst);
    case PointToPoint =>
    case AlongDim(j) => AlongDimWorks(j, src, dst);
    case _ => NothingExpected(strategy, src, dst);
  }

  lemma ReplicatedWorks(src: Sharding, dst: Sharding)
    requires WellFormed(src) && WellFormed(dst) && Works(FullyReplicated, src, dst)
    ensures Permitted(FullyReplicated, src, dst)
  {
    var p := SomeShardSomeElement(dst);
    var last := Transfer(dst.devices.size - 1, dst.devices.size - 1, TileRect(dst.devices.size - 1, dst.dims));
    assert Expected(FullyReplicated, last, src, dst);
  }

  lemma SlicesWork(src: Sharding, dst: Sharding)
    requires WellFormed(src) && WellFormed(dst) && Works(PartialToReplicated, src, dst)
    ensures Permitted(PartialToReplicated, src, dst)
  {
    if !exists k: nat :: IsSliceDim(k, src.dims) {
      NothingExpected(PartialToReplicated, src, dst);
    }
  }

  lemma ScatterWorks(src: Sharding, dst: Sharding)
    requires WellFormed(src) && WellFormed(dst) && Works(ScatterTiles, src, dst)
    ensures Permitted(ScatterTiles, src, dst)
  {
    var p := SomeShardSomeElement(src);
    if src.devices.size > dst.devices.size {
      NothingExpected(ScatterTiles, src, dst);
    } else {
      forall t ensures SentByScatter(t, src, dst) <==> ReceivedByScatter(t, src, dst) {
        assert Expected(ScatterTiles, t, src, dst) <==>
               Announced(ScatterTiles, t, src, dst) && t.dst < dst.devices.size;
        assert Announced(ScatterTiles, t, src, dst) ==> t.dst < dst.devices.size;
      }
      ScatterHalvesAgreeIff(src, dst);
    }
  }

  lemma AlongDimWorks(j: nat, src: Sharding, dst: Sharding)
    requires WellFormed(src) && WellFormed(dst) && ArrayShape(src.dims) == ArrayShape(dst.dims)
    requires Chooses(AlongDim(j), src, dst) && Works(AlongDim(j), src, dst)
    ensures Permitted(AlongDim(j), src, dst)
  {
    ScatterGatherWorksIff(j, src, dst);
    forall t ensures IsSent(t, src.dims, dst.dims, j) <==> IsExpected(t, src.dims, dst.dims, j) {
      assert Expected(AlongDim(j), t, src, dst) <==> Announced(AlongDim(j), t, src, dst) && t.dst < dst.devices.size;
      assert Announced(AlongDim(j), t, src, dst) ==> t.dst < dst.devices.size;
    }
    assert PlanOf(AlongDim(j), src, dst) == SlicePlan(src, dst, j);
  }

  /** Whatever strategy is chosen for two shardings of one array, it works exactly when it is permitted. */
  lemma WorksIff(strategy: Strategy, src: Sharding, dst: Sharding)
    requires WellFormed(src) && WellFormed(dst) && ArrayShape(src.dims) == ArrayShape(dst.dims)
    requires Chooses(strategy, src, dst)
    ensures Works(strategy, src, dst) <==> Permitted(strategy, src, dst)
  {
    if Works(strategy, src, dst) {
      WorksIsPermitted(strategy, src, dst);
    }
    if Permitted(strategy, src, dst) {
      ChosenPlanDelivers(strategy, src, dst);
      forall t
        ensures Expected(strategy, t, src, dst) <==> Announced(strategy, t, src, dst) && t.dst < dst.devices.size
        ensures Announced(strategy, t, src, dst) && !strategy.FullyReplicated? ==> t.dst < dst.devices.size
      {
        HalvesAgree(strategy, t, src, dst);
      }
    }
  }
}
