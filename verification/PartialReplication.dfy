/**
 Gathering a partially replicated array (reshard.cc): the copies of each tile share the
 sending, each sending one slice of the tile.
 */
module PartialReplication {
  import opened Arithmetic
  import opened Shape
  import opened TiledArray
  import opened TileCoverage
  import opened Delivery
  import opened GatherShards

  function SliceDim(rect: Rect, sliceNumber: nat, totalSlices: nat, dim: nat): Rect
    requires |rect.lo| == |rect.hi| && dim < |rect.lo| && totalSlices > 0
  {
    var extent := rect.hi[dim] - rect.lo[dim] + 1;
    var sliceSize := extent / totalSlices;
    var lo := rect.lo[dim] + sliceSize * sliceNumber;
    Rect(rect.lo[dim := lo], rect.hi[dim := lo + sliceSize - 1])
  }

  /** Dim k can be cut once more for each copy. */
  predicate Sliceable(dim: ShardingDim, replication: nat)
    requires dim.sharding > 0 && replication > 0
  {
    assert dim.sharding * replication > 0 by { MulPositive(dim.sharding, replication); }
    dim.size % (dim.sharding * replication) == 0
  }

  /** k is the first real dim that can be cut. */
  predicate IsSliceDim(k: nat, dims: Dims)
    requires SaneDims(dims)
  {
    ReplicationFacts(dims);
    RealDimsAreReal(dims);
    && k < |RealDims(dims)|
    && Sliceable(RealDims(dims)[k], Replication(dims))
    && forall j :: 0 <= j < k ==> !Sliceable(RealDims(dims)[j], Replication(dims))
  }

  /** The part of its tile that a shard sends. */
  ghost function ShardSlice(shard: nat, k: nat, dims: Dims): (slice: Rect)
    requires SaneDims(dims) && IsPermutation(dims) && k < |RealDims(dims)|
    ensures |slice.lo| == |slice.hi| == |Grid(dims)|
  {
    ReplicationFacts(dims);
    SliceDim(TileRect(shard, dims), Replica(shard, dims), Replication(dims), k)
  }

  // ----- the slices partition the array

  lemma SliceExtent(dim: ShardingDim, replication: nat)
    requires dim.Sane() && !dim.IsReplica() && replication > 0 && Sliceable(dim, replication)
    ensures dim.TileExtent() / replication > 0
    ensures dim.TileExtent() == (dim.TileExtent() / replication) * replication
  {
    ExtentTimesSharding(dim);
    var total := dim.sharding * replication;
    MulPositive(dim.sharding, replication);
    var q := dim.size / total;
    DivMod(dim.size, total);
    MulSwap(q, replication, dim.sharding);
    assert dim.size == (q * replication) * dim.sharding + 0;
    DivModUnique(dim.size, q * replication, 0, dim.sharding);
    DivExact(q, replication);
    if q <= 0 { MulMonotone(q, 0, total); }
  }

  lemma SliceDimFacts(k: nat, dims: Dims)
    requires SaneDims(dims) && IsSliceDim(k, dims)
    ensures Grid(dims) == RealDims(dims) && Replication(dims) > 0 && RealDims(dims)[k].sharding > 0
    ensures RealDims(dims)[k].TileExtent() > 0 && RealDims(dims)[k].TileExtent() / Replication(dims) > 0
    ensures RealDims(dims)[k].TileExtent() == (RealDims(dims)[k].TileExtent() / Replication(dims)) * Replication(dims)
  {
    ReplicationFacts(dims);
    RealDimsAreReal(dims);
    SliceExtent(RealDims(dims)[k], Replication(dims));
    ExtentTimesSharding(RealDims(dims)[k]);
  }

  /** The number of the slice, among those cut along dim k of its tile, that holds p. */
  ghost function SliceNumber(p: Point, k: nat, dims: Dims): (r: int)
    requires SaneDims(dims) && IsSliceDim(k, dims) && InArray(p, ArrayShape(dims))
  {
    SliceDimFacts(k, dims);
    (p[k] % RealDims(dims)[k].TileExtent()) / (RealDims(dims)[k].TileExtent() / Replication(dims))
  }

  /** Which slice p falls in, on one axis: cell c of the grid, slice r of the tile. */
  lemma SliceSlab(x: int, extent: nat, slice: nat, total: nat, c: int, r: nat)
    requires slice > 0 && total > 0 && extent == slice * total && c == x / extent
    ensures extent > 0 && 0 <= (x % extent) / slice < total
    ensures extent * c + slice * r <= x <= extent * c + slice * r + slice - 1 <==> r == (x % extent) / slice
  {
    MulPositive(slice, total);
    DivMod(x, extent);
    CellSlab(x % extent, slice, r);
    DivBound(x % extent, total, slice);
  }

  /** The same for a whole box: slice r of a tile at coordinate c of axis k. */
  lemma SliceOfBox(tile: Rect, k: nat, p: Point, extent: nat, slice: nat, total: nat, c: nat, r: nat)
    requires |tile.lo| == |tile.hi| && k < |tile.lo| == |p|
    requires slice > 0 && total > 0 && extent == slice * total && slice == extent / total && extent > 0 && r < total
    requires tile.lo[k] == extent * c && tile.hi[k] == extent * c + extent - 1
    requires InRect(tile, p) ==> c == p[k] / extent
    ensures InRect(SliceDim(tile, r, total, k), p) <==> InRect(tile, p) && r == (p[k] % extent) / slice
  {
    var part := SliceDim(tile, r, total, k);
    SliceAt(tile, r, total, k, extent * c, extent);
    SliceWithinTile(extent, slice, total, r);
    Narrowed(tile, part, k, p);
    SliceSlab(p[k], extent, slice, total, p[k] / extent, r);
  }

  lemma ReplicaInRange(shard: nat, dims: Dims)
    requires SaneDims(dims) && IsPermutation(dims) && shard < ShardCount(dims)
    ensures Replica(shard, dims) < Replication(dims)
  {
    SanePositive(dims);
    TileIndexInBox(shard, dims);
    AssembleParts(TileIndex(shard, dims), dims);
  }

  /** Where on one axis a shard's tile lies. */
  lemma TileOnAxis(shard: nat, k: nat, dims: Dims)
    requires SaneDims(dims) && IsPermutation(dims) && k < |RealDims(dims)| && RealDims(dims)[k].sharding > 0
    ensures var c, extent := GridCell(TileIndex(shard, dims), dims)[k], RealDims(dims)[k].TileExtent();
      TileRect(shard, dims).lo[k] == extent * c && TileRect(shard, dims).hi[k] == extent * c + extent - 1
  {
    GridIsSane(dims);
  }

  lemma SliceAt(rect: Rect, sliceNumber: nat, total: nat, k: nat, lo: int, extent: int)
    requires |rect.lo| == |rect.hi| && k < |rect.lo| && total > 0
    requires rect.lo[k] == lo && rect.hi[k] == lo + extent - 1
    ensures SliceDim(rect, sliceNumber, total, k) ==
            Rect(rect.lo[k := lo + extent / total * sliceNumber],
                 rect.hi[k := lo + extent / total * sliceNumber + extent / total - 1])
  {
  }

  /** The cell of a tile that holds p is the cell of p. */
  lemma CellOnAxis(shard: nat, p: Point, k: nat, dims: Dims)
    requires SaneDims(dims) && IsPermutation(dims) && IsSliceDim(k, dims)
    requires InArray(p, ArrayShape(dims)) && InRect(TileRect(shard, dims), p)
    ensures RealDims(dims)[k].sharding > 0 && RealDims(dims)[k].TileExtent() > 0
    ensures GridCell(TileIndex(shard, dims), dims)[k] == p[k] / RealDims(dims)[k].TileExtent()
  {
    SliceDimFacts(k, dims);
    GridIsSane(dims);
    BoxHoldsCell(p, GridCell(TileIndex(shard, dims), dims), Grid(dims));
  }

  /** A shard's slice holds p exactly when its tile does and its copy number is the slice number of p. */
  lemma SliceHolds(shard: nat, p: Point, k: nat, dims: Dims)
    requires SaneDims(dims) && IsPermutation(dims) && IsSliceDim(k, dims)
    requires shard < ShardCount(dims) && InArray(p, ArrayShape(dims))
    ensures InRect(ShardSlice(shard, k, dims), p) <==>
            InRect(TileRect(shard, dims), p) && Replica(shard, dims) == SliceNumber(p, k, dims)
  {
    SliceDimFacts(k, dims);
    ReplicaInRange(shard, dims);
    TileOnAxis(shard, k, dims);
    if InRect(TileRect(shard, dims), p) {
      CellOnAxis(shard, p, k, dims);
    }
    var extent, total := RealDims(dims)[k].TileExtent(), Replication(dims);
    SliceOfBox(TileRect(shard, dims), k, p, extent, extent / total, total,
               GridCell(TileIndex(shard, dims), dims)[k], Replica(shard, dims));
  }

  /** Narrowing a box on one axis keeps the elements in the narrower range of that axis. */
  lemma Narrowed(tile: Rect, part: Rect, k: nat, p: Point)
    requires |tile.lo| == |tile.hi| == |part.lo| == |part.hi| && k < |tile.lo|
    requires part.lo == tile.lo[k := part.lo[k]] && part.hi == tile.hi[k := part.hi[k]]
    requires tile.lo[k] <= part.lo[k] && part.hi[k] <= tile.hi[k]
    ensures InRect(part, p) <==> InRect(tile, p) && part.lo[k] <= p[k] <= part.hi[k]
  {
    if InRect(part, p) {
      forall j | 0 <= j < |p| ensures tile.lo[j] <= p[j] <= tile.hi[j] {
        assert part.lo[j] <= p[j] <= part.hi[j];
      }
    }
    if InRect(tile, p) && part.lo[k] <= p[k] <= part.hi[k] {
      forall j | 0 <= j < |p| ensures part.lo[j] <= p[j] <= part.hi[j] {
        assert tile.lo[j] <= p[j] <= tile.hi[j];
      }
    }
  }

  lemma SliceWithinTile(extent: nat, slice: nat, total: nat, r: nat)
    requires extent == slice * total && r < total
    ensures 0 <= slice * r && slice * r + slice <= extent
  {
    MulMonotone(r + 1, total, slice);
    MulDistributes(r, 1, slice);
  }

  /**
   The slices of all source shards partition the array, wherever the replica dim sits and however
   the dims are permuted: each element is in the slice of exactly one shard.
   */
  lemma SlicesPartitionArray(p: Point, k: nat, dims: Dims)
    requires SaneDims(dims) && IsPermutation(dims) && IsSliceDim(k, dims) && InArray(p, ArrayShape(dims))
    ensures exists s: nat :: s < ShardCount(dims) && InRect(ShardSlice(s, k, dims), p)
    ensures forall s: nat, t: nat :: (s < ShardCount(dims) && t < ShardCount(dims)
              && InRect(ShardSlice(s, k, dims), p) && InRect(ShardSlice(t, k, dims), p)) ==> s == t
  {
    SliceNumberInRange(p, k, dims);
    var r := SliceNumber(p, k, dims);
    HolderHolds(p, r, dims);
    SliceHolds(Holder(p, r, dims), p, k, dims);
    forall s: nat | s < ShardCount(dims) && InRect(ShardSlice(s, k, dims), p) ensures s == Holder(p, r, dims) {
      SliceHolds(s, p, k, dims);
      HolderUnique(s, p, dims);
    }
  }

  lemma SliceNumberInRange(p: Point, k: nat, dims: Dims)
    requires SaneDims(dims) && IsPermutation(dims) && IsSliceDim(k, dims) && InArray(p, ArrayShape(dims))
    ensures 0 <= SliceNumber(p, k, dims) < Replication(dims)
  {
    SliceDimFacts(k, dims);
    var extent, total := RealDims(dims)[k].TileExtent(), Replication(dims);
    SliceSlab(p[k], extent, extent / total, total, p[k] / extent, 0);
  }

  /** A slice lies inside the sender's own tile, hence inside the array. */
  lemma SliceInsideTile(shard: nat, p: Point, k: nat, dims: Dims)
    requires SaneDims(dims) && IsPermutation(dims) && IsSliceDim(k, dims)
    requires shard < ShardCount(dims) && InRect(ShardSlice(shard, k, dims), p)
    ensures InRect(TileRect(shard, dims), p) && InArray(p, ArrayShape(dims))
  {
    SliceDimFacts(k, dims);
    var extent, total := RealDims(dims)[k].TileExtent(), Replication(dims);
    ReplicaInRange(shard, dims);
    SliceWithinTile(extent, extent / total, total, Replica(shard, dims));
    TileOnAxis(shard, k, dims);
    SliceAt(TileRect(shard, dims), Replica(shard, dims), total, k,
            extent * GridCell(TileIndex(shard, dims), dims)[k], extent);
    Narrowed(TileRect(shard, dims), ShardSlice(shard, k, dims), k, p);
    TileInArray(shard, p, dims);
  }

  // ----- the configuration one processor computes

  lemma {:induction false} ReplicaAt(i: nat, dims: Dims)
    requires SaneDims(dims) && i < |dims| && dims[i].IsReplica()
    ensures Replication(dims) == dims[i].sharding
    ensures forall index: seq<nat> :: |index| == |dims| ==> ReplicaNumber(index, dims) == index[i]
  {
    if i > 0 {
      assert !dims[0].IsReplica();
      ReplicaAt(i - 1, dims[1..]);
      forall index: seq<nat> | |index| == |dims| ensures ReplicaNumber(index, dims) == index[i] {
        assert ReplicaNumber(index, dims) == ReplicaNumber(index[1..], dims[1..]);
      }
    }
  }

  method FindSliceDim(dims: Dims, replication: nat) returns (sliceDim: Option<nat>)
    requires SaneDims(dims) && replication == Replication(dims)
    ensures sliceDim.Some? ==> IsSliceDim(sliceDim.value, dims)
    ensures sliceDim.None? ==> forall k: nat :: !IsSliceDim(k, dims)
  {
    ReplicationFacts(dims);
    RealDimsAreReal(dims);
    sliceDim := None;
    var dimNumber := 0;
    var grid := RealDims(dims);
    for i := 0 to |dims|
      invariant dimNumber == |RealDims(dims[..i])| <= |grid|
      invariant sliceDim.Some? ==> IsSliceDim(sliceDim.value, dims)
      invariant sliceDim.None? ==> forall j :: 0 <= j < dimNumber ==> !Sliceable(grid[j], replication)
    {
      RealPrefix(seq(|dims|, j => 0), dims, i);
      if dims[i].size == 1 && dims[i].sharding > 1 {
        continue;
      }
      assert dims[i].Sane();
      var newSharding := dims[i].sharding * replication;
      MulPositive(dims[i].sharding, replication);
      if sliceDim.None? && dims[i].size % newSharding == 0 {
        assert Sliceable(grid[dimNumber], replication);
        sliceDim := Some(dimNumber);
      }
      dimNumber := dimNumber + 1;
    }
    assert dims[..|dims|] == dims;
  }

  method FindReplicaDim(dims: Dims) returns (dim: nat)
    requires HasReplica(dims)
    ensures dim < |dims| && dims[dim].IsReplica()
  {
    dim := 0;
    while !(dims[dim].size == 1 && dims[dim].sharding > 1)
      invariant dim < |dims| && forall j :: 0 <= j < dim ==> !dims[j].IsReplica()
      decreases |dims| - dim
    {
      ghost var i :| 0 <= i < |dims| && dims[i].IsReplica();
      dim := dim + 1;
    }
  }

  method SliceOfShard(shard: nat, dims: Dims, replicatedDim: nat, k: nat) returns (slice: Rect)
    requires SaneDims(dims) && IsPermutation(dims) && shard < ShardCount(dims)
    requires replicatedDim < |dims| && dims[replicatedDim].IsReplica() && k < |RealDims(dims)|
    ensures slice == ShardSlice(shard, k, dims)
  {
    ReplicaAt(replicatedDim, dims);
    ReplicationFacts(dims);
    var unslicedBounds := ComputeTileBounds(shard, dims);
    SanePositive(dims);
    var index := ComputeTileIndex(shard, dims);
    var replicaNumber := index[replicatedDim];
    slice := SliceDim(unslicedBounds, replicaNumber, dims[replicatedDim].sharding, k);
  }

  method SlicesOfAllShards(src: Sharding, replicatedDim: nat, k: nat) returns (sourceBounds: seq<Rect>)
    requires WellFormed(src) && k < |RealDims(src.dims)|
    requires replicatedDim < |src.dims| && src.dims[replicatedDim].IsReplica()
    ensures sourceBounds == AllSlices(k, src)
  {
    sourceBounds := [];
    for shard := 0 to src.devices.size
      invariant |sourceBounds| == shard
      invariant forall s :: 0 <= s < shard ==> sourceBounds[s] == ShardSlice(s, k, src.dims)
    {
      var slice := SliceOfShard(shard, src.dims, replicatedDim, k);
      sourceBounds := sourceBounds + [slice];
    }
  }

  ghost function AllSlices(k: nat, src: Sharding): (slices: seq<Rect>)
    requires WellFormed(src) && k < |RealDims(src.dims)|
    ensures |slices| == src.devices.size
  {
    seq(src.devices.size, s requires 0 <= s => ShardSlice(s, k, src.dims))
  }

  /** None stands for UnsupportedConfig: no dim of the array can be cut further. */
  method DeterminePartialToReplicatedConfig(device: int, src: Sharding, dst: Sharding)
    returns (config: Option<GatherShardsConfig>)
    requires WellFormed(src) && IsPartiallyReplicated(src)
    ensures config.None? ==> forall k: nat :: !IsSliceDim(k, src.dims)
    ensures config.Some? ==>
      exists k: nat :: IsSliceDim(k, src.dims) && config.value == ConfigOf(device, AllSlices(k, src), src, dst)
    ensures config.Some? ==> forall k: nat, t :: IsSliceDim(k, src.dims) ==>
      && (t in SentBy(config.value, dst.devices.size) <==>
            src.devices.Places(device, t.src) && t.dst < dst.devices.size && t.rect == ShardSlice(t.src, k, src.dims))
      && (t in ReceivedBy(config.value) <==>
            dst.devices.Places(device, t.dst) && t.src < src.devices.size && t.rect == ShardSlice(t.src, k, src.dims))
  {
    ReplicationClasses(src);
    ReplicationFacts(src.dims);
    var replicatedDim := FindReplicaDim(src.dims);
    ReplicaAt(replicatedDim, src.dims);
    var sliceDim := FindSliceDim(src.dims, src.dims[replicatedDim].sharding);
    if sliceDim.None? {
      return None;
    }
    var k := sliceDim.value;
    var srcShard := src.devices.ShardId(device);
    var destBounds: Option<Rect> := None;
    if srcShard.Some? {
      var slice := SliceOfShard(srcShard.value, src.dims, replicatedDim, k);
      destBounds := Some(slice);
    }
    var sourceBounds := SlicesOfAllShards(src, replicatedDim, k);
    config := Some(GatherShardsConfig(srcShard, dst.devices.ShardId(device), destBounds, sourceBounds));
    SentByHolder(device, AllSlices(k, src), src, dst);
    ReceivedByHolder(device, AllSlices(k, src), src, dst);
    assert forall m: nat :: IsSliceDim(m, src.dims) ==> m == k;
  }

  // ----- delivery

  /** The slices, sent by each shard to every destination, fill every destination tile. */
  lemma PartialToReplicatedDelivers(k: nat, src: Sharding, dst: Sharding)
    requires WellFormed(src) && WellFormed(dst) && IsSliceDim(k, src.dims) && IsReplicated(dst)
    requires ArrayShape(src.dims) == ArrayShape(dst.dims)
    ensures Delivers(GatherPlan(AllSlices(k, src), src, dst), src, dst)
  {
    var pieces := AllSlices(k, src);
    forall s: nat, p: Point | s < src.devices.size && InRect(pieces[s], p)
      ensures InRect(TileRect(s, src.dims), p)
    {
      SliceInsideTile(s, p, k, src.dims);
    }
    forall p: Point | InArray(p, ArrayShape(src.dims))
      ensures exists s: nat :: s < src.devices.size && InRect(pieces[s], p)
    {
      SlicesPartitionArray(p, k, src.dims);
      var s: nat :| s < ShardCount(src.dims) && InRect(ShardSlice(s, k, src.dims), p);
      assert InRect(pieces[s], p);
    }
    PiecesDeliver(pieces, src, dst);
  }
}
