/**
 All-to-all gathering into a replicated array (reshard_gather_shards.cc): each source shard has
 one piece, which goes to every destination shard.
 */
module GatherShards {
  import opened MixedRadix
  import opened Shape
  import opened TiledArray
  import opened TileCoverage
  import opened Delivery

  datatype GatherShardsConfig = GatherShardsConfig(
    srcShard: Option<nat>,
    dstShard: Option<nat>,
    sourceToTargetBounds: Option<Rect>,
    targetFromSourceBounds: seq<Rect>)

  /** What one device knows when source shard s sends pieces[s]: its own piece and everybody's. */
  function ConfigOf(device: int, pieces: seq<Rect>, src: Sharding, dst: Sharding): GatherShardsConfig
    requires |pieces| == src.devices.size
  {
    var srcShard := src.devices.ShardId(device);
    GatherShardsConfig(srcShard, dst.devices.ShardId(device),
                       if srcShard.None? then None else Some(pieces[srcShard.value]), pieces)
  }

  ghost function AllTiles(src: Sharding): (tiles: seq<Rect>)
    requires WellFormed(src)
    ensures |tiles| == src.devices.size
  {
    seq(src.devices.size, s requires 0 <= s => TileRect(s, src.dims))
  }

  /** The transfers a device announces as sender ... */
  function SentBy(config: GatherShardsConfig, numDst: nat): seq<Transfer> {
    if config.srcShard.None? || config.sourceToTargetBounds.None? then []
    else seq(numDst, d requires 0 <= d => Transfer(config.srcShard.value, d, config.sourceToTargetBounds.value))
  }

  /** ... and the ones it announces as receiver. */
  function ReceivedBy(config: GatherShardsConfig): seq<Transfer> {
    if config.dstShard.None? then []
    else seq(|config.targetFromSourceBounds|, s requires 0 <= s < |config.targetFromSourceBounds| =>
           Transfer(s, config.dstShard.value, config.targetFromSourceBounds[s]))
  }

  /** As a sender, a device announces the piece of the shard it holds, to every destination shard, and nothing else. */
  lemma SentByHolder(device: int, pieces: seq<Rect>, src: Sharding, dst: Sharding)
    requires |pieces| == src.devices.size
    ensures forall t :: t in SentBy(ConfigOf(device, pieces, src, dst), dst.devices.size) <==>
              src.devices.Places(device, t.src) && t.dst < dst.devices.size && t.rect == pieces[t.src]
  {
    var sent := SentBy(ConfigOf(device, pieces, src, dst), dst.devices.size);
    forall t: Transfer | src.devices.Places(device, t.src) && t.dst < dst.devices.size && t.rect == pieces[t.src]
      ensures t in sent
    {
      assert sent[t.dst] == t;
    }
  }

  /** As a receiver, it announces the pieces of all sources, for the shard it holds, and nothing else. */
  lemma ReceivedByHolder(device: int, pieces: seq<Rect>, src: Sharding, dst: Sharding)
    requires |pieces| == src.devices.size
    ensures forall t :: t in ReceivedBy(ConfigOf(device, pieces, src, dst)) <==>
              dst.devices.Places(device, t.dst) && t.src < src.devices.size && t.rect == pieces[t.src]
  {
    var received := ReceivedBy(ConfigOf(device, pieces, src, dst));
    forall t: Transfer | dst.devices.Places(device, t.dst) && t.src < src.devices.size && t.rect == pieces[t.src]
      ensures t in received
    {
      assert received[t.src] == t;
    }
  }

  method GetGatherShardsConfig(device: int, src: Sharding, dst: Sharding) returns (config: GatherShardsConfig)
    requires WellFormed(src)
    ensures config == ConfigOf(device, AllTiles(src), src, dst)
    ensures forall t :: t in SentBy(config, dst.devices.size) <==>
              src.devices.Places(device, t.src) && t.dst < dst.devices.size && t.rect == TileRect(t.src, src.dims)
    ensures forall t :: t in ReceivedBy(config) <==>
              dst.devices.Places(device, t.dst) && t.src < src.devices.size && t.rect == TileRect(t.src, src.dims)
  {
    var srcShard := src.devices.ShardId(device);
    var destBounds: Option<Rect> := None;
    if srcShard.Some? {
      var bounds := ComputeTileBounds(srcShard.value, src.dims);
      destBounds := Some(bounds);
    }
    var sourceBounds: seq<Rect> := [];
    for shard := 0 to src.devices.size
      invariant sourceBounds == AllTiles(src)[..shard]
    {
      var bounds := ComputeTileBounds(shard, src.dims);
      sourceBounds := sourceBounds + [bounds];
    }
    config := GatherShardsConfig(srcShard, dst.devices.ShardId(device), destBounds, sourceBounds);
    SentByHolder(device, AllTiles(src), src, dst);
    ReceivedByHolder(device, AllTiles(src), src, dst);
  }

  method GatherShardsFromLocalSource(config: GatherShardsConfig, numShards: nat) returns (keys: seq<Transfer>)
    requires config.srcShard.Some? && config.sourceToTargetBounds.Some?
    ensures keys == SentBy(config, numShards)
  {
    keys := [];
    for shard := 0 to numShards
      invariant keys == SentBy(config, numShards)[..shard]
    {
      keys := keys + [Transfer(config.srcShard.value, shard, config.sourceToTargetBounds.value)];
    }
  }

  method GatherShardsToLocalTarget(config: GatherShardsConfig, numShards: nat) returns (keys: seq<Transfer>)
    requires config.dstShard.Some? && numShards == |config.targetFromSourceBounds|
    ensures keys == ReceivedBy(config)
  {
    keys := [];
    for shard := 0 to numShards
      invariant keys == ReceivedBy(config)[..shard]
    {
      keys := keys + [Transfer(shard, config.dstShard.value, config.targetFromSourceBounds[shard])];
    }
  }

  /** All transfers of the reshard. */
  ghost function GatherPlan(pieces: seq<Rect>, src: Sharding, dst: Sharding): iset<Transfer>
    requires |pieces| == src.devices.size
  {
    iset t: Transfer | t.src < src.devices.size && t.dst < dst.devices.size && t.rect == pieces[t.src]
  }

  /**
   The halves of the plan that the devices compute separately agree: a transfer of the plan is announced
   by the device that holds its source shard and by the one that holds its destination shard, and by
   nobody else.
   */
  lemma GatherHalvesAgree(t: Transfer, pieces: seq<Rect>, src: Sharding, dst: Sharding)
    requires |pieces| == src.devices.size
    ensures forall device: int :: t in SentBy(ConfigOf(device, pieces, src, dst), dst.devices.size) <==>
              t in GatherPlan(pieces, src, dst) && src.devices.Places(device, t.src)
    ensures forall device: int :: t in ReceivedBy(ConfigOf(device, pieces, src, dst)) <==>
              t in GatherPlan(pieces, src, dst) && dst.devices.Places(device, t.dst)
  {
    forall device: int
      ensures t in SentBy(ConfigOf(device, pieces, src, dst), dst.devices.size) <==>
              t in GatherPlan(pieces, src, dst) && src.devices.Places(device, t.src)
      ensures t in ReceivedBy(ConfigOf(device, pieces, src, dst)) <==>
              t in GatherPlan(pieces, src, dst) && dst.devices.Places(device, t.dst)
    {
      SentByHolder(device, pieces, src, dst);
      ReceivedByHolder(device, pieces, src, dst);
    }
  }

  /** A tile of a replicated array is the whole array. */
  lemma ReplicatedTileIsWhole(shard: nat, p: Point, s: Sharding)
    requires WellFormed(s) && IsReplicated(s) && shard < s.devices.size
    ensures InRect(TileRect(shard, s.dims), p) <==> InArray(p, ArrayShape(s.dims))
  {
    if InRect(TileRect(shard, s.dims), p) {
      TileInArray(shard, p, s.dims);
    } else if InArray(p, ArrayShape(s.dims)) {
      TileHolds(shard, p, s.dims);
      TileIndexInBox(shard, s.dims);
      AssembleParts(TileIndex(shard, s.dims), s.dims);
      OneCell(RealIndex(TileIndex(shard, s.dims), s.dims), RealCell(p, s.dims), s.dims);
    }
  }

  lemma OneCell(a: seq<nat>, b: seq<nat>, dims: Dims)
    requires SaneDims(dims) && TotalShards(dims) == 1
    requires InBox(a, Shardings(RealDims(dims))) && InBox(b, Shardings(RealDims(dims)))
    ensures a == b
  {
    ReplicatedDimsAreWhole(dims);
    RealDimsSharding(dims);
    forall k | 0 <= k < |a| ensures a[k] == b[k] {
      assert a[k] < Shardings(RealDims(dims))[k] && b[k] < Shardings(RealDims(dims))[k];
    }
  }

  lemma {:induction false} RealDimsSharding(dims: Dims)
    requires forall i :: 0 <= i < |dims| && !dims[i].IsReplica() ==> dims[i].sharding == 1
    ensures forall k :: 0 <= k < |RealDims(dims)| ==> RealDims(dims)[k].sharding == 1
  {
    if dims != [] {
      RealDimsSharding(dims[1..]);
    }
  }

  lemma PiecesDeliver(pieces: seq<Rect>, src: Sharding, dst: Sharding)
    requires WellFormed(src) && WellFormed(dst) && IsReplicated(dst) && |pieces| == src.devices.size
    requires ArrayShape(src.dims) == ArrayShape(dst.dims)
    requires forall s: nat, p: Point :: s < src.devices.size && InRect(pieces[s], p) ==>
               InRect(TileRect(s, src.dims), p)
    requires forall p: Point :: InArray(p, ArrayShape(src.dims)) ==>
               exists s: nat :: s < src.devices.size && InRect(pieces[s], p)
    ensures Delivers(GatherPlan(pieces, src, dst), src, dst)
  {
    var plan := GatherPlan(pieces, src, dst);
    forall t | t in plan ensures InsideTiles(t, src, dst) {
      PieceInside(t, src, dst);
    }
    forall d: nat, p: Point | d < dst.devices.size && InRect(TileRect(d, dst.dims), p)
      ensures exists t :: t in plan && t.dst == d && InRect(t.rect, p)
    {
      TileInArray(d, p, dst.dims);
      var s: nat :| s < src.devices.size && InRect(pieces[s], p);
      assert Transfer(s, d, pieces[s]) in plan;
    }
  }

  lemma PieceInside(t: Transfer, src: Sharding, dst: Sharding)
    requires WellFormed(src) && WellFormed(dst) && IsReplicated(dst)
    requires ArrayShape(src.dims) == ArrayShape(dst.dims) && t.src < src.devices.size && t.dst < dst.devices.size
    requires forall p: Point :: InRect(t.rect, p) ==> InRect(TileRect(t.src, src.dims), p)
    ensures InsideTiles(t, src, dst)
  {
    forall p: Point | InRect(t.rect, p) ensures InRect(TileRect(t.dst, dst.dims), p) {
      TileInArray(t.src, p, src.dims);
      ReplicatedTileIsWhole(t.dst, p, dst);
    }
  }

  /** Gathering whole tiles fills every destination tile. */
  lemma GatherShardsDelivers(src: Sharding, dst: Sharding)
    requires WellFormed(src) && WellFormed(dst) && IsReplicated(dst)
    requires ArrayShape(src.dims) == ArrayShape(dst.dims)
    ensures Delivers(GatherPlan(AllTiles(src), src, dst), src, dst)
  {
    forall p: Point | InArray(p, ArrayShape(src.dims))
      ensures exists s: nat :: s < src.devices.size && InRect(AllTiles(src)[s], p)
    {
      ReplicationFacts(src.dims);
      HolderHolds(p, 0, src.dims);
      assert InRect(AllTiles(src)[Holder(p, 0, src.dims)], p);
    }
    PiecesDeliver(AllTiles(src), src, dst);
  }
}
