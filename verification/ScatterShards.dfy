/** Scattering a replicated array (reshard_scatter_shards.cc): destination shards are dealt out to the sources. */
module ScatterShards {
  import opened Arithmetic
  import opened Shape
  import opened TiledArray
  import opened TileCoverage
  import opened Delivery
  import opened GatherShards

  /** What source shard s sends: consecutive destination shards, as many for each source. */
  ghost function ScatterSentBy(s: nat, src: Sharding, dst: Sharding): seq<Transfer>
    requires WellFormed(dst) && src.devices.size > 0
  {
    var each := dst.devices.size / src.devices.size;
    seq(each, i requires 0 <= i => Transfer(s, each * s + i, TileRect(each * s + i, dst.dims)))
  }

  /** What destination shard d expects. */
  ghost function ScatterReceivedBy(d: nat, src: Sharding, dst: Sharding): Transfer
    requires WellFormed(dst) && 0 < src.devices.size <= dst.devices.size
  {
    var each := dst.devices.size / src.devices.size;
    Transfer(d / each, d, TileRect(d, dst.dims))
  }

  method ScatterShardsFromLocalSource(srcShard: nat, src: Sharding, dst: Sharding) returns (keys: seq<Transfer>)
    requires WellFormed(dst) && srcShard < src.devices.size
    ensures keys == ScatterSentBy(srcShard, src, dst)
  {
    var shardsPerSource := dst.devices.size / src.devices.size;
    var shardOffset := shardsPerSource * srcShard;
    DealtInRange(srcShard, src.devices.size, dst.devices.size);
    keys := [];
    for shard := 0 to shardsPerSource
      invariant keys == ScatterSentBy(srcShard, src, dst)[..shard]
    {
      var dstShard := shardOffset + shard;
      var bounds := ComputeTileBounds(dstShard, dst.dims);
      keys := keys + [Transfer(srcShard, dstShard, bounds)];
    }
  }

  /** The receiver divides by the number of shards per source, so there must be at least one. */
  method ScatterShardsToLocalTarget(dstShard: nat, src: Sharding, dst: Sharding) returns (key: Transfer)
    requires WellFormed(dst) && dstShard < dst.devices.size && 0 < src.devices.size <= dst.devices.size
    ensures key == ScatterReceivedBy(dstShard, src, dst)
  {
    var shardsPerSource := dst.devices.size / src.devices.size;
    var bounds := ComputeTileBounds(dstShard, dst.dims);
    key := Transfer(dstShard / shardsPerSource, dstShard, bounds);
  }

  lemma DealtInRange(s: nat, sources: nat, targets: nat)
    requires s < sources
    ensures 0 <= (targets / sources) * s <= (targets / sources) * s + targets / sources <= targets
  {
    var each := targets / sources;
    DivMod(targets, sources);
    MulMonotone(s + 1, sources, each);
    MulDistributes(s, 1, each);
    MulMonotone(0, s, each);
  }

  ghost predicate SentByScatter(t: Transfer, src: Sharding, dst: Sharding)
    requires WellFormed(dst) && src.devices.size > 0
  {
    t.src < src.devices.size && t in ScatterSentBy(t.src, src, dst)
  }

  ghost predicate ReceivedByScatter(t: Transfer, src: Sharding, dst: Sharding)
    requires WellFormed(dst) && 0 < src.devices.size <= dst.devices.size
  {
    t.dst < dst.devices.size && t == ScatterReceivedBy(t.dst, src, dst)
  }

  /** Who sends what, by the numbers of shards alone: `each` destination shards for each source, in order. */
  lemma DealtOut(each: nat, t: Transfer, src: Sharding, dst: Sharding)
    requires WellFormed(dst) && 0 < src.devices.size <= dst.devices.size
    requires each * src.devices.size <= dst.devices.size < (each + 1) * src.devices.size
    ensures SentByScatter(t, src, dst) <==>
              && t.src < src.devices.size && each * t.src <= t.dst < each * t.src + each
              && t.rect == TileRect(t.dst, dst.dims)
    ensures ReceivedByScatter(t, src, dst) <==>
              && t.dst < dst.devices.size && each * t.src <= t.dst < each * t.src + each
              && t.rect == TileRect(t.dst, dst.dims)
  {
    var sources, targets := src.devices.size, dst.devices.size;
    MulDistributes(each, 1, sources);
    DivModUnique(targets, each, targets - each * sources, sources);
    if each * t.src <= t.dst < each * t.src + each {
      DivModUnique(t.dst, t.src, t.dst - each * t.src, each);
      if t.rect == TileRect(t.dst, dst.dims) && t.src < sources {
        assert ScatterSentBy(t.src, src, dst)[t.dst - each * t.src] == t;
      }
    }
    if each == 0 { DivModUnique(targets, 0, targets, sources); }
    DivMod(t.dst, each);
  }

  /** A device with a source tile sends, and one with a destination tile receives. */
  method ReshardScatterShards(device: int, src: Sharding, dst: Sharding)
    returns (sent: seq<Transfer>, received: seq<Transfer>)
    requires WellFormed(dst) && 0 < src.devices.size <= dst.devices.size
    ensures forall t :: t in sent <==> src.devices.Places(device, t.src) && SentByScatter(t, src, dst)
    ensures forall t :: t in received <==> dst.devices.Places(device, t.dst) && ReceivedByScatter(t, src, dst)
  {
    sent, received := [], [];
    var srcShard := src.devices.ShardId(device);
    if srcShard.Some? {
      sent := ScatterShardsFromLocalSource(srcShard.value, src, dst);
    }
    var dstShard := dst.devices.ShardId(device);
    if dstShard.Some? {
      var key := ScatterShardsToLocalTarget(dstShard.value, src, dst);
      received := [key];
    }
  }

  /** Every transfer that is sent is expected ... */
  lemma SentIsExpected(t: Transfer, src: Sharding, dst: Sharding)
    requires WellFormed(dst) && 0 < src.devices.size <= dst.devices.size
    requires SentByScatter(t, src, dst)
    ensures ReceivedByScatter(t, src, dst)
  {
    var each := dst.devices.size / src.devices.size;
    var i :| 0 <= i < each && t == ScatterSentBy(t.src, src, dst)[i];
    DealtInRange(t.src, src.devices.size, dst.devices.size);
    DivModUnique(t.dst, t.src, i, each);
  }

  /** ... and every expected transfer is sent, unless it falls past the shards that were dealt out. */
  lemma ExpectedIsSent(t: Transfer, src: Sharding, dst: Sharding)
    requires WellFormed(dst) && 0 < src.devices.size <= dst.devices.size
    requires ReceivedByScatter(t, src, dst)
    ensures SentByScatter(t, src, dst) <==> t.dst < (dst.devices.size / src.devices.size) * src.devices.size
  {
    var each := dst.devices.size / src.devices.size;
    DivMod(dst.devices.size, src.devices.size);
    if each == 0 { DivModUnique(dst.devices.size, 0, dst.devices.size, src.devices.size); }
    DivMod(t.dst, each);
    if t.dst < each * src.devices.size {
      DivBound(t.dst, src.devices.size, each);
      assert ScatterSentBy(t.src, src, dst)[t.dst % each] == t;
    }
    if SentByScatter(t, src, dst) {
      MulMonotone(t.src + 1, src.devices.size, each);
      MulDistributes(t.src, 1, each);
    }
  }

  /** The two halves agree exactly when the number of sources divides the number of destinations. */
  lemma ScatterHalvesAgreeIff(src: Sharding, dst: Sharding)
    requires WellFormed(dst) && 0 < src.devices.size <= dst.devices.size
    ensures (forall t: Transfer :: SentByScatter(t, src, dst) <==> ReceivedByScatter(t, src, dst))
            <==> dst.devices.size % src.devices.size == 0
  {
    var sources, targets := src.devices.size, dst.devices.size;
    DivMod(targets, sources);
    forall t: Transfer
      ensures SentByScatter(t, src, dst) ==> ReceivedByScatter(t, src, dst)
      ensures targets % sources == 0 && ReceivedByScatter(t, src, dst) ==> SentByScatter(t, src, dst)
    {
      if SentByScatter(t, src, dst) { SentIsExpected(t, src, dst); }
      if ReceivedByScatter(t, src, dst) { ExpectedIsSent(t, src, dst); }
    }
    if targets % sources != 0 {
      var orphan := ScatterReceivedBy(targets - 1, src, dst);
      ExpectedIsSent(orphan, src, dst);
      assert ReceivedByScatter(orphan, src, dst) && !SentByScatter(orphan, src, dst);
    }
  }

  ghost function ScatterPlan(src: Sharding, dst: Sharding): iset<Transfer>
    requires WellFormed(dst) && src.devices.size > 0
  {
    iset t: Transfer | SentByScatter(t, src, dst)
  }

  /** When they agree, every destination tile is filled. */
  lemma ScatterShardsDelivers(src: Sharding, dst: Sharding)
    requires WellFormed(src) && WellFormed(dst) && IsReplicated(src)
    requires ArrayShape(src.dims) == ArrayShape(dst.dims)
    requires 0 < src.devices.size <= dst.devices.size && dst.devices.size % src.devices.size == 0
    ensures Delivers(ScatterPlan(src, dst), src, dst)
  {
    var plan := ScatterPlan(src, dst);
    forall t | t in plan ensures InsideTiles(t, src, dst) {
      SentIsExpected(t, src, dst);
      forall p: Point | InRect(t.rect, p) ensures InRect(TileRect(t.src, src.dims), p) {
        TileInArray(t.dst, p, dst.dims);
        ReplicatedTileIsWhole(t.src, p, src);
      }
    }
    forall d: nat | d < dst.devices.size ensures Covers(plan, d, dst) {
      ScatterHalvesAgreeIff(src, dst);
      assert ReceivedByScatter(ScatterReceivedBy(d, src, dst), src, dst);
      assert ScatterReceivedBy(d, src, dst) in plan;
    }
  }
}
