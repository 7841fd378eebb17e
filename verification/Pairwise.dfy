/** Pairing up shards of the same number (reshard_point_to_point.cc), and when replicated arrays are paired up. */
module Pairwise {
  import opened Shape
  import opened TiledArray
  import opened Delivery

  datatype ReplicatedConfig = NoOp | PointToPoint | Broadcast

  /** The device has no part in pairing up the shards of two replicated arrays. */
  predicate StandsIdle(device: int, src: Sharding, dst: Sharding) {
    && !dst.devices.Contains(device)
    && forall s: nat :: src.devices.Places(device, s) ==> s >= dst.devices.size
  }

  /** A device outside both lists may be told to pair up, but then it holds no tile. */
  method DetermineFullyReplicated(device: int, src: Sharding, dst: Sharding) returns (config: ReplicatedConfig)
    ensures config == Broadcast <==> src.devices.size < dst.devices.size
    ensures config == NoOp ==> StandsIdle(device, src, dst)
    ensures config == PointToPoint && StandsIdle(device, src, dst) ==> !src.devices.Contains(device)
  {
    if src.devices.size >= dst.devices.size {
      var srcShard := device - src.devices.start;
      if !dst.devices.Contains(device) && srcShard >= dst.devices.size {
        return NoOp;
      }
      assert src.devices.Contains(device) ==> src.devices.Places(device, srcShard);
      return PointToPoint;
    }
    config := Broadcast;
  }

  ghost function PairSent(device: int, src: Sharding): seq<Transfer>
    requires WellFormed(src)
  {
    match src.devices.ShardId(device)
    case None => []
    case Some(s) => [Transfer(s, s, TileRect(s, src.dims))]
  }

  ghost function PairReceived(device: int, dst: Sharding): seq<Transfer>
    requires WellFormed(dst)
  {
    match dst.devices.ShardId(device)
    case None => []
    case Some(d) => [Transfer(d, d, TileRect(d, dst.dims))]
  }

  /** A device with a tile sends it, and one with a destination tile receives it, under its own shard number. */
  method ReshardPointToPoint(device: int, src: Sharding, dst: Sharding)
    returns (sent: seq<Transfer>, received: seq<Transfer>)
    requires WellFormed(src) && WellFormed(dst)
    ensures sent == PairSent(device, src) && received == PairReceived(device, dst)
    ensures forall t :: t in sent <==>
              src.devices.Places(device, t.src) && t.dst == t.src && t.rect == TileRect(t.src, src.dims)
    ensures forall t :: t in received <==>
              dst.devices.Places(device, t.dst) && t.src == t.dst && t.rect == TileRect(t.dst, dst.dims)
  {
    sent, received := [], [];
    var dstShard := dst.devices.ShardId(device);
    if dstShard.Some? {
      var bounds := ComputeTileBounds(dstShard.value, dst.dims);
      received := [Transfer(dstShard.value, dstShard.value, bounds)];
    }
    var srcShard := src.devices.ShardId(device);
    if srcShard.Some? {
      var bounds := ComputeTileBounds(srcShard.value, src.dims);
      sent := [Transfer(srcShard.value, srcShard.value, bounds)];
    }
  }
}
