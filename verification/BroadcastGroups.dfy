/** Dealing destination shards to the sources of a broadcast: one tree for each group (reshard_broadcast.cc). */
module BroadcastGroups {
  import opened Arithmetic
  import opened PowersOfTwo
  import opened Shape
  import opened Broadcast

  /** Destination shards for each source, rounded up. */
  function LeavesPerRoot(sources: nat, targets: nat): nat
    requires sources > 0
  {
    (targets + sources - 1) / sources
  }

  /** Size of group g, which starts at shard g * leaves. */
  function GroupSize(g: nat, leaves: nat, targets: nat): nat
    requires g * leaves <= targets
  {
    if leaves <= targets - g * leaves then leaves else targets - g * leaves
  }

  lemma LeavesBounds(sources: nat, targets: nat)
    requires 0 < sources < targets
    ensures LeavesPerRoot(sources, targets) > 0
    ensures (LeavesPerRoot(sources, targets) - 1) * sources < targets <= LeavesPerRoot(sources, targets) * sources
  {
    var x, l := targets + sources - 1, LeavesPerRoot(sources, targets);
    DivMod(x, sources);
    MulDistributes(l, -1, sources);
    if l <= 0 { MulMonotone(l, 0, sources); }
  }

  /** The least n for which groups of n shards, one for each source, are enough. */
  predicate IsGroupSize(n: nat, sources: nat, targets: nat) {
    n > 0 && (n - 1) * sources < targets <= n * sources
  }

  lemma GroupSizeUnique(n: nat, sources: nat, targets: nat)
    requires 0 < sources < targets && IsGroupSize(n, sources, targets)
    ensures LeavesPerRoot(sources, targets) == n
  {
    var l := LeavesPerRoot(sources, targets);
    LeavesBounds(sources, targets);
    if l < n {
      MulMonotone(l, n - 1, sources);
    } else if n < l {
      MulMonotone(n, l - 1, sources);
    }
  }

  /** Group g is that of a source, and shard d has a rank inside it. */
  predicate InGroup(d: nat, g: nat, leaves: nat, sources: nat, targets: nat) {
    g < sources && g * leaves <= d < targets && d - g * leaves < GroupSize(g, leaves, targets)
  }

  lemma GroupOf(d: nat, leaves: nat, sources: nat, targets: nat)
    requires leaves > 0 && d < targets <= leaves * sources
    ensures InGroup(d, d / leaves, leaves, sources, targets)
  {
    MulSwap(leaves, sources, 1);
    DivBound(d, sources, leaves);
    DivMod(d, leaves);
  }

  /**
   The groups partition the destination shards: shard d has a rank inside exactly the group
   d / leaves, and that group's number is the number of an existing source.
   */
  lemma GroupFacts(d: nat, sources: nat, targets: nat)
    requires 0 < sources < targets && d < targets
    ensures var leaves := LeavesPerRoot(sources, targets);
      && leaves > 0 && InGroup(d, d / leaves, leaves, sources, targets)
      && forall g: nat :: g * leaves <= d < g * leaves + leaves ==> g == d / leaves
  {
    var leaves := LeavesPerRoot(sources, targets);
    LeavesBounds(sources, targets);
    GroupOf(d, leaves, sources, targets);
    forall g: nat | g * leaves <= d < g * leaves + leaves ensures g == d / leaves {
      DivModUnique(d, g, d - g * leaves, leaves);
    }
  }

  /** Where a destination shard sits: its group, the first shard of the group, its rank and the group's size. */
  datatype Place = Place(group: nat, base: nat, rank: nat, size: nat)

  function PlaceOf(d: nat, sources: nat, targets: nat): (place: Place)
    requires 0 < sources < targets && d < targets
    ensures place.group < sources && place.base + place.rank == d && place.rank < place.size
  {
    GroupFacts(d, sources, targets);
    var leaves := LeavesPerRoot(sources, targets);
    var g := d / leaves;
    Place(g, g * leaves, d - g * leaves, GroupSize(g, leaves, targets))
  }

  /** Who feeds destination d and where in the tree it sits, by the numbers of sources and destinations alone. */
  lemma PlaceByCounts(d: nat, n: nat, sources: nat, targets: nat)
    requires 0 < sources < targets && d < targets && IsGroupSize(n, sources, targets)
    ensures PlaceOf(d, sources, targets) ==
            Place(d / n, d - d % n, d % n, if d - d % n + n <= targets then n else targets - (d - d % n))
  {
    GroupSizeUnique(n, sources, targets);
    DivMod(d, n);
  }

  /** When the destinations can be dealt out evenly, every source feeds exactly its share. */
  lemma EvenGroups(s: nat, d: nat, sources: nat, targets: nat)
    requires 0 < sources < targets && targets % sources == 0 && s < sources && d < targets
    ensures var share := targets / sources;
      && SourceOf(s, sources, targets) == Some([s * share])
      && PlaceOf(d, sources, targets).size == share
      && (PlaceOf(d, sources, targets).group == s <==> s * share <= d < s * share + share)
  {
    var share := targets / sources;
    DivMod(targets, sources);
    if share <= 0 { MulMonotone(share, 0, sources); }
    MulDistributes(share, -1, sources);
    GroupSizeUnique(share, sources, targets);
    PlaceByCounts(d, share, sources, targets);
    MulMonotone(s + 1, sources, share);
    MulDistributes(s, 1, share);
    MulSwap(sources, share, 1);
    DivMod(d, share);
    DivBound(d, sources, share);
    var g := d / share;
    MulMonotone(g + 1, sources, share);
    MulDistributes(g, 1, share);
    if s * share <= d < s * share + share {
      DivModUnique(d, s, d - s * share, share);
    }
  }

  /** Destination d names its source or parent, and lists its leaves, as its place demands. */
  ghost predicate IsTargetOf(config: TargetConfig, place: Place) {
    forall cover :: Covering(place.size, cover) ==>
      config == TargetOf(place.group, place.base, place.rank, place.size, cover)
  }

  /** The first shard of the group that a source feeds; None when there are more sources than groups. */
  function SourceOf(s: nat, sources: nat, targets: nat): Option<seq<nat>>
    requires 0 < sources
  {
    var partner := s * LeavesPerRoot(sources, targets);
    if partner >= targets then None else Some([partner])
  }

  /** A device's configuration.  A source without a group returns early, and its target half is lost. */
  ghost predicate IsConfigOf(config: BroadcastConfig, srcShard: Option<nat>, dstShard: Option<nat>,
                             sources: nat, targets: nat)
    requires 0 < sources < targets && (dstShard.Some? ==> dstShard.value < targets)
  {
    && config.source == (if srcShard.None? then None else SourceOf(srcShard.value, sources, targets))
    && if dstShard.None? || (srcShard.Some? && config.source.None?) then config.target.None?
       else config.target.Some? && IsTargetOf(config.target.value, PlaceOf(dstShard.value, sources, targets))
  }

  method GetTarget(d: nat, leavesPerRoot: nat, sources: nat, targets: nat) returns (target: TargetConfig)
    requires 0 < sources < targets && d < targets && leavesPerRoot == LeavesPerRoot(sources, targets)
    ensures IsTargetOf(target, PlaceOf(d, sources, targets))
  {
    GroupFacts(d, sources, targets);
    var mySrcShard := d / leavesPerRoot;
    var treeOffset := mySrcShard * leavesPerRoot;
    var myRank := d - treeOffset;
    var numLeaves := if leavesPerRoot <= targets - treeOffset then leavesPerRoot else targets - treeOffset;
    target := GetTargetConfig(mySrcShard, treeOffset, numLeaves, myRank);
  }

  method GetBroadcastConfig(srcShard: Option<nat>, dstShard: Option<nat>, sources: nat, targets: nat)
    returns (config: BroadcastConfig)
    requires 0 < sources < targets
    requires srcShard.Some? ==> srcShard.value < sources
    requires dstShard.Some? ==> dstShard.value < targets
    ensures IsConfigOf(config, srcShard, dstShard, sources, targets)
    ensures srcShard.Some? ==> forall n: nat :: IsGroupSize(n, sources, targets) ==>
              config.source == if srcShard.value * n >= targets then None else Some([srcShard.value * n])
  {
    forall n: nat | IsGroupSize(n, sources, targets) ensures LeavesPerRoot(sources, targets) == n {
      GroupSizeUnique(n, sources, targets);
    }
    var leavesPerRoot := (targets + sources - 1) / sources;
    LeavesBounds(sources, targets);
    var source: Option<seq<nat>> := None;
    if srcShard.Some? {
      var partner := srcShard.value * leavesPerRoot;
      if partner >= targets {
        return BroadcastConfig(None, None);
      }
      source := Some([partner]);
    }
    var target: Option<TargetConfig> := None;
    if dstShard.Some? {
      var t := GetTarget(dstShard.value, leavesPerRoot, sources, targets);
      target := Some(t);
    }
    config := BroadcastConfig(source, target);
  }

  lemma {:induction false} SomeCover(n: nat) returns (cover: nat)
    ensures Covering(n, cover)
  {
    cover := 1;
    while cover < n
      invariant IsPow2(cover) && (cover == 1 || cover / 2 < n)
    {
      cover := 2 * cover;
    }
  }

  /** The source that names shard d as its root is exactly the one that shard d waits on. */
  lemma RootsMatch(s: nat, d: nat, config: TargetConfig, sources: nat, targets: nat)
    requires 0 < sources < targets && d < targets && IsTargetOf(config, PlaceOf(d, sources, targets))
    ensures SourceOf(s, sources, targets) == Some([d]) <==> config.srcShard == Some(s)
  {
    var place, leaves := PlaceOf(d, sources, targets), LeavesPerRoot(sources, targets);
    var cover := SomeCover(place.size);
    assert config == TargetOf(place.group, place.base, place.rank, place.size, cover);
    LeavesBounds(sources, targets);
    if s * leaves == d {
      DivModUnique(d, s, 0, leaves);
    }
  }

  lemma PlaceInGroup(d: nat, rank: nat, sources: nat, targets: nat)
    requires 0 < sources < targets && d < targets && rank < PlaceOf(d, sources, targets).size
    ensures var place := PlaceOf(d, sources, targets);
      place.base + rank < targets && PlaceOf(place.base + rank, sources, targets) == place.(rank := rank)
  {
    var place, leaves := PlaceOf(d, sources, targets), LeavesPerRoot(sources, targets);
    LeavesBounds(sources, targets);
    DivModUnique(place.base + rank, place.group, rank, leaves);
  }

  // ----- who gets the data, by the configurations the devices really have

  /** Every device has computed its configuration from its places in the two device lists. */
  ghost predicate Configured(configs: int -> BroadcastConfig, src: DeviceList, dst: DeviceList)
    requires 0 < src.size < dst.size
  {
    forall device: int ::
      IsConfigOf(configs(device), src.ShardId(device), dst.ShardId(device), src.size, dst.size)
  }

  predicate NamesRoot(config: BroadcastConfig, d: nat) {
    config.source.Some? && d in config.source.value
  }

  predicate ListsLeaf(config: BroadcastConfig, d: nat) {
    config.target.Some? && d in config.target.value.dstLeafShards
  }

  /**
   Destination shard d waits for someone who sends to it: for a source that names it as its root, or
   for another destination shard that lists it and is itself delivered.
   */
  predicate Delivered(d: nat, configs: int -> BroadcastConfig, src: DeviceList, dst: DeviceList)
    decreases d
  {
    && configs(dst.start + d).target.Some?
    && var target := configs(dst.start + d).target.value;
       if target.srcShard.Some? then
         target.srcShard.value < src.size && NamesRoot(configs(src.start + target.srcShard.value), d)
       else
         && target.dstRootShard.Some? && target.dstRootShard.value < d
         && ListsLeaf(configs(dst.start + target.dstRootShard.value), d)
         && Delivered(target.dstRootShard.value, configs, src, dst)
  }

  /** Shard d sits on the device of a source that has no group. */
  predicate OnSurplusSource(d: nat, src: DeviceList, dst: DeviceList)
    requires src.size > 0
  {
    var s := src.ShardId(dst.start + d);
    s.Some? && SourceOf(s.value, src.size, dst.size).None?
  }

  lemma TargetOfShard(d: nat, configs: int -> BroadcastConfig, src: DeviceList, dst: DeviceList)
    requires 0 < src.size < dst.size && Configured(configs, src, dst) && d < dst.size
    ensures var target := configs(dst.start + d).target;
      if OnSurplusSource(d, src, dst) then target.None?
      else target.Some? && IsTargetOf(target.value, PlaceOf(d, src.size, dst.size))
  {
    var device := dst.start + d;
    assert dst.ShardId(device) == Some(d);
    assert IsConfigOf(configs(device), src.ShardId(device), dst.ShardId(device), src.size, dst.size);
  }

  lemma SourceHalf(s: nat, configs: int -> BroadcastConfig, src: DeviceList, dst: DeviceList)
    requires 0 < src.size < dst.size && Configured(configs, src, dst) && s < src.size
    ensures configs(src.start + s).source == SourceOf(s, src.size, dst.size)
  {
    var device := src.start + s;
    assert src.ShardId(device) == Some(s);
    assert IsConfigOf(configs(device), src.ShardId(device), dst.ShardId(device), src.size, dst.size);
  }

  /** What shard d is configured to wait for: the source of its group, or its parent in the tree. */
  lemma WaitsFor(d: nat, configs: int -> BroadcastConfig, src: DeviceList, dst: DeviceList, cover: nat)
    requires 0 < src.size < dst.size && Configured(configs, src, dst) && d < dst.size
    requires !OnSurplusSource(d, src, dst) && Covering(PlaceOf(d, src.size, dst.size).size, cover)
    ensures configs(dst.start + d).target.Some?
    ensures var place, target := PlaceOf(d, src.size, dst.size), configs(dst.start + d).target.value;
      && target.srcShard == (if place.rank == 0 then Some(place.group) else None)
      && target.dstRootShard == (if place.rank == 0 then None else Some(place.base + Parent(place.rank)))
      && target.dstLeafShards == Shift(Children(place.rank, place.size, cover), place.base)
  {
    TargetOfShard(d, configs, src, dst);
  }

  lemma InShift(ranks: seq<nat>, rank: nat, root: nat)
    ensures root + rank in Shift(ranks, root) <==> rank in ranks
  {
    var shifted := Shift(ranks, root);
    if rank in ranks {
      var i :| 0 <= i < |ranks| && ranks[i] == rank;
      assert shifted[i] == root + rank;
    }
    if root + rank in shifted {
      var i :| 0 <= i < |shifted| && shifted[i] == root + rank;
      assert ranks[i] == rank;
    }
  }

  /** The shard that shard d waits on inside its tree. */
  function ParentShard(d: nat, sources: nat, targets: nat): (p: nat)
    requires 0 < sources < targets && d < targets && PlaceOf(d, sources, targets).rank > 0
    ensures p < d
  {
    var place := PlaceOf(d, sources, targets);
    ParentBelow(place.rank);
    place.base + Parent(place.rank)
  }

  lemma RootIsDelivered(d: nat, configs: int -> BroadcastConfig, src: DeviceList, dst: DeviceList)
    requires 0 < src.size < dst.size && Configured(configs, src, dst) && d < dst.size
    requires PlaceOf(d, src.size, dst.size).rank == 0 && !OnSurplusSource(d, src, dst)
    ensures Delivered(d, configs, src, dst)
  {
    var place := PlaceOf(d, src.size, dst.size);
    var cover := SomeCover(place.size);
    TargetOfShard(d, configs, src, dst);
    WaitsFor(d, configs, src, dst, cover);
    SourceHalf(place.group, configs, src, dst);
    RootsMatch(place.group, d, configs(dst.start + d).target.value, src.size, dst.size);
  }

  lemma ListedByParent(d: nat, configs: int -> BroadcastConfig, src: DeviceList, dst: DeviceList, cover: nat)
    requires 0 < src.size < dst.size && Configured(configs, src, dst) && d < dst.size
    requires PlaceOf(d, src.size, dst.size).rank > 0 && Covering(PlaceOf(d, src.size, dst.size).size, cover)
    ensures var place, p := PlaceOf(d, src.size, dst.size), ParentShard(d, src.size, dst.size);
      && PlaceOf(p, src.size, dst.size) == place.(rank := Parent(place.rank))
      && (ListsLeaf(configs(dst.start + p), d) <==>
            !OnSurplusSource(p, src, dst) && place.rank in Children(Parent(place.rank), place.size, cover))
  {
    var place, p := PlaceOf(d, src.size, dst.size), ParentShard(d, src.size, dst.size);
    ParentBelow(place.rank);
    PlaceInGroup(d, Parent(place.rank), src.size, dst.size);
    TargetOfShard(p, configs, src, dst);
    if !OnSurplusSource(p, src, dst) {
      WaitsFor(p, configs, src, dst, cover);
      InShift(Children(Parent(place.rank), place.size, cover), place.rank, place.base);
    }
  }

  /** Who waits on shard p is delivered when p lists it and is delivered. */
  lemma WaiterIsDelivered(d: nat, p: nat, configs: int -> BroadcastConfig, src: DeviceList, dst: DeviceList)
    requires configs(dst.start + d).target.Some? && p < d
    requires configs(dst.start + d).target.value.srcShard.None?
    requires configs(dst.start + d).target.value.dstRootShard == Some(p)
    ensures Delivered(d, configs, src, dst) <==>
            ListsLeaf(configs(dst.start + p), d) && Delivered(p, configs, src, dst)
  {
  }

  lemma WaitsOnParent(d: nat, configs: int -> BroadcastConfig, src: DeviceList, dst: DeviceList)
    requires 0 < src.size < dst.size && Configured(configs, src, dst) && d < dst.size
    requires PlaceOf(d, src.size, dst.size).rank > 0 && !OnSurplusSource(d, src, dst)
    ensures configs(dst.start + d).target.Some?
    ensures configs(dst.start + d).target.value.srcShard.None?
    ensures configs(dst.start + d).target.value.dstRootShard == Some(ParentShard(d, src.size, dst.size))
  {
    var cover := SomeCover(PlaceOf(d, src.size, dst.size).size);
    WaitsFor(d, configs, src, dst, cover);
  }

  /** The rank of shard d is reached in the tree of its group. */
  ghost predicate InReach(d: nat, sources: nat, targets: nat, cover: nat)
    requires 0 < sources < targets && d < targets
  {
    Reached(PlaceOf(d, sources, targets).rank, PlaceOf(d, sources, targets).size, cover)
  }

  /** A shard is delivered only if its tree reaches it and it does not sit on a surplus source ... */
  lemma {:induction false} DeliveredIsReached(d: nat, configs: int -> BroadcastConfig, src: DeviceList,
                                              dst: DeviceList, cover: nat)
    requires 0 < src.size < dst.size && Configured(configs, src, dst) && d < dst.size
    requires Covering(PlaceOf(d, src.size, dst.size).size, cover) && Delivered(d, configs, src, dst)
    ensures !OnSurplusSource(d, src, dst) && InReach(d, src.size, dst.size, cover)
    decreases d
  {
    TargetOfShard(d, configs, src, dst);
    if PlaceOf(d, src.size, dst.size).rank > 0 {
      WaitsOnParent(d, configs, src, dst);
      WaiterIsDelivered(d, ParentShard(d, src.size, dst.size), configs, src, dst);
      ListedByParent(d, configs, src, dst, cover);
      DeliveredIsReached(ParentShard(d, src.size, dst.size), configs, src, dst, cover);
    }
  }

  /** ... and if its tree reaches it and nobody sits on a surplus source. */
  lemma {:induction false} ReachedIsDelivered(d: nat, configs: int -> BroadcastConfig, src: DeviceList,
                                              dst: DeviceList, cover: nat)
    requires 0 < src.size < dst.size && Configured(configs, src, dst) && d < dst.size
    requires Covering(PlaceOf(d, src.size, dst.size).size, cover) && InReach(d, src.size, dst.size, cover)
    requires NoSurplusInside(src, dst)
    ensures Delivered(d, configs, src, dst)
    decreases d
  {
    NotOnSurplus(d, src, dst);
    if PlaceOf(d, src.size, dst.size).rank == 0 {
      RootIsDelivered(d, configs, src, dst);
    } else {
      ListedByParent(d, configs, src, dst, cover);
      NotOnSurplus(ParentShard(d, src.size, dst.size), src, dst);
      ReachedIsDelivered(ParentShard(d, src.size, dst.size), configs, src, dst, cover);
      WaitsOnParent(d, configs, src, dst);
      WaiterIsDelivered(d, ParentShard(d, src.size, dst.size), configs, src, dst);
    }
  }

  lemma ParentBelow(rank: nat)
    requires rank > 0
    ensures Parent(rank) < rank
  {
    LowBitFacts(rank);
  }

  /** No source without a group sits on a destination device. */
  predicate NoSurplusInside(src: DeviceList, dst: DeviceList)
    requires src.size > 0
  {
    forall s :: 0 <= s < src.size && SourceOf(s, src.size, dst.size).None? ==> !dst.Contains(src.start + s)
  }

  lemma NotOnSurplus(d: nat, src: DeviceList, dst: DeviceList)
    requires 0 < src.size && d < dst.size && NoSurplusInside(src, dst)
    ensures !OnSurplusSource(d, src, dst)
  {
  }

  ghost predicate AllGroupsGood(sources: nat, targets: nat)
    requires 0 < sources < targets
  {
    forall d: nat :: d < targets ==> GoodSize(PlaceOf(d, sources, targets).size)
  }

  ghost predicate AllDelivered(configs: int -> BroadcastConfig, src: DeviceList, dst: DeviceList) {
    forall d: nat :: d < dst.size ==> Delivered(d, configs, src, dst)
  }

  lemma AllDeliveredNeeds(configs: int -> BroadcastConfig, src: DeviceList, dst: DeviceList)
    requires 0 < src.size < dst.size && Configured(configs, src, dst) && AllDelivered(configs, src, dst)
    ensures AllGroupsGood(src.size, dst.size) && NoSurplusInside(src, dst)
  {
    forall d: nat | d < dst.size ensures GoodSize(PlaceOf(d, src.size, dst.size).size) {
      DeliveredGroupIsGood(d, configs, src, dst);
    }
    forall s | 0 <= s < src.size && dst.Contains(src.start + s) ensures SourceOf(s, src.size, dst.size).Some? {
      var d: nat := src.start + s - dst.start;
      var cover := SomeCover(PlaceOf(d, src.size, dst.size).size);
      DeliveredIsReached(d, configs, src, dst, cover);
      assert src.ShardId(dst.start + d) == Some(s);
    }
  }

  lemma DeliveredGroupIsGood(d: nat, configs: int -> BroadcastConfig, src: DeviceList, dst: DeviceList)
    requires 0 < src.size < dst.size && Configured(configs, src, dst) && d < dst.size
    requires AllDelivered(configs, src, dst)
    ensures GoodSize(PlaceOf(d, src.size, dst.size).size)
  {
    var place := PlaceOf(d, src.size, dst.size);
    var cover := SomeCover(place.size);
    forall rank: nat | rank < place.size ensures Reached(rank, place.size, cover) {
      PlaceInGroup(d, rank, src.size, dst.size);
      DeliveredIsReached(place.base + rank, configs, src, dst, cover);
    }
    AllReachedIff(place.size, cover);
  }

  lemma AllDeliveredWhen(configs: int -> BroadcastConfig, src: DeviceList, dst: DeviceList)
    requires 0 < src.size < dst.size && Configured(configs, src, dst)
    requires AllGroupsGood(src.size, dst.size) && NoSurplusInside(src, dst)
    ensures AllDelivered(configs, src, dst)
  {
    forall d: nat | d < dst.size ensures Delivered(d, configs, src, dst) {
      DeliveredWhenGood(d, configs, src, dst);
    }
  }

  lemma DeliveredWhenGood(d: nat, configs: int -> BroadcastConfig, src: DeviceList, dst: DeviceList)
    requires 0 < src.size < dst.size && Configured(configs, src, dst) && d < dst.size
    requires GoodSize(PlaceOf(d, src.size, dst.size).size) && NoSurplusInside(src, dst)
    ensures Delivered(d, configs, src, dst)
  {
    var place := PlaceOf(d, src.size, dst.size);
    var cover := SomeCover(place.size);
    BroadcastCompleteIff(place.size, cover);
    ReachedWhenListed(place.rank, place.size, cover);
    ReachedIsDelivered(d, configs, src, dst, cover);
  }

  /**
   Every destination shard is delivered exactly when every group has a size that works and no
   source without a group sits on a destination device.
   */
  lemma AllDeliveredIff(configs: int -> BroadcastConfig, src: DeviceList, dst: DeviceList)
    requires 0 < src.size < dst.size && Configured(configs, src, dst)
    ensures AllDelivered(configs, src, dst) <==> AllGroupsGood(src.size, dst.size) && NoSurplusInside(src, dst)
  {
    if AllDelivered(configs, src, dst) {
      AllDeliveredNeeds(configs, src, dst);
    }
    if AllGroupsGood(src.size, dst.size) && NoSurplusInside(src, dst) {
      AllDeliveredWhen(configs, src, dst);
    }
  }

  lemma SmallGroupsGood(d: nat)
    requires d < 5
    ensures GoodSize(PlaceOf(d, 4, 5).size)
  {
    assert LeavesPerRoot(4, 5) == 2;
    var zero: nat, one: nat := 0, 1;
    assert zero <= zero && 1 == Pow2(zero) - Pow2(zero) + 1;
    assert zero <= one && 2 == Pow2(one) - Pow2(zero) + 1;
    assert PlaceOf(d, 4, 5).size == 1 || PlaceOf(d, 4, 5).size == 2;
  }

  /**
   Four sources and five destinations on devices 0 to 4: all groups work, but device 3 is a surplus source,
   so shard 3 is not fed, although shard 2 lists it.
   */
  lemma SurplusSourceUnfed(configs: int -> BroadcastConfig)
    requires Configured(configs, DeviceList(0, 4), DeviceList(0, 5))
    ensures configs(3).target.None? && !Delivered(3, configs, DeviceList(0, 4), DeviceList(0, 5))
    ensures ListsLeaf(configs(2), 3)
    ensures forall d: nat :: d < 5 ==> GoodSize(PlaceOf(d, 4, 5).size)
  {
    SurplusSkipped(configs);
    SurplusListed(configs);
    forall d: nat | d < 5 ensures GoodSize(PlaceOf(d, 4, 5).size) {
      SmallGroupsGood(d);
    }
  }

  lemma SurplusSkipped(configs: int -> BroadcastConfig)
    requires Configured(configs, DeviceList(0, 4), DeviceList(0, 5))
    ensures configs(3).target.None?
  {
    TargetOfShard(3, configs, DeviceList(0, 4), DeviceList(0, 5));
    assert LeavesPerRoot(4, 5) == 2 && SourceOf(3, 4, 5) == None;
  }

  lemma SurplusListed(configs: int -> BroadcastConfig)
    requires Configured(configs, DeviceList(0, 4), DeviceList(0, 5))
    ensures ListsLeaf(configs(2), 3)
  {
    assert LeavesPerRoot(4, 5) == 2 && SourceOf(2, 4, 5) == Some([4]);
    assert PlaceOf(2, 4, 5).rank == 0 && PlaceOf(2, 4, 5).size == 2 && PlaceOf(2, 4, 5).base == 2;
    TargetOfShard(2, configs, DeviceList(0, 4), DeviceList(0, 5));
    assert IsPow2(2);
    assert Covering(2, 2);
    WaitsFor(2, configs, DeviceList(0, 4), DeviceList(0, 5), 2);
    assert Leaves(0, 0, 2) == [];
    assert Children(0, 2, 2) == Leaves(0, 1, 2) == [1];
    InShift(Children(0, 2, 2), 1, 2);
  }
}
