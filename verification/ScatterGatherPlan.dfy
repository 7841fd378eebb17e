/** The configuration loops of reshard_scatter_gather.cc, and what the resulting copies deliver. */
module ScatterGatherPlan {
  import opened Arithmetic
  import opened MixedRadix
  import opened Shape
  import opened TiledArray
  import opened TileCoverage
  import opened TileBoxes
  import opened TilePermutation
  import opened Delivery
  import opened ScatterGather

  /** How many fine pieces the code deals to one coarse piece: the rest, if any, is forgotten. */
  function Slices(fine: Dims, coarse: Dims, j: nat): (r: nat)
    requires Comparable(fine, coarse, j) && fine[j].sharding > coarse[j].sharding
    ensures r > 0 && coarse[j].sharding * r <= fine[j].sharding < coarse[j].sharding * (r + 1)
  {
    assert coarse[j].Sane();
    SlicesFit(fine[j].sharding, coarse[j].sharding);
    fine[j].sharding / coarse[j].sharding
  }

  lemma SlicesFit(a: nat, b: nat)
    requires a > b > 0
    ensures a / b > 0 && b * (a / b) <= a < b * (a / b + 1)
    ensures a == b * (a / b) <==> a % b == 0
  {
    DivMod(a, b);
    if a / b <= 0 { MulMonotone(a / b, 0, b); }
  }

  function Finer(src: Sharding, dst: Sharding, j: nat): Sharding
    requires j < |src.dims| && j < |dst.dims|
  {
    if src.dims[j].sharding > dst.dims[j].sharding then src else dst
  }

  /** The number of shards changes on dim j. */
  predicate Changes(src: Dims, dst: Dims, j: nat) {
    Comparable(src, dst, j) && src[j].sharding != dst[j].sharding
  }

  predicate Divides(src: Dims, dst: Dims, j: nat)
    requires Changes(src, dst, j)
  {
    assert src[j].Sane() && dst[j].Sane();
    src[j].sharding % dst[j].sharding == 0 || dst[j].sharding % src[j].sharding == 0
  }

  /** What the caller has to respect for a change along dim j. */
  predicate Compatible(src: Dims, dst: Dims, j: nat) {
    DifferAt(src, dst, j) && Divides(src, dst, j) && InOrder(src, dst) && ReplicaLast(src) && ReplicaLast(dst)
  }

  /** What source shard s sends. */
  ghost function Sent(s: nat, src: Dims, dst: Dims, j: nat): seq<Transfer>
    requires Changes(src, dst, j)
  {
    if src[j].sharding > dst[j].sharding then GatherSent(s, src, dst, j, Slices(src, dst, j))
    else ScatterSent(s, src, dst, j, Slices(dst, src, j))
  }

  /** What destination shard d expects. */
  ghost function Received(d: nat, src: Dims, dst: Dims, j: nat): seq<Transfer>
    requires Changes(src, dst, j)
  {
    if src[j].sharding > dst[j].sharding then GatherReceived(d, src, dst, j, Slices(src, dst, j))
    else ScatterReceived(d, src, dst, j, Slices(dst, src, j))
  }

  ghost predicate IsSent(t: Transfer, src: Dims, dst: Dims, j: nat)
    requires Changes(src, dst, j)
  {
    t.src < ShardCount(src) && t in Sent(t.src, src, dst, j)
  }

  ghost predicate IsExpected(t: Transfer, src: Dims, dst: Dims, j: nat)
    requires Changes(src, dst, j)
  {
    t.dst < ShardCount(dst) && t in Received(t.dst, src, dst, j)
  }

  lemma DividesRefines(src: Dims, dst: Dims, j: nat)
    requires DifferAt(src, dst, j) && Divides(src, dst, j) && InOrder(src, dst)
    ensures if src[j].sharding > dst[j].sharding then Refines(src, dst, j, Slices(src, dst, j))
            else Refines(dst, src, j, Slices(dst, src, j))
  {
    assert src[j].Sane() && dst[j].Sane();
    var a, b := src[j].sharding, dst[j].sharding;
    if a > b { LargerIsMultiple(a, b); } else { LargerIsMultiple(b, a); }
  }

  lemma LargerIsMultiple(a: nat, b: nat)
    requires a > b > 0 && (a % b == 0 || b % a == 0)
    ensures a == b * (a / b) && a / b > 1
  {
    DivModUnique(b, 0, b, a);
    SlicesFit(a, b);
  }

  /**
   Senders and receivers, each computing its own half, agree on the set of transfers in both
   directions; neither side lists a transfer twice.
   */
  lemma PlansAgree(t: Transfer, src: Dims, dst: Dims, j: nat)
    requires DifferAt(src, dst, j) && Divides(src, dst, j) && InOrder(src, dst)
    ensures IsSent(t, src, dst, j) <==> IsExpected(t, src, dst, j)
    ensures t.src < ShardCount(src) ==> NoDuplicates(Sent(t.src, src, dst, j))
    ensures t.dst < ShardCount(dst) ==> NoDuplicates(Received(t.dst, src, dst, j))
  {
    DividesRefines(src, dst, j);
    if src[j].sharding > dst[j].sharding {
      GatherAgreement(t, src, dst, j, Slices(src, dst, j));
      if t.dst < ShardCount(dst) { NoTransferTwice(t.dst, src, dst, j, Slices(src, dst, j)); }
    } else {
      ScatterAgreement(t, src, dst, j, Slices(dst, src, j));
      if t.src < ShardCount(src) { NoTransferTwice(t.src, dst, src, j, Slices(dst, src, j)); }
    }
  }

  /** Otherwise the last fine shards belong to no coarse shard, although they name one. */
  lemma LeftOver(fine: Dims, coarse: Dims, j: nat, r: nat) returns (x: nat)
    requires Fits(fine, coarse, j, r) && InOrder(fine, coarse) && coarse[j].sharding * r < fine[j].sharding
    ensures x < ShardCount(fine)
    ensures !LinkedFromCoarse(x, Parent(x, fine, coarse, j, r), TileBox(Index(x, fine), fine), fine, coarse, j, r)
  {
    var index := seq(|fine|, i requires 0 <= i => if i == j then fine[j].sharding - 1 else 0);
    assert InBox(index, Shardings(fine)) by {
      assert forall i :: 0 <= i < |fine| ==> fine[i].Sane();
    }
    x := Value(index, Shardings(fine));
    ShardRoundTrip(index, fine);
    var y, rect := Parent(x, fine, coarse, j, r), TileBox(Index(x, fine), fine);
    forall k | 0 <= k < r && y < ShardCount(coarse) ensures !LinkedAt(k, x, y, rect, fine, coarse, j, r) {
      ChildParent(y, k, fine, coarse, j, r);
      IndexRoundTrip(y, coarse);
      ChildDigit(Index(y, coarse)[j], k, coarse[j].sharding, r);
    }
  }

  lemma ChildDigit(digit: nat, k: nat, c: nat, r: nat)
    requires digit < c && k < r
    ensures digit * r + k < c * r
  {
    MulMonotone(digit + 1, c, r);
    MulDistributes(digit, 1, r);
  }

  // ----- dims out of order

  /** All but the last digit of an index, as a number. */
  function Top(index: seq<nat>, dims: Dims): nat
    requires |index| == |dims| > 0
  {
    Value(index[..|dims| - 1], Shardings(dims)[..|dims| - 1])
  }

  /** Number x lies in the block of numbers that agree with the index in all but the last digit. */
  predicate InBlock(x: nat, index: seq<nat>, dims: Dims)
    requires |index| == |dims| > 0
  {
    Top(index, dims) * dims[|dims| - 1].sharding <= x < (Top(index, dims) + 1) * dims[|dims| - 1].sharding
  }

  lemma ValueInBlock(index: seq<nat>, dims: Dims)
    requires |dims| > 0 && InBox(index, Shardings(dims))
    ensures InBlock(Value(index, Shardings(dims)), index, dims)
  {
    var n, radices := |dims| - 1, Shardings(dims);
    ValueAppend(index[..n], radices[..n], index[n], radices[n]);
    assert index[..n] + [index[n]] == index && radices[..n] + [radices[n]] == radices;
    MulDistributes(Top(index, dims), 1, radices[n]);
  }

  /** A box tells all digits but perhaps the last. */
  lemma BoxTellsTop(a: seq<nat>, b: seq<nat>, dims: Dims)
    requires SaneDims(dims) && |a| == |b| == |dims| > 0 && TileBox(a, dims) == TileBox(b, dims)
    ensures Top(a, dims) == Top(b, dims)
  {
    ReplicationFacts(dims);
    RealDimsAreReal(dims);
    var grid := RealDims(dims);
    forall k | 0 <= k < |grid| ensures a[k] == b[k] {
      assert grid[k].Sane();
      ExtentTimesSharding(grid[k]);
      assert TileBox(a, dims).lo[k] == TileBox(b, dims).lo[k];
      SameMultiple(grid[k].TileExtent(), a[k], b[k]);
    }
    assert a[..|dims| - 1] == b[..|dims| - 1];
  }

  lemma SameMultiple(d: nat, x: nat, y: nat)
    requires d > 0 && d * x == d * y
    ensures x == y
  {
    QuotientUnique(x, 0, y, 0, d);
  }

  /** A coarse shard that lists the box of fine shard x names a shard in the block of x's index. */
  lemma ListedInBlock(x: nat, y: nat, fine: Dims, coarse: Dims, j: nat, r: nat)
    requires Fits(fine, coarse, j, r)
    requires LinkedFromCoarse(x, y, TileBox(Index(x, fine), fine), fine, coarse, j, r)
    ensures InBlock(x, Index(x, fine), fine)
  {
    var k :| 0 <= k < r && LinkedAt(k, x, y, TileBox(Index(x, fine), fine), fine, coarse, j, r);
    var index := FineIndex(Index(y, coarse), j, r, k);
    TileIndexInBox(y, coarse);
    FineInBox(Index(y, coarse), k, fine, coarse, j, r);
    ValueInBlock(index, fine);
    BoxTellsTop(Index(x, fine), index, fine);
  }

  lemma UnitTop(dims: Dims, i: nat)
    requires i < |dims|
    ensures Top(Unit(|dims|, i), dims) == if i == |dims| - 1 then 0 else Product(Shardings(dims)[i + 1..|dims| - 1])
  {
    var n, radices := |dims| - 1, Shardings(dims)[..|dims| - 1];
    assert Unit(|dims|, i)[..n] == Unit(n, i);
    if i == n {
      ZeroValue(radices);
    } else {
      UnitValue(radices, i);
      assert radices[i + 1..] == Shardings(dims)[i + 1..n];
    }
  }

  lemma UnitTopsDrop(dims: Dims, i: nat, k: nat)
    requires Positive(Shardings(dims)) && i < k < |dims| && dims[k].sharding > 1
    ensures Top(Unit(|dims|, k), dims) < Top(Unit(|dims|, i), dims)
  {
    var n := |dims| - 1;
    var radices := Shardings(dims)[..n];
    UnitTop(dims, i);
    UnitTop(dims, k);
    assert radices[i + 1..] == Shardings(dims)[i + 1..n];
    if k == n {
      ProductPositive(radices[i + 1..]);
    } else {
      WeightDrops(radices, i, k);
      assert radices[k + 1..] == Shardings(dims)[k + 1..n];
    }
  }

  /** Of two divided dims that the permutation swaps, one has a unit index whose shard is outside its block. */
  lemma SwappedOutOfBlock(dims: Dims, i: nat, k: nat) returns (m: nat)
    requires IsPermutation(dims) && Positive(Shardings(dims))
    requires i < k < |dims| && dims[i].sharding > 1 && dims[k].sharding > 1
    requires dims[k].permutation < dims[i].permutation
    ensures m < |dims| && dims[m].sharding > 1 && !InBlock(ShardAt(Unit(|dims|, m), dims), Unit(|dims|, m), dims)
  {
    UnitTopsDrop(dims, i, k);
    UnitWeights(dims, i);
    UnitWeights(dims, k);
    SwappedWeights(dims, i, k);
    var low, high, last := Top(Unit(|dims|, k), dims), Top(Unit(|dims|, i), dims), dims[|dims| - 1].sharding;
    MulMonotone(low + 1, high, last);
    m := if InBlock(ShardAt(Unit(|dims|, i), dims), Unit(|dims|, i), dims) then k else i;
  }

  /** When the divided dims of the finer side are out of order, some fine shard names one that does not list it. */
  lemma Unlisted(fine: Dims, coarse: Dims, j: nat, r: nat) returns (x: nat)
    requires Fits(fine, coarse, j, r) && !KeepsOrder(fine)
    ensures x < ShardCount(fine)
    ensures !LinkedFromCoarse(x, Parent(x, fine, coarse, j, r), TileBox(Index(x, fine), fine), fine, coarse, j, r)
  {
    var i, k :| 0 <= i < k < |fine| && fine[i].sharding > 1 && fine[k].sharding > 1
                && fine[i].permutation >= fine[k].permutation;
    SanePositive(fine);
    assert fine[i].permutation != fine[k].permutation;
    var m := SwappedOutOfBlock(fine, i, k);
    var index := Unit(|fine|, m);
    assert InBox(index, Shardings(fine)) by {
      assert forall q :: 0 <= q < |fine| ==> Shardings(fine)[q] > 0;
    }
    x := ShardAt(index, fine);
    ShardAtInRange(index, fine);
    if LinkedFromCoarse(x, Parent(x, fine, coarse, j, r), TileBox(Index(x, fine), fine), fine, coarse, j, r) {
      ListedInBlock(x, Parent(x, fine, coarse, j, r), fine, coarse, j, r);
    }
  }

  /** The finer side has all divided dims of the coarser one, so it is in order only if that is. */
  lemma FinerDecidesOrder(fine: Dims, coarse: Dims, j: nat)
    requires DifferAt(fine, coarse, j) && fine[j].sharding > coarse[j].sharding && KeepsOrder(fine)
    ensures KeepsOrder(coarse)
  {
    SamePermutation(fine, coarse, j);
    assert coarse[j].Sane();
  }

  /** Two permutations that agree on all dims but one agree on that one too. */
  lemma SamePermutation(fine: Dims, coarse: Dims, j: nat)
    requires IsPermutation(fine) && IsPermutation(coarse) && |fine| == |coarse| && j < |fine|
    requires forall i :: 0 <= i < |fine| && i != j ==> fine[i] == coarse[i]
    ensures fine[j].permutation == coarse[j].permutation
  {
    assert forall i :: 0 <= i < |coarse| && i != j ==> coarse[i].permutation != fine[j].permutation;
    assert coarse[Position(coarse, fine[j].permutation)].permutation == fine[j].permutation;
  }

  // ----- exactly when the halves agree

  lemma NamedButNotListed(src: Dims, dst: Dims, j: nat) returns (t: Transfer)
    requires DifferAt(src, dst, j) && !(Divides(src, dst, j) && InOrder(src, dst))
    ensures IsSent(t, src, dst, j) != IsExpected(t, src, dst, j)
  {
    assert src[j].Sane() && dst[j].Sane();
    if src[j].sharding > dst[j].sharding {
      var r := Slices(src, dst, j);
      var x := Orphan(src, dst, j, r);
      t := GatherSent(x, src, dst, j, r)[0];
      var received := GatherReceived(t.dst, src, dst, j, r);
      assert forall k :: 0 <= k < r ==> (received[k] == t <==> LinkedAt(k, t.src, t.dst, t.rect, src, dst, j, r));
    } else {
      var r := Slices(dst, src, j);
      var x := Orphan(dst, src, j, r);
      t := ScatterReceived(x, src, dst, j, r)[0];
      var sent := ScatterSent(t.src, src, dst, j, r);
      assert forall k :: 0 <= k < r ==> (sent[k] == t <==> LinkedAt(k, t.dst, t.src, t.rect, dst, src, j, r));
    }
  }

  lemma Orphan(fine: Dims, coarse: Dims, j: nat, r: nat) returns (x: nat)
    requires DifferAt(fine, coarse, j) && fine[j].sharding > coarse[j].sharding && r == Slices(fine, coarse, j)
    requires !(Divides(fine, coarse, j) && InOrder(fine, coarse))
    ensures x < ShardCount(fine)
    ensures !LinkedFromCoarse(x, Parent(x, fine, coarse, j, r), TileBox(Index(x, fine), fine), fine, coarse, j, r)
  {
    if KeepsOrder(fine) {
      FinerDecidesOrder(fine, coarse, j);
      assert coarse[j].Sane();
      SlicesFit(fine[j].sharding, coarse[j].sharding);
      x := LeftOver(fine, coarse, j, r);
    } else {
      x := Unlisted(fine, coarse, j, r);
    }
  }

  /**
   The two halves announce the same transfers exactly when one number of shards divides the other and
   the divided dims keep their order.
   */
  lemma PlansAgreeIff(src: Dims, dst: Dims, j: nat)
    requires DifferAt(src, dst, j)
    ensures (forall t :: IsSent(t, src, dst, j) <==> IsExpected(t, src, dst, j)) <==>
            Divides(src, dst, j) && KeepsOrder(src) && KeepsOrder(dst)
  {
    if Divides(src, dst, j) && InOrder(src, dst) {
      forall t ensures IsSent(t, src, dst, j) <==> IsExpected(t, src, dst, j) {
        PlansAgree(t, src, dst, j);
      }
    } else {
      var t := NamedButNotListed(src, dst, j);
    }
  }

  const THREE_TILES := [ShardingDim(12, 3, 0)]
  const TWO_TILES := [ShardingDim(12, 2, 0)]

  /** From three tiles to two: source shard 2 sends to destination shard 2, of two. */
  lemma ThreeToTwo()
    ensures Changes(THREE_TILES, TWO_TILES, 0) && ShardCount(THREE_TILES) == 3 && ShardCount(TWO_TILES) == 2
    ensures |Sent(2, THREE_TILES, TWO_TILES, 0)| == 1 && Sent(2, THREE_TILES, TWO_TILES, 0)[0].dst == 2
  {
    var src, dst := THREE_TILES, TWO_TILES;
    OneDim(src, 2);
    OneDim(dst, 0);
    assert src[0].Sane() && dst[0].Sane();
    assert Slices(src, dst, 0) == 1 && CoarseIndex([2], 0, 1) == [2];
    assert Shardings(dst) == [2] && [2][1..] == [];
  }

  lemma OneDim(dims: Dims, shard: nat)
    requires |dims| == 1 && dims[0].Sane() && dims[0].permutation == 0 && shard < dims[0].sharding
    ensures SaneDims(dims) && IsPermutation(dims) && ShardCount(dims) == dims[0].sharding
    ensures Index(shard, dims) == [shard]
  {
    assert HasPosition(dims, 0);
    PositionOfPermutation(dims, 0);
    var n := dims[0].sharding;
    assert Radices(dims) == Shardings(dims) == [n] && [n][1..] == [];
    assert DigitsAt([shard], dims) == [shard] && [shard][1..] == [];
    ShardAtInRange([shard], dims);
  }

  /** Two dims whose permutation swaps them. */
  function SwappedDims(n: nat): Dims {
    [ShardingDim(12, 2, 1), ShardingDim(12, n, 0)]
  }

  lemma SwappedDimsAreSane(n: nat)
    requires n > 1 && 12 % n == 0
    ensures var dims := SwappedDims(n);
      SaneDims(dims) && IsPermutation(dims) && Shardings(dims) == [2, n] && Radices(dims) == [n, 2]
  {
    var dims := SwappedDims(n);
    assert dims[0].Sane() && dims[1].Sane();
    assert HasPosition(dims, 0) by { assert dims[1].permutation == 0; }
    assert HasPosition(dims, 1) by { assert dims[0].permutation == 1; }
    PositionOfPermutation(dims, 0);
    PositionOfPermutation(dims, 1);
  }

  lemma SwappedIndex(n: nat, shard: nat, index: seq<nat>)
    requires n > 1 && 12 % n == 0 && |index| == 2 && index[0] < 2 && index[1] < n && shard == index[1] * 2 + index[0]
    ensures var dims := SwappedDims(n); SaneDims(dims) && IsPermutation(dims) && Index(shard, dims) == index
  {
    var dims := SwappedDims(n);
    SwappedDimsAreSane(n);
    PositionOfPermutation(dims, 0);
    PositionOfPermutation(dims, 1);
    assert DigitsAt(index, dims) == [index[1], index[0]];
    TwoDigits(index[1], index[0], n, 2);
    ShardAtInRange(index, dims);
  }

  lemma TwoDigits(a: nat, b: nat, m: nat, n: nat)
    ensures Value([a, b], [m, n]) == a * n + b && Product([m, n]) == m * n
  {
    assert [m, n][1..] == [n] && [a, b][1..] == [b] && [n][1..] == [] && [b][1..] == [];
    assert Value([b], [n]) == b && Product([n]) == n;
  }

  /**
   From two times four tiles to two times two: source shard 1 sends its tile to destination shard 2, but
   destination shard 0 expects one from source shard 1.
   */
  lemma SwappedHalvesDisagree()
    ensures var src, dst := SwappedDims(4), SwappedDims(2);
      && DifferAt(src, dst, 1) && Divides(src, dst, 1)
      && |Sent(1, src, dst, 1)| == 1 && Sent(1, src, dst, 1)[0].dst == 2
      && |Received(0, src, dst, 1)| == 2 && Received(0, src, dst, 1)[1].src == 1
  {
    var src, dst := SwappedDims(4), SwappedDims(2);
    SwappedDimsAreSane(4);
    SwappedDimsAreSane(2);
    SwappedIndex(4, 1, [1, 0]);
    SwappedIndex(2, 0, [0, 0]);
    assert Slices(src, dst, 1) == 2;
    assert CoarseIndex([1, 0], 1, 2) == [1, 0] && FineIndex([0, 0], 1, 2, 1) == [0, 1];
    TwoDigits(1, 0, 2, 2);
    TwoDigits(0, 1, 2, 4);
  }

  // ----- the configuration methods

  method GetScatterGatherConfig(dim: nat, srcShard: Option<nat>, dstShard: Option<nat>, src: Sharding, dst: Sharding)
    returns (config: ScatterGatherConfig)
    requires WellFormed(src) && WellFormed(dst) && Changes(src.dims, dst.dims, dim)
    requires BoxRankMatches(Finer(src, dst, dim))
    requires srcShard.Some? ==> srcShard.value < src.devices.size
    requires dstShard.Some? ==> dstShard.value < dst.devices.size
    ensures config.fromSource == if srcShard.None? then [] else Sent(srcShard.value, src.dims, dst.dims, dim)
    ensures config.toTarget == if dstShard.None? then [] else Received(dstShard.value, src.dims, dst.dims, dim)
  {
    var fromSource, toTarget: seq<Transfer> := [], [];
    if src.dims[dim].sharding > dst.dims[dim].sharding {
      assert dst.dims[dim].Sane();
      var slices := src.dims[dim].sharding / dst.dims[dim].sharding;
      assert slices == Slices(src.dims, dst.dims, dim);
      if srcShard.Some? {
        var t := FineSlice(srcShard.value, src, dst.dims, dim, slices);
        fromSource := [Transfer(srcShard.value, t.0, t.1)];
      }
      if dstShard.Some? {
        var pieces := CoarseSlices(dstShard.value, dst.dims, src, dim, slices);
        toTarget := seq(slices, k requires 0 <= k < slices => Transfer(pieces[k].0, dstShard.value, pieces[k].1));
      }
    } else {
      assert src.dims[dim].Sane();
      var slices := dst.dims[dim].sharding / src.dims[dim].sharding;
      assert slices == Slices(dst.dims, src.dims, dim);
      if dstShard.Some? {
        var t := FineSlice(dstShard.value, dst, src.dims, dim, slices);
        toTarget := [Transfer(t.0, dstShard.value, t.1)];
      }
      if srcShard.Some? {
        var pieces := CoarseSlices(srcShard.value, src.dims, dst, dim, slices);
        fromSource := seq(slices, k requires 0 <= k < slices => Transfer(srcShard.value, pieces[k].0, pieces[k].1));
      }
    }
    config := ScatterGatherConfig(fromSource, toTarget);
  }

  /** Fine side: the whole own tile, and the coarse shard it belongs to. */
  method FineSlice(x: nat, fine: Sharding, coarse: Dims, dim: nat, slices: nat) returns (slice: (nat, Rect))
    requires WellFormed(fine) && Comparable(fine.dims, coarse, dim) && slices > 0 && BoxRankMatches(fine)
    ensures slice == (Parent(x, fine.dims, coarse, dim, slices), TileBox(Index(x, fine.dims), fine.dims))
  {
    SanePositive(fine.dims);
    var index := ComputeTileIndex(x, fine.dims);
    var bounds := MakeTileBox(index, fine);
    index := index[dim := index[dim] / slices];
    var partner := ComputeTileShard(index, coarse);
    slice := (partner, bounds);
  }

  ghost function Piece(y: nat, k: nat, fine: Dims, coarse: Dims, j: nat, r: nat): (nat, Rect)
    requires Comparable(fine, coarse, j) && r > 0
  {
    (Child(y, k, fine, coarse, j, r), TileBox(FineIndex(Index(y, coarse), j, r, k), fine))
  }

  /** Coarse side: one piece for each fine shard below it. */
  method CoarseSlices(y: nat, coarse: Dims, fine: Sharding, dim: nat, slices: nat) returns (pieces: seq<(nat, Rect)>)
    requires WellFormed(fine) && Comparable(fine.dims, coarse, dim) && slices > 0 && BoxRankMatches(fine)
    ensures |pieces| == slices
    ensures forall k :: 0 <= k < slices ==> pieces[k] == Piece(y, k, fine.dims, coarse, dim, slices)
  {
    SanePositive(coarse);
    var index := ComputeTileIndex(y, coarse);
    ghost var original := index;
    var start := index[dim] * slices;
    pieces := [];
    for slice := 0 to slices
      invariant |pieces| == slice
      invariant |index| == |coarse| && index == original[dim := index[dim]]
      invariant forall k :: 0 <= k < slice ==> pieces[k] == Piece(y, k, fine.dims, coarse, dim, slices)
    {
      index := index[dim := start + slice];
      assert index == FineIndex(original, dim, slices, slice);
      var bounds := MakeTileBox(index, fine);
      var partner := ComputeTileShard(index, fine.dims);
      pieces := pieces + [(partner, bounds)];
    }
  }

  /** Each shard lists transfers of its own only. */
  lemma ListsOwn(shard: nat, src: Dims, dst: Dims, j: nat)
    requires Changes(src, dst, j)
    ensures forall t :: t in Sent(shard, src, dst, j) ==> t.src == shard
    ensures forall t :: t in Received(shard, src, dst, j) ==> t.dst == shard
  {
  }

  /** A device configures itself for the shards that it holds. */
  method ConfigureDevice(device: int, dim: nat, src: Sharding, dst: Sharding) returns (config: ScatterGatherConfig)
    requires WellFormed(src) && WellFormed(dst) && Changes(src.dims, dst.dims, dim)
    requires BoxRankMatches(Finer(src, dst, dim))
    ensures forall t :: t in config.fromSource <==>
              src.devices.Places(device, t.src) && IsSent(t, src.dims, dst.dims, dim)
    ensures forall t :: t in config.toTarget <==>
              dst.devices.Places(device, t.dst) && IsExpected(t, src.dims, dst.dims, dim)
  {
    var srcShard, dstShard := src.devices.ShardId(device), dst.devices.ShardId(device);
    config := GetScatterGatherConfig(dim, srcShard, dstShard, src, dst);
    if srcShard.Some? { ListsOwn(srcShard.value, src.dims, dst.dims, dim); }
    if dstShard.Some? { ListsOwn(dstShard.value, src.dims, dst.dims, dim); }
  }

  // ----- delivery

  /** Only the real dims of a coarse and a fine sharding of the same array matter for the tiles. */
  lemma SameTileWhenReplicaChanges(x: nat, fine: Dims, coarse: Dims, j: nat, r: nat)
    requires RefinesTiles(fine, coarse, j, r) && fine[j].size == 1 && x < ShardCount(fine)
    requires ArrayShape(fine) == ArrayShape(coarse) && RealDims(fine) != []
    ensures Parent(x, fine, coarse, j, r) < ShardCount(coarse)
    ensures TileRect(x, fine) == TileRect(Parent(x, fine, coarse, j, r), coarse)
  {
    ParentChild(x, fine, coarse, j, r);
    assert fine[j].Sane() && coarse[j].Sane() && fine[j].IsReplica();
    assert j == |fine| - 1;
    var y := Parent(x, fine, coarse, j, r);
    RealDimsWhenReplicaLast(Index(x, fine), fine);
    RealDimsWhenReplicaLast(Index(y, coarse), coarse);
    assert |RealDims(coarse)| == |ArrayShape(coarse)| == |ArrayShape(fine)| == |RealDims(fine)|;
    assert RealDims(coarse) == RealDims(fine);
  }

  lemma InsideParent(x: nat, p: Point, fine: Dims, coarse: Dims, j: nat, r: nat)
    requires RefinesTiles(fine, coarse, j, r) && x < ShardCount(fine) && InRect(TileRect(x, fine), p)
    requires ArrayShape(fine) == ArrayShape(coarse) && RealDims(fine) != []
    ensures Parent(x, fine, coarse, j, r) < ShardCount(coarse)
    ensures InRect(TileRect(Parent(x, fine, coarse, j, r), coarse), p)
  {
    assert fine[j].Sane();
    if fine[j].size > 1 {
      ChildHolds(x, p, fine, coarse, j, r);
    } else {
      SameTileWhenReplicaChanges(x, fine, coarse, j, r);
    }
  }

  lemma SomeChildHolds(y: nat, p: Point, fine: Dims, coarse: Dims, j: nat, r: nat) returns (x: nat)
    requires RefinesTiles(fine, coarse, j, r) && y < ShardCount(coarse) && InRect(TileRect(y, coarse), p)
    requires ArrayShape(fine) == ArrayShape(coarse) && RealDims(fine) != []
    ensures x < ShardCount(fine) && Parent(x, fine, coarse, j, r) == y && InRect(TileRect(x, fine), p)
  {
    assert fine[j].Sane();
    var k := 0;
    if fine[j].size > 1 {
      ChildrenPartitionTile(y, p, fine, coarse, j, r);
      k :| 0 <= k < r && InRect(TileRect(Child(y, k, fine, coarse, j, r), fine), p);
    }
    x := Child(y, k, fine, coarse, j, r);
    ChildParent(y, k, fine, coarse, j, r);
    if fine[j].size == 1 {
      SameTileWhenReplicaChanges(x, fine, coarse, j, r);
    }
  }

  ghost function SlicePlan(src: Sharding, dst: Sharding, j: nat): iset<Transfer>
    requires WellFormed(src) && WellFormed(dst) && Changes(src.dims, dst.dims, j)
  {
    iset t: Transfer | IsSent(t, src.dims, dst.dims, j)
  }

  /** What a fine shard and its parent exchange lies inside both tiles. */
  lemma ExchangeInside(x: nat, p: Point, fine: Sharding, coarse: Sharding, j: nat, r: nat)
    requires WellFormed(fine) && WellFormed(coarse) && RefinesTiles(fine.dims, coarse.dims, j, r)
    requires ArrayShape(fine.dims) == ArrayShape(coarse.dims) && RealDims(fine.dims) != []
    requires x < fine.devices.size && InRect(TileBox(Index(x, fine.dims), fine.dims), p)
    ensures Parent(x, fine.dims, coarse.dims, j, r) < coarse.devices.size
    ensures InRect(TileRect(x, fine.dims), p)
    ensures InRect(TileRect(Parent(x, fine.dims, coarse.dims, j, r), coarse.dims), p)
  {
    BoxIsTile(x, fine.dims);
    InsideParent(x, p, fine.dims, coarse.dims, j, r);
  }

  lemma ParentInRange(x: nat, fine: Sharding, coarse: Sharding, j: nat, r: nat)
    requires WellFormed(fine) && WellFormed(coarse) && RefinesTiles(fine.dims, coarse.dims, j, r)
    requires x < fine.devices.size
    ensures Parent(x, fine.dims, coarse.dims, j, r) < coarse.devices.size
  {
    ParentChild(x, fine.dims, coarse.dims, j, r);
  }

  lemma GatherDelivers(src: Sharding, dst: Sharding, j: nat, r: nat)
    requires WellFormed(src) && WellFormed(dst) && RefinesTiles(src.dims, dst.dims, j, r)
    requires Changes(src.dims, dst.dims, j) && src.dims[j].sharding > dst.dims[j].sharding
    requires r == Slices(src.dims, dst.dims, j)
    requires ArrayShape(src.dims) == ArrayShape(dst.dims) && RealDims(src.dims) != []
    ensures Delivers(SlicePlan(src, dst, j), src, dst)
  {
    var plan := SlicePlan(src, dst, j);
    forall t | t in plan ensures InsideTiles(t, src, dst) {
      assert t == GatherSent(t.src, src.dims, dst.dims, j, r)[0];
      ParentInRange(t.src, src, dst, j, r);
      forall p: Point | InRect(t.rect, p)
        ensures InRect(TileRect(t.src, src.dims), p) && InRect(TileRect(t.dst, dst.dims), p)
      {
        ExchangeInside(t.src, p, src, dst, j, r);
      }
    }
    forall d: nat, p: Point | d < dst.devices.size && InRect(TileRect(d, dst.dims), p)
      ensures exists t :: t in plan && t.dst == d && InRect(t.rect, p)
    {
      var x := SomeChildHolds(d, p, src.dims, dst.dims, j, r);
      BoxIsTile(x, src.dims);
      assert GatherSent(x, src.dims, dst.dims, j, r)[0] in plan;
    }
  }

  lemma ScatterDelivers(src: Sharding, dst: Sharding, j: nat, r: nat)
    requires WellFormed(src) && WellFormed(dst) && RefinesTiles(dst.dims, src.dims, j, r)
    requires Changes(src.dims, dst.dims, j) && src.dims[j].sharding < dst.dims[j].sharding
    requires r == Slices(dst.dims, src.dims, j)
    requires ArrayShape(src.dims) == ArrayShape(dst.dims) && RealDims(dst.dims) != []
    ensures Delivers(SlicePlan(src, dst, j), src, dst)
  {
    var plan := SlicePlan(src, dst, j);
    forall t | t in plan ensures InsideTiles(t, src, dst) {
      ScatterAgreement(t, src.dims, dst.dims, j, r);
      forall p: Point | InRect(t.rect, p)
        ensures InRect(TileRect(t.src, src.dims), p) && InRect(TileRect(t.dst, dst.dims), p)
      {
        ExchangeInside(t.dst, p, dst, src, j, r);
      }
    }
    forall d: nat | d < dst.devices.size ensures Covers(plan, d, dst) {
      var t := ScatterReceived(d, src.dims, dst.dims, j, r)[0];
      ScatterAgreement(t, src.dims, dst.dims, j, r);
      BoxIsTile(d, dst.dims);
      assert t in plan && t.rect == TileRect(d, dst.dims);
    }
  }

  /** A scatter-gather plan fills every destination tile, whichever side is finer. */
  lemma ScatterGatherDelivers(src: Sharding, dst: Sharding, j: nat)
    requires WellFormed(src) && WellFormed(dst) && Compatible(src.dims, dst.dims, j)
    requires ArrayShape(src.dims) == ArrayShape(dst.dims) && RealDims(Finer(src, dst, j).dims) != []
    ensures Delivers(SlicePlan(src, dst, j), src, dst)
  {
    DividesRefines(src.dims, dst.dims, j);
    if src.dims[j].sharding > dst.dims[j].sharding {
      GatherDelivers(src, dst, j, Slices(src.dims, dst.dims, j));
    } else {
      ScatterDelivers(src, dst, j, Slices(dst.dims, src.dims, j));
    }
  }
}
