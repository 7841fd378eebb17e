/** What a set of copies does to the destination array, in whatever order the copies run. */
module Delivery {
  import opened Shape
  import opened TiledArray

  /** One copy: the elements of rect go from a source shard to a destination shard. */
  datatype Transfer = Transfer(src: nat, dst: nat, rect: Rect)

  /** Contents of all tiles of a sharded array: shard, then element. */
  type Memory<!V> = (nat, Point) -> V

  function Copy<V>(t: Transfer, source: Memory<V>, target: Memory<V>): Memory<V> {
    (shard: nat, p: Point) => if shard == t.dst && InRect(t.rect, p) then source(t.src, p) else target(shard, p)
  }

  function RunCopies<V>(log: seq<Transfer>, source: Memory<V>, target: Memory<V>): Memory<V> {
    if log == [] then target
    else Copy(log[|log| - 1], source, RunCopies(log[..|log| - 1], source, target))
  }

  /** Each source tile holds the part of the global array that the sharding assigns to it. */
  ghost predicate Holds<V>(memory: Memory<V>, whole: Point -> V, s: Sharding)
    requires WellFormed(s)
  {
    forall shard: nat, p: Point :: shard < s.devices.size && InRect(TileRect(shard, s.dims), p) ==>
      memory(shard, p) == whole(p)
  }

  /** A copy reads inside its source tile and writes inside its destination tile. */
  ghost predicate InsideTiles(t: Transfer, src: Sharding, dst: Sharding)
    requires WellFormed(src) && WellFormed(dst)
  {
    && t.src < src.devices.size && t.dst < dst.devices.size
    && forall p: Point :: InRect(t.rect, p) ==>
         InRect(TileRect(t.src, src.dims), p) && InRect(TileRect(t.dst, dst.dims), p)
  }

  /** Every element of destination tile d is written by some copy of the plan. */
  ghost predicate Covers(plan: iset<Transfer>, d: nat, dst: Sharding)
    requires WellFormed(dst)
  {
    forall p: Point :: InRect(TileRect(d, dst.dims), p) ==> exists t :: t in plan && t.dst == d && InRect(t.rect, p)
  }

  /** A plan that fills every destination tile with data the senders have. */
  ghost predicate Delivers(plan: iset<Transfer>, src: Sharding, dst: Sharding)
    requires WellFormed(src) && WellFormed(dst)
  {
    && (forall t :: t in plan ==> InsideTiles(t, src, dst))
    && (forall d: nat :: d < dst.devices.size ==> Covers(plan, d, dst))
  }

  /** What one element of the destination holds after any sequence of copies of a sound plan. */
  lemma {:induction false} ElementAfter<V>(log: seq<Transfer>, source: Memory<V>, target: Memory<V>,
                                           whole: Point -> V, src: Sharding, dst: Sharding, d: nat, p: Point)
    requires WellFormed(src) && WellFormed(dst) && Holds(source, whole, src)
    requires forall t :: t in log ==> InsideTiles(t, src, dst)
    ensures RunCopies(log, source, target)(d, p) ==
            if exists t :: t in log && t.dst == d && InRect(t.rect, p) then whole(p) else target(d, p)
  {
    if log != [] {
      var rest, last := log[..|log| - 1], log[|log| - 1];
      assert log == rest + [last];
      ElementAfter(rest, source, target, whole, src, dst, d, p);
      if last.dst == d && InRect(last.rect, p) {
        assert last in log && InsideTiles(last, src, dst);
      } else if t :| t in log && t.dst == d && InRect(t.rect, p) {
        assert t in rest;
      }
    }
  }

  /**
   Running copies of a plan, in any order, once the copies into tile d have all run: tile d holds
   the global array on its bounds, and no element outside the destination tiles has changed.
   */
  lemma DeliveredTile<V>(plan: iset<Transfer>, log: seq<Transfer>, source: Memory<V>, target: Memory<V>,
                         whole: Point -> V, src: Sharding, dst: Sharding, d: nat)
    requires WellFormed(src) && WellFormed(dst) && Holds(source, whole, src)
    requires Delivers(plan, src, dst) && d < dst.devices.size
    requires forall t :: t in log ==> t in plan
    requires forall t :: t in plan && t.dst == d ==> t in log
    ensures forall p: Point :: InRect(TileRect(d, dst.dims), p) ==>
              RunCopies(log, source, target)(d, p) == whole(p)
    ensures forall p: Point :: !InRect(TileRect(d, dst.dims), p) ==>
              RunCopies(log, source, target)(d, p) == target(d, p)
  {
    forall p: Point
      ensures InRect(TileRect(d, dst.dims), p) ==> RunCopies(log, source, target)(d, p) == whole(p)
      ensures !InRect(TileRect(d, dst.dims), p) ==> RunCopies(log, source, target)(d, p) == target(d, p)
    {
      ElementAfter(log, source, target, whole, src, dst, d, p);
      assert Covers(plan, d, dst);
    }
  }
}
