/**
 Plans and protocol together, round after round: when the events that a destination waits for in a
 round have fired, its tile holds that round's data.
 */
module EndToEnd {
  import opened Shape
  import opened TiledArray
  import opened Delivery
  import opened Dispatch
  import opened Halves
  import opened Realm
  import opened Stores
  import opened StoreUses
  import opened Exchanges
  import opened History

  /** Source and destination shard of a reshard key. */
  datatype Key = Key(src: nat, dst: nat)

  /** Who takes part: the two shardings, the strategy they lead to, the instance of each tile, and the stores. */
  datatype Reshard = Reshard(strategy: Strategy, src: Sharding, dst: Sharding, from: nat -> nat, to: nat -> nat,
                             upkeep: Upkeep<Key>)

  ghost predicate Admissible(r: Reshard) {
    && WellFormed(r.src) && WellFormed(r.dst) && ArrayShape(r.src.dims) == ArrayShape(r.dst.dims)
    && Chooses(r.strategy, r.src, r.dst) && Permitted(r.strategy, r.src, r.dst)
    && forall c, d :: 0 <= c < d < r.dst.devices.size ==> r.to(c) != r.to(d)
  }

  /** Each side calls with what its own configuration says, as often as it likes. */
  ghost predicate FollowsPlan(e: Exchange, key: Key, r: Reshard)
    requires Admissible(r)
  {
    && (forall k :: 0 <= k < |e.Sends()| ==>
          Announced(r.strategy, Transfer(key.src, key.dst, e.Sends()[k].shape), r.src, r.dst)
          && e.Sends()[k].inst == r.from(key.src))
    && (forall k :: 0 <= k < |e.Recvs()| ==>
          Expected(r.strategy, Transfer(key.src, key.dst, e.Recvs()[k].shape), r.src, r.dst)
          && e.Recvs()[k].inst == r.to(key.dst))
  }

  ghost predicate AllFollow(history: Moves<Key>, remote: Key -> bool, r: Reshard)
    requires Admissible(r)
  {
    forall key: Key :: FollowsPlan(At(history, remote, key), key, r)
  }

  /** Destination d has been released from round k: the event of every receive it expects has fired. */
  ghost predicate RoundReleased(history: Moves<Key>, remote: Key -> bool, r: Reshard, d: nat, k: nat)
    requires Admissible(r)
  {
    forall t: Transfer :: Expected(r.strategy, t, r.src, r.dst) && t.dst == d ==>
      Released(At(history, remote, Key(t.src, t.dst)), k)
  }

  // ----- the destination stores

  /** Destination shard d expects something from source shard s. */
  ghost predicate Wanted(s: nat, d: nat, r: Reshard)
    requires Admissible(r)
  {
    exists rect: Rect :: Expected(r.strategy, Transfer(s, d, rect), r.src, r.dst)
  }

  /** The events of all receives of destination d in round k, merged. */
  ghost function RoundEvent(r: Reshard, d: nat, k: nat): Event
    requires Admissible(r)
  {
    set s: nat | s < r.src.devices.size && Wanted(s, d, r) :: External(r.upkeep.name(Key(s, d), k))
  }

  /** The store of destination d when round k begins: every round makes it ready after the round's receives. */
  ghost function StoreAt(r: Reshard, d: nat, k: nat): StoreState
    requires Admissible(r)
    decreases k
  {
    if k == 0 then r.upkeep.first(d)
    else AfterUses(ReadyAfter(StoreAt(r, d, k - 1), RoundEvent(r, d, k - 1)), r.upkeep.uses(d, k - 1))
  }

  /** Every receive waits for what the store of its destination waits for. */
  ghost predicate WaitsForStore(e: Exchange, key: Key, r: Reshard)
    requires Admissible(r)
  {
    forall k :: 0 <= k < |e.Recvs()| ==> e.Recvs()[k].pre == Events(StorePrecondition(StoreAt(r, key.dst, k)))
  }

  /** A precondition that has fired is over for everybody; the event of a receive is over once it has fired. */
  ghost predicate EventsShared(e: Exchange, key: Key, r: Reshard, past: Past) {
    && (forall k :: 0 <= k < |e.Recvs()| && e.Recvs()[k].pre <= e.Fired() ==> Over(e.Recvs()[k].pre, past))
    && (forall i: nat :: External(r.upkeep.name(key, i)) in past ==> Released(e, i))
  }

  /** The uses before a receive that has been made are those of the earlier rounds. */
  ghost predicate UsesBefore(e: Exchange, key: Key, r: Reshard, past: Past)
    requires Admissible(r)
  {
    forall k: nat :: k + 1 < |e.Recvs()| ==>
      UsesHappen(ReadyAfter(StoreAt(r, key.dst, k), RoundEvent(r, key.dst, k)), r.upkeep.uses(key.dst, k), past)
  }

  /** Calls take their preconditions from the stores, and events mean the same under every key and in every task. */
  ghost predicate StoresFollow(history: Moves<Key>, remote: Key -> bool, r: Reshard, past: nat -> Past)
    requires Admissible(r)
  {
    forall n: nat, key: Key :: n <= |history| ==>
      && WaitsForStore(At(history[..n], remote, key), key, r)
      && EventsShared(At(history[..n], remote, key), key, r, past(n))
      && UsesBefore(At(history[..n], remote, key), key, r, past(n))
  }

  /** A run in which both sides keep to their configurations and their stores; past(n) is over after n moves. */
  ghost predicate Proper(history: Moves<Key>, remote: Key -> bool, r: Reshard, past: nat -> Past) {
    Admissible(r) && AllFollow(history, remote, r) && StoresFollow(history, remote, r, past)
  }

  /** The source tiles hold this array in this round. */
  ghost predicate Provides<V>(source: Contents<V>, whole: Point -> V, r: Reshard)
    requires Admissible(r)
  {
    forall shard: nat, p: Point :: shard < r.src.devices.size && InRect(TileRect(shard, r.src.dims), p) ==>
      source(r.from(shard), p) == whole(p)
  }

  // ----- every finished copy is one of the plan

  lemma {:induction false} CallsFollow(e: Exchange, key: Key, r: Reshard, k: nat)
    requires Admissible(r) && FollowsPlan(e, key, r) && k < |e.Sends()| && k < |e.Recvs()|
    ensures SameBounds(e, e.Recvs()[k].shape)
  {
    var u := Transfer(key.src, key.dst, e.Recvs()[k].shape);
    HalvesAgree(r.strategy, u, r.src, r.dst);
    forall i | 0 <= i < |e.Sends()| ensures e.Sends()[i].shape == u.rect {
      OneRectPerKey(r.strategy, Transfer(key.src, key.dst, e.Sends()[i].shape), u, r.src, r.dst);
    }
    forall i | 0 <= i < |e.Recvs()| ensures e.Recvs()[i].shape == u.rect {
      var t := Transfer(key.src, key.dst, e.Recvs()[i].shape);
      HalvesAgree(r.strategy, t, r.src, r.dst);
      OneRectPerKey(r.strategy, t, u, r.src, r.dst);
    }
  }

  lemma {:induction false} CopyFollows(e: Exchange, key: Key, r: Reshard, k: nat)
    requires Admissible(r) && FollowsPlan(e, key, r) && k < |e.Copies()|
    ensures Expected(r.strategy, Transfer(key.src, key.dst, e.Copies()[k].shape), r.src, r.dst)
    ensures e.Copies()[k].src == Inst(r.from(key.src)) && e.Copies()[k].dst == Inst(r.to(key.dst))
  {
    CopyOfRound(e, k);
    CallsFollow(e, key, r, k);
  }

  lemma {:induction false} FollowsEarlier(history: Moves<Key>, remote: Key -> bool, r: Reshard, key: Key, n: nat)
    requires Admissible(r) && AllFollow(history, remote, r) && n <= |history|
    ensures FollowsPlan(At(history[..n], remote, key), key, r)
  {
    AtKeeps(history, remote, key, n);
    assert FollowsPlan(At(history, remote, key), key, r);
  }

  function TransferOf(entry: Done<Key>): Transfer {
    Transfer(entry.key.src, entry.key.dst, entry.op.shape)
  }

  /** The entry is a copy that both sides planned, between their instances. */
  ghost predicate Planned(entry: Done<Key>, r: Reshard)
    requires WellFormed(r.src) && WellFormed(r.dst)
  {
    && Expected(r.strategy, TransferOf(entry), r.src, r.dst)
    && entry.op.src == Inst(r.from(entry.key.src)) && entry.op.dst == Inst(r.to(entry.key.dst))
  }

  lemma {:induction false} EntryFollows(history: Moves<Key>, remote: Key -> bool, r: Reshard, j: nat)
    requires Admissible(r) && AllFollow(history, remote, r) && j < |Log(history, remote)|
    ensures Planned(Log(history, remote)[j], r)
  {
    var entry := Log(history, remote)[j];
    var n := EntryMade(history, remote, j);
    FollowsEarlier(history, remote, r, entry.key, n);
    CopyFollows(At(history[..n], remote, entry.key), entry.key, r, entry.round);
  }

  // ----- the rounds of one destination do not mix

  lemma {:induction false} ExpectedSource(t: Transfer, r: Reshard)
    requires Admissible(r) && Expected(r.strategy, t, r.src, r.dst)
    ensures t.src < r.src.devices.size && t.dst < r.dst.devices.size && Wanted(t.src, t.dst, r)
  {
    ChosenPlanDelivers(r.strategy, r.src, r.dst);
    assert t in PlanOf(r.strategy, r.src, r.dst);
    assert Transfer(t.src, t.dst, t.rect) == t;
  }

  /** When the events of a round are over, the destination has been released from that round. */
  lemma {:induction false} RoundOver(history: Moves<Key>, remote: Key -> bool, r: Reshard, past: nat -> Past,
                                     n: nat, d: nat, k: nat)
    requires Proper(history, remote, r, past) && n <= |history| && Over(RoundEvent(r, d, k), past(n))
    ensures RoundReleased(history[..n], remote, r, d, k)
  {
    forall t: Transfer | Expected(r.strategy, t, r.src, r.dst) && t.dst == d
      ensures Released(At(history[..n], remote, Key(t.src, t.dst)), k)
    {
      ExpectedSource(t, r);
      assert External(r.upkeep.name(Key(t.src, d), k)) in RoundEvent(r, d, k);
      assert EventsShared(At(history[..n], remote, Key(t.src, d)), Key(t.src, d), r, past(n));
    }
  }

  /** When all that a store waits for is over, so are the events of the round before. */
  lemma {:induction false} StoreOver(r: Reshard, d: nat, k: nat, past: Past)
    requires Admissible(r) && Over(Events(StorePrecondition(StoreAt(r, d, k + 1))), past)
    requires UsesHappen(ReadyAfter(StoreAt(r, d, k), RoundEvent(r, d, k)), r.upkeep.uses(d, k), past)
    ensures Over(RoundEvent(r, d, k), past)
  {
    EarlierOver(ReadyAfter(StoreAt(r, d, k), RoundEvent(r, d, k)), r.upkeep.uses(d, k), past);
  }

  /** The precondition of receive k has fired. */
  predicate MayStart(e: Exchange, k: nat) {
    k < |e.Recvs()| && e.Recvs()[k].pre <= e.Fired()
  }

  /** When the precondition of receive k has fired, the destination has been released from the round before. */
  lemma {:induction false} RoundBefore(history: Moves<Key>, remote: Key -> bool, r: Reshard, past: nat -> Past,
                                       n: nat, key: Key, k: nat)
    requires Proper(history, remote, r, past) && n <= |history|
    requires MayStart(At(history[..n], remote, key), k + 1)
    ensures RoundReleased(history[..n], remote, r, key.dst, k)
  {
    var e := At(history[..n], remote, key);
    assert WaitsForStore(e, key, r) && EventsShared(e, key, r, past(n)) && UsesBefore(e, key, r, past(n));
    StoreOver(r, key.dst, k, past(n));
    RoundOver(history, remote, r, past, n, key.dst, k);
  }

  lemma {:induction false} RecvExpected(history: Moves<Key>, remote: Key -> bool, r: Reshard, n: nat, key: Key, k: nat)
    requires Admissible(r) && AllFollow(history, remote, r) && n <= |history|
    requires k < |At(history[..n], remote, key).Recvs()|
    ensures exists t: Transfer :: t.src == key.src && t.dst == key.dst && Expected(r.strategy, t, r.src, r.dst)
  {
    FollowsEarlier(history, remote, r, key, n);
    var t := Transfer(key.src, key.dst, At(history[..n], remote, key).Recvs()[k].shape);
    assert Expected(r.strategy, t, r.src, r.dst);
  }

  /** The precondition of receive k has fired, too. */
  lemma {:induction false} EarlierRecvFired(history: Moves<Key>, remote: Key -> bool, r: Reshard, n: nat,
                                            key: Key, k: nat)
    requires Admissible(r) && AllFollow(history, remote, r) && n <= |history|
    requires k < |At(history[..n], remote, key).Recvs()| && RoundReleased(history[..n], remote, r, key.dst, k)
    ensures MayStart(At(history[..n], remote, key), k)
  {
    RecvExpected(history, remote, r, n, key, k);
    var t: Transfer :| t.src == key.src && t.dst == key.dst && Expected(r.strategy, t, r.src, r.dst);
    assert Key(t.src, t.dst) == key;
    ReleasedMeansFinished(At(history[..n], remote, key), k);
  }

  /** A receive of round k + 1 that may start tells that its round k is over. */
  ghost predicate TellsOfRound(history: Moves<Key>, remote: Key -> bool, r: Reshard, key: Key, k: nat)
    requires Admissible(r)
  {
    MayStart(At(history, remote, key), k + 1) ==>
      RoundReleased(history, remote, r, key.dst, k) && MayStart(At(history, remote, key), k)
  }

  lemma {:induction false} OneRoundBack(history: Moves<Key>, remote: Key -> bool, r: Reshard, past: nat -> Past,
                                        n: nat, key: Key, k: nat)
    requires Proper(history, remote, r, past) && n <= |history|
    ensures TellsOfRound(history[..n], remote, r, key, k)
  {
    if MayStart(At(history[..n], remote, key), k + 1) {
      RoundBefore(history, remote, r, past, n, key, k);
      EarlierRecvFired(history, remote, r, n, key, k);
    }
  }

  lemma {:induction false} AllRoundsBack(history: Moves<Key>, remote: Key -> bool, r: Reshard, key: Key, k: nat, i: nat)
    requires Admissible(r) && i < k && MayStart(At(history, remote, key), k)
    requires forall j: nat :: TellsOfRound(history, remote, r, key, j)
    ensures RoundReleased(history, remote, r, key.dst, i)
  {
    var j := k;
    while j > i
      invariant i <= j <= k && MayStart(At(history, remote, key), j)
      invariant j < k ==> RoundReleased(history, remote, r, key.dst, j)
    {
      j := j - 1;
      assert TellsOfRound(history, remote, r, key, j);
    }
  }

  /** The precondition of receive k tells that the destination has been released from all rounds before. */
  lemma {:induction false} RoundsBefore(history: Moves<Key>, remote: Key -> bool, r: Reshard, past: nat -> Past,
                                        n: nat, key: Key, k: nat, i: nat)
    requires Proper(history, remote, r, past) && n <= |history| && i < k
    requires MayStart(At(history[..n], remote, key), k)
    ensures RoundReleased(history[..n], remote, r, key.dst, i)
  {
    forall j: nat ensures TellsOfRound(history[..n], remote, r, key, j) {
      OneRoundBack(history, remote, r, past, n, key, j);
    }
    AllRoundsBack(history[..n], remote, r, key, k, i);
  }

  /** Before a copy of a later round into a destination, all copies of earlier rounds into it have finished. */
  lemma {:induction false} EarlierRoundsFirst(history: Moves<Key>, remote: Key -> bool, r: Reshard,
                                              past: nat -> Past, j: nat, t: Transfer, k: nat)
    requires Proper(history, remote, r, past)
    requires j < |Log(history, remote)| && k < Log(history, remote)[j].round
    requires Expected(r.strategy, t, r.src, r.dst) && t.dst == Log(history, remote)[j].key.dst
    ensures Logged(Log(history, remote)[..j], Key(t.src, t.dst), k)
  {
    var entry := Log(history, remote)[j];
    var n := EntryMade(history, remote, j);
    StartsAfterBoth(At(history[..n], remote, entry.key), entry.round);
    RoundsBefore(history, remote, r, past, n, entry.key, entry.round, k);
    ReleasedMeansFinished(At(history[..n], remote, Key(t.src, t.dst)), k);
    LoggedIff(history[..n], remote, Key(t.src, t.dst), k);
  }

  /** Once a copy of round k into d has finished, no copy of an earlier round into d finishes. */
  lemma {:induction false} NoEarlierRoundAfter(history: Moves<Key>, remote: Key -> bool, r: Reshard,
                                               past: nat -> Past, i: nat, j: nat)
    requires Proper(history, remote, r, past)
    requires i < j < |Log(history, remote)|
    requires Log(history, remote)[i].key.dst == Log(history, remote)[j].key.dst
    ensures Log(history, remote)[i].round <= Log(history, remote)[j].round
  {
    var log := Log(history, remote);
    if log[j].round < log[i].round {
      EntryFollows(history, remote, r, j);
      EarlierRoundsFirst(history, remote, r, past, i, TransferOf(log[j]), log[j].round);
      var m :| 0 <= m < |log[..i]| && log[..i][m].key == log[j].key && log[..i][m].round == log[j].round;
      LoggedOnce(history, remote, m, j);
    }
  }

  // ----- the tile holds the round's data

  /** All copies read source tiles, which tasks refill between the rounds. */
  function Refilled(): Key -> bool {
    (key: Key) => true
  }

  /** A copy of round k that writes element p of tile d, when d has been released from round k. */
  lemma {:induction false} RoundWrites(history: Moves<Key>, remote: Key -> bool, r: Reshard, d: nat, k: nat, p: Point)
    returns (i: nat)
    requires Admissible(r) && AllFollow(history, remote, r) && d < r.dst.devices.size
    requires RoundReleased(history, remote, r, d, k) && InRect(TileRect(d, r.dst.dims), p)
    ensures i < |Log(history, remote)| && Log(history, remote)[i].round == k && Log(history, remote)[i].key.dst == d
    ensures WritesAt(Log(history, remote), i, r.to(d), p)
  {
    var log := Log(history, remote);
    ChosenPlanDelivers(r.strategy, r.src, r.dst);
    assert Covers(PlanOf(r.strategy, r.src, r.dst), d, r.dst);
    var t :| t in PlanOf(r.strategy, r.src, r.dst) && t.dst == d && InRect(t.rect, p);
    var key := Key(t.src, t.dst);
    ReleasedMeansFinished(At(history, remote, key), k);
    LoggedIff(history, remote, key, k);
    i :| 0 <= i < |log| && log[i].key == key && log[i].round == k;
    EntryFollows(history, remote, r, i);
    var u := Transfer(t.src, t.dst, log[i].op.shape);
    HalvesAgree(r.strategy, t, r.src, r.dst);
    HalvesAgree(r.strategy, u, r.src, r.dst);
    OneRectPerKey(r.strategy, t, u, r.src, r.dst);
  }

  lemma {:induction false} ExpectedInside(t: Transfer, p: Point, r: Reshard)
    requires Admissible(r) && Expected(r.strategy, t, r.src, r.dst) && InRect(t.rect, p)
    ensures t.src < r.src.devices.size && t.dst < r.dst.devices.size
    ensures InRect(TileRect(t.src, r.src.dims), p) && InRect(TileRect(t.dst, r.dst.dims), p)
  {
    ChosenPlanDelivers(r.strategy, r.src, r.dst);
    assert t in PlanOf(r.strategy, r.src, r.dst);
  }

  /** Only planned copies under keys of d write to the instance of d. */
  lemma {:induction false} WriterOf(entry: Done<Key>, r: Reshard, d: nat, p: Point)
    requires Admissible(r) && Planned(entry, r) && d < r.dst.devices.size
    requires entry.op.dst == Inst(r.to(d)) && InRect(entry.op.shape, p)
    ensures entry.key.dst == d && entry.key.src < r.src.devices.size && IdOf(entry.op.src) == r.from(entry.key.src)
    ensures InRect(TileRect(entry.key.src, r.src.dims), p) && InRect(TileRect(d, r.dst.dims), p)
  {
    ExpectedInside(TransferOf(entry), p, r);
    assert entry.key.dst < d ==> r.to(entry.key.dst) != r.to(d);
  }

  /** The rounds of the entries into d come in order, and none is later than round k. */
  predicate RoundsUpTo(log: seq<Done<Key>>, d: nat, k: nat) {
    && (forall i :: 0 <= i < |log| && log[i].key.dst == d ==> log[i].round <= k)
    && (forall i, j :: 0 <= i < j < |log| && log[i].key.dst == log[j].key.dst == d ==> log[i].round <= log[j].round)
  }

  lemma {:induction false} WriterOfTile(log: seq<Done<Key>>, r: Reshard, d: nat, p: Point)
    requires Admissible(r) && d < r.dst.devices.size && forall j :: 0 <= j < |log| ==> Planned(log[j], r)
    ensures forall j :: 0 <= j < |log| && WritesAt(log, j, r.to(d), p) ==>
              log[j].key.dst == d && InRect(TileRect(d, r.dst.dims), p)
  {
    forall j | 0 <= j < |log| && WritesAt(log, j, r.to(d), p)
      ensures log[j].key.dst == d && InRect(TileRect(d, r.dst.dims), p)
    {
      WriterOf(log[j], r, d, p);
    }
  }

  /** If some entry of round k writes the element, the entry that writes it last is of round k too. */
  lemma {:induction false} LastOfRound<V>(log: seq<Done<Key>>, source: nat -> Contents<V>, target: Contents<V>,
                                          inst: nat, d: nat, k: nat, p: Point, i: nat) returns (last: nat)
    requires RoundsUpTo(log, d, k)
    requires forall j :: 0 <= j < |log| && WritesAt(log, j, inst, p) ==> log[j].key.dst == d
    requires i < |log| && log[i].round == k && WritesAt(log, i, inst, p)
    ensures last < |log| && WritesAt(log, last, inst, p) && log[last].round == k
    ensures After(log, Refilled(), source, target)(inst, p) == source(k)(IdOf(log[last].op.src), p)
  {
    var n := LastWriter(log, Refilled(), source, target, inst, p);
    assert i <= n;
    assert i < n ==> log[i].round <= log[n].round;
    last := n;
  }

  lemma {:induction false} ElementDelivered<V>(log: seq<Done<Key>>, r: Reshard, source: nat -> Contents<V>,
                                               target: Contents<V>, whole: Point -> V, d: nat, k: nat, p: Point, i: nat)
    requires Admissible(r) && d < r.dst.devices.size && Provides(source(k), whole, r)
    requires (forall j :: 0 <= j < |log| ==> Planned(log[j], r)) && RoundsUpTo(log, d, k)
    requires i < |log| && log[i].round == k && WritesAt(log, i, r.to(d), p)
    ensures After(log, Refilled(), source, target)(r.to(d), p) == whole(p)
  {
    WriterOfTile(log, r, d, p);
    var last := LastOfRound(log, source, target, r.to(d), d, k, p, i);
    WriterOf(log[last], r, d, p);
  }

  lemma {:induction false} ElementKept<V>(log: seq<Done<Key>>, r: Reshard, source: nat -> Contents<V>,
                                          target: Contents<V>, d: nat, p: Point)
    requires Admissible(r) && d < r.dst.devices.size && forall j :: 0 <= j < |log| ==> Planned(log[j], r)
    ensures InRect(TileRect(d, r.dst.dims), p) ||
            After(log, Refilled(), source, target)(r.to(d), p) == target(r.to(d), p)
  {
    WriterOfTile(log, r, d, p);
    var last := LastWriter(log, Refilled(), source, target, r.to(d), p);
  }

  /**
   Any strategy, any mixture of local and remote exchanges, any number of rounds under the same
   keys, any interleaving of all calls, messages and firings.  As soon as destination d has been
   released from round k, and until a copy of a later round into it finishes, its tile holds the
   array that the source tiles held in round k, and nothing beyond the tile has been overwritten.
   */
  lemma {:induction false} ReshardDelivers<V>(history: Moves<Key>, remote: Key -> bool, r: Reshard,
                                              past: nat -> Past, source: nat -> Contents<V>, target: Contents<V>,
                                              whole: Point -> V, d: nat, k: nat)
    requires Proper(history, remote, r, past)
    requires d < r.dst.devices.size && Provides(source(k), whole, r)
    requires RoundReleased(history, remote, r, d, k)
    requires forall i :: 0 <= i < |Log(history, remote)| && Log(history, remote)[i].key.dst == d ==>
               Log(history, remote)[i].round <= k
    ensures forall p: Point :: After(Log(history, remote), Refilled(), source, target)(r.to(d), p) ==
              if InRect(TileRect(d, r.dst.dims), p) then whole(p) else target(r.to(d), p)
  {
    var log := Log(history, remote);
    forall j | 0 <= j < |log| ensures Planned(log[j], r) {
      EntryFollows(history, remote, r, j);
    }
    forall i, j | 0 <= i < j < |log| && log[i].key.dst == log[j].key.dst == d ensures log[i].round <= log[j].round {
      NoEarlierRoundAfter(history, remote, r, past, i, j);
    }
    forall p: Point
      ensures After(log, Refilled(), source, target)(r.to(d), p) ==
                if InRect(TileRect(d, r.dst.dims), p) then whole(p) else target(r.to(d), p)
    {
      if InRect(TileRect(d, r.dst.dims), p) {
        var i := RoundWrites(history, remote, r, d, k, p);
        ElementDelivered(log, r, source, target, whole, d, k, p, i);
      } else {
        ElementKept(log, r, source, target, d, p);
      }
    }
  }
}
