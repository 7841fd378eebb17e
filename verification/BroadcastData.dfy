/**
 The data of a broadcast, round after round: a tile that has been released holds what the source of
 its group held in that round, however far down the tree it sits.
 */
module BroadcastData {
  import opened Shape
  import opened TiledArray
  import opened Realm
  import opened Stores
  import opened StoreUses
  import opened RemoteProtocol
  import opened Exchanges
  import opened History
  import opened Broadcast
  import opened BroadcastGroups

  /** A reshard key of a broadcast: from a source to the root of a tree, or down the tree. */
  datatype Hop = FromSource(src: nat, dst: nat) | Down(parent: nat, child: nat) {
    function Into(): nat {
      if FromSource? then dst else child
    }
  }

  /**
   Everybody's configuration, the instance of each tile, the bounds of the (whole) array, the stores, and
   the release event of the view through which a shard sends to its leaves in a round.
   */
  datatype Cast = Cast(configs: int -> BroadcastConfig, src: DeviceList, dst: DeviceList,
                       from: nat -> nat, to: nat -> nat, bounds: Rect,
                       upkeep: Upkeep<Hop>, release: (nat, nat) -> nat)

  /** Each destination tile has its own instance. */
  predicate Distinct(b: Cast) {
    forall c, d :: 0 <= c < d < b.dst.size ==> b.to(c) != b.to(d)
  }

  ghost predicate Sound(b: Cast) {
    0 < b.src.size < b.dst.size && Configured(b.configs, b.src, b.dst) && Distinct(b)
  }

  /** The sender's configuration tells it to send. */
  predicate MaySend(hop: Hop, b: Cast) {
    match hop
    case FromSource(s, d) => s < b.src.size && NamesRoot(b.configs(b.src.start + s), d)
    case Down(p, c) => p < b.dst.size && ListsLeaf(b.configs(b.dst.start + p), c)
  }

  /** The receiver's configuration tells it to receive. */
  predicate MayReceive(hop: Hop, b: Cast) {
    && hop.Into() < b.dst.size && b.configs(b.dst.start + hop.Into()).target.Some?
    && var target := b.configs(b.dst.start + hop.Into()).target.value;
       match hop
       case FromSource(s, _) => target.srcShard == Some(s)
       case Down(p, _) => target.srcShard.None? && target.dstRootShard == Some(p)
  }

  function SenderInst(hop: Hop, b: Cast): nat {
    match hop
    case FromSource(s, _) => b.from(s)
    case Down(p, _) => b.to(p)
  }

  /** Calls that name the bounds and this instance, and are made only by someone who may. */
  predicate CallsFollow(calls: seq<Call>, may: bool, bounds: Rect, inst: nat) {
    && (calls != [] ==> may)
    && forall k :: 0 <= k < |calls| ==> calls[k].shape == bounds && calls[k].inst == inst
  }

  /** Both sides call as their configurations say, as often as they like. */
  ghost predicate FollowsCast(e: Exchange, hop: Hop, b: Cast) {
    && CallsFollow(e.Sends(), MaySend(hop, b), b.bounds, SenderInst(hop, b))
    && CallsFollow(e.Recvs(), MayReceive(hop, b), b.bounds, b.to(hop.Into()))
  }

  ghost predicate AllFollow(history: Moves<Hop>, remote: Hop -> bool, b: Cast) {
    forall hop: Hop :: FollowsCast(At(history, remote, hop), hop, b)
  }

  /** All leaves of the shard have been sent round i. */
  ghost predicate LeavesServed(history: Moves<Hop>, remote: Hop -> bool, b: Cast, d: nat, i: nat) {
    forall c: nat :: ListsLeaf(b.configs(b.dst.start + d), c) ==> SentOff(At(history, remote, Down(d, c)), i)
  }

  /** Receive k waits for the store: for its earlier round i, and for the reads of that round by the leaves. */
  ghost predicate ReceiveWaits(history: Moves<Hop>, remote: Hop -> bool, b: Cast, hop: Hop, k: nat, i: nat) {
    var e := At(history, remote, hop);
    k < |e.Recvs()| && e.Recvs()[k].pre <= e.Fired() ==>
      Released(e, i) && LeavesServed(history, remote, b, hop.Into(), i)
  }

  ghost predicate ReceivesWait(history: Moves<Hop>, remote: Hop -> bool, b: Cast) {
    forall n: nat, hop: Hop, k: nat, i: nat :: n <= |history| && i < k ==>
      ReceiveWaits(history[..n], remote, b, hop, k, i)
  }

  /** Send k down the tree waits for receive k of the sender. */
  ghost predicate SendWaits(history: Moves<Hop>, remote: Hop -> bool, hop: Hop, up: Hop, k: nat) {
    var e := At(history, remote, hop);
    k < |e.Sends()| && e.Sends()[k].pre <= e.Fired() ==> Released(At(history, remote, up), k)
  }

  ghost predicate SendsWait(history: Moves<Hop>, remote: Hop -> bool, b: Cast) {
    forall n: nat, hop: Hop, up: Hop, k: nat ::
      n <= |history| && hop.Down? && up.Into() == hop.parent && MayReceive(up, b) ==>
        SendWaits(history[..n], remote, hop, up, k)
  }

  /** A history in which everybody keeps to the configuration and waits that way. */
  ghost predicate KeepsWaiting(history: Moves<Hop>, remote: Hop -> bool, b: Cast) {
    Sound(b) && AllFollow(history, remote, b) && ReceivesWait(history, remote, b) && SendsWait(history, remote, b)
  }

  // ----- the stores

  /** The event of the receive of round k into shard d, from a source or from a parent. */
  function InEvent(b: Cast, d: nat, k: nat): Event {
    var target := b.configs(b.dst.start + d).target;
    if target.None? then NO_EVENT
    else if target.value.srcShard.Some? then {External(b.upkeep.name(FromSource(target.value.srcShard.value, d), k))}
    else if target.value.dstRootShard.Some? then
      {External(b.upkeep.name(Down(target.value.dstRootShard.value, d), k))}
    else NO_EVENT
  }

  predicate HasLeaves(b: Cast, d: nat) {
    var target := b.configs(b.dst.start + d).target;
    target.Some? && target.value.dstLeafShards != []
  }

  /** The store of shard d when round k begins. */
  function StoreAt(b: Cast, d: nat, k: nat): StoreState
    decreases k, 0
  {
    if k == 0 then b.upkeep.first(d) else AfterUses(Shown(b, d, k - 1), b.upkeep.uses(d, k - 1))
  }

  /** The store after the receive of round k, when the view for the leaves is taken. */
  function Landed(b: Cast, d: nat, k: nat): StoreState
    decreases k, 1
  {
    ReadyAfter(StoreAt(b, d, k), InEvent(b, d, k))
  }

  /** The store when round k has been called. */
  function Shown(b: Cast, d: nat, k: nat): StoreState
    decreases k, 2
  {
    if HasLeaves(b, d) then ReadUntil(Landed(b, d, k), {External(b.release(d, k))}) else Landed(b, d, k)
  }

  /** Receives wait for the store of their shard, sends down the tree for what the view waits for. */
  ghost predicate WaitsForStore(e: Exchange, hop: Hop, b: Cast) {
    && (forall k :: 0 <= k < |e.Recvs()| ==> e.Recvs()[k].pre == Events(StorePrecondition(StoreAt(b, hop.Into(), k))))
    && (hop.Down? ==> forall k :: 0 <= k < |e.Sends()| ==>
          e.Sends()[k].pre == Events(ViewOf(Landed(b, hop.parent, k), NoUserEvent).precondition))
  }

  /** A precondition that has fired is over for everybody; the event of a receive is over once it has fired. */
  ghost predicate EventsShared(e: Exchange, hop: Hop, b: Cast, past: Past) {
    && (forall k :: 0 <= k < |e.Recvs()| && e.Recvs()[k].pre <= e.Fired() ==> Over(e.Recvs()[k].pre, past))
    && (forall k :: 0 <= k < |e.Sends()| && e.Sends()[k].pre <= e.Fired() ==> Over(e.Sends()[k].pre, past))
    && (forall i: nat :: External(b.upkeep.name(hop, i)) in past ==> Released(e, i))
  }

  ghost predicate UsesBefore(e: Exchange, hop: Hop, b: Cast, past: Past) {
    forall k: nat :: k + 1 < |e.Recvs()| ==>
      UsesHappen(Shown(b, hop.Into(), k), b.upkeep.uses(hop.Into(), k), past)
  }

  /** A view is released after all sends through it. */
  ghost predicate ViewsReleased(history: Moves<Hop>, remote: Hop -> bool, b: Cast, past: Past) {
    forall d: nat, k: nat :: External(b.release(d, k)) in past ==> LeavesServed(history, remote, b, d, k)
  }

  /** Calls take their preconditions from the stores, and events mean the same under every key and in every task. */
  ghost predicate StoresFollow(history: Moves<Hop>, remote: Hop -> bool, b: Cast, past: nat -> Past) {
    forall n: nat, hop: Hop :: n <= |history| ==>
      && WaitsForStore(At(history[..n], remote, hop), hop, b)
      && EventsShared(At(history[..n], remote, hop), hop, b, past(n))
      && UsesBefore(At(history[..n], remote, hop), hop, b, past(n))
      && ViewsReleased(history[..n], remote, b, past(n))
  }

  /** A history of a broadcast in which everybody keeps to configuration and store; past(n) is over after n moves. */
  ghost predicate Proper(history: Moves<Hop>, remote: Hop -> bool, b: Cast, past: nat -> Past) {
    Sound(b) && AllFollow(history, remote, b) && StoresFollow(history, remote, b, past)
  }

  // ----- the way into a shard

  /** The group whose source a shard's data comes from. */
  function GroupOf(d: nat, b: Cast): nat
    requires 0 < b.src.size < b.dst.size && d < b.dst.size
  {
    PlaceOf(d, b.src.size, b.dst.size).group
  }

  /** A shard receives from the source of its group, or from a shard of its group. */
  lemma {:induction false} HopStaysInGroup(hop: Hop, b: Cast)
    requires Sound(b) && MayReceive(hop, b)
    ensures hop.FromSource? ==> hop.src == GroupOf(hop.dst, b)
    ensures hop.Down? ==> hop.parent < hop.child && GroupOf(hop.parent, b) == GroupOf(hop.child, b)
  {
    var d := hop.Into();
    TargetOfShard(d, b.configs, b.src, b.dst);
    var place := PlaceOf(d, b.src.size, b.dst.size);
    var cover := SomeCover(place.size);
    WaitsFor(d, b.configs, b.src, b.dst, cover);
    if hop.Down? {
      ParentBelow(place.rank);
      PlaceInGroup(d, Parent(place.rank), b.src.size, b.dst.size);
    }
  }

  lemma {:induction false} OneWayIn(x: Hop, y: Hop, b: Cast)
    requires MayReceive(x, b) && MayReceive(y, b) && x.Into() == y.Into()
    ensures x == y
  {
  }

  // ----- the entries of the log

  /** A logged copy that both sides were configured for. */
  predicate Planned(entry: Done<Hop>, b: Cast) {
    && MaySend(entry.key, b) && MayReceive(entry.key, b)
    && entry.op.shape == b.bounds && entry.op.src == Inst(SenderInst(entry.key, b))
    && entry.op.dst == Inst(b.to(entry.key.Into()))
  }

  lemma {:induction false} CopyFollows(e: Exchange, hop: Hop, b: Cast, k: nat)
    requires FollowsCast(e, hop, b) && k < |e.Copies()|
    ensures Planned(Done(hop, k, e.Copies()[k]), b)
  {
    CopyOfRound(e, k);
    assert SameBounds(e, b.bounds);
  }

  lemma {:induction false} FollowsEarlier(history: Moves<Hop>, remote: Hop -> bool, b: Cast, hop: Hop, n: nat)
    requires FollowsCast(At(history, remote, hop), hop, b) && n <= |history|
    ensures FollowsCast(At(history[..n], remote, hop), hop, b)
  {
    AtKeeps(history, remote, hop, n);
    var e, later := At(history[..n], remote, hop), At(history, remote, hop);
    FirstCallsFollow(e.Sends(), later.Sends(), MaySend(hop, b), b.bounds, SenderInst(hop, b));
    FirstCallsFollow(e.Recvs(), later.Recvs(), MayReceive(hop, b), b.bounds, b.to(hop.Into()));
  }

  lemma {:induction false} FirstCallsFollow(calls: seq<Call>, more: seq<Call>, may: bool, bounds: Rect, inst: nat)
    requires calls <= more && CallsFollow(more, may, bounds, inst)
    ensures CallsFollow(calls, may, bounds, inst)
  {
    assert forall k :: 0 <= k < |calls| ==> calls[k] == more[k];
  }

  lemma {:induction false} EntryFollows(history: Moves<Hop>, remote: Hop -> bool, b: Cast, j: nat)
    requires AllFollow(history, remote, b) && j < |Log(history, remote)|
    ensures Planned(Log(history, remote)[j], b)
  {
    var entry := Log(history, remote)[j];
    var n := EntryMade(history, remote, j);
    FollowsEarlier(history, remote, b, entry.key, n);
    CopyFollows(At(history[..n], remote, entry.key), entry.key, b, entry.round);
  }

  // ----- stores make everybody wait

  lemma {:induction false} InEventOf(b: Cast, hop: Hop, k: nat)
    requires MayReceive(hop, b)
    ensures InEvent(b, hop.Into(), k) == {External(b.upkeep.name(hop, k))}
  {
  }

  /** When all that a store waits for is over, so are the receive and the view of the round before. */
  lemma {:induction false} ShownOver(b: Cast, d: nat, k: nat, past: Past)
    requires Over(Events(StorePrecondition(StoreAt(b, d, k + 1))), past)
    requires UsesHappen(Shown(b, d, k), b.upkeep.uses(d, k), past)
    ensures Over(InEvent(b, d, k), past) && (HasLeaves(b, d) ==> External(b.release(d, k)) in past)
  {
    EarlierOver(Shown(b, d, k), b.upkeep.uses(d, k), past);
    assert InEvent(b, d, k) <= Events(Landed(b, d, k).childRw);
  }

  predicate MayStart(e: Exchange, k: nat) {
    k < |e.Recvs()| && e.Recvs()[k].pre <= e.Fired()
  }

  /** One round back: receive k has been released and the leaves have been served. */
  lemma {:induction false} OneRoundBack(history: Moves<Hop>, remote: Hop -> bool, b: Cast, past: nat -> Past,
                                        n: nat, hop: Hop, k: nat)
    requires Proper(history, remote, b, past) && n <= |history| && MayStart(At(history[..n], remote, hop), k + 1)
    ensures Released(At(history[..n], remote, hop), k) && LeavesServed(history[..n], remote, b, hop.Into(), k)
    ensures MayStart(At(history[..n], remote, hop), k)
  {
    var e := At(history[..n], remote, hop);
    assert WaitsForStore(e, hop, b) && EventsShared(e, hop, b, past(n)) && UsesBefore(e, hop, b, past(n));
    assert ViewsReleased(history[..n], remote, b, past(n));
    FollowsEarlier(history, remote, b, hop, n);
    InEventOf(b, hop, k);
    ShownOver(b, hop.Into(), k, past(n));
    assert External(b.upkeep.name(hop, k)) in InEvent(b, hop.Into(), k);
    ReleasedMeansFinished(e, k);
    NoLeavesServed(history[..n], remote, b, hop.Into(), k);
  }

  lemma {:induction false} NoLeavesServed(history: Moves<Hop>, remote: Hop -> bool, b: Cast, d: nat, k: nat)
    ensures HasLeaves(b, d) || LeavesServed(history, remote, b, d, k)
  {
  }

  lemma {:induction false} StoresMakeReceiveWait(history: Moves<Hop>, remote: Hop -> bool, b: Cast,
                                                 past: nat -> Past, n: nat, hop: Hop, k: nat, i: nat)
    requires Proper(history, remote, b, past) && n <= |history| && i < k
    ensures ReceiveWaits(history[..n], remote, b, hop, k, i)
  {
    if MayStart(At(history[..n], remote, hop), k) {
      var j := k;
      while j > i
        invariant i <= j <= k && MayStart(At(history[..n], remote, hop), j)
        invariant j < k ==>
                    Released(At(history[..n], remote, hop), j) && LeavesServed(history[..n], remote, b, hop.Into(), j)
      {
        j := j - 1;
        OneRoundBack(history, remote, b, past, n, hop, j);
      }
    }
  }

  lemma {:induction false} StoresMakeSendWait(history: Moves<Hop>, remote: Hop -> bool, b: Cast,
                                              past: nat -> Past, n: nat, hop: Hop, up: Hop, k: nat)
    requires Proper(history, remote, b, past) && n <= |history|
    requires hop.Down? && up.Into() == hop.parent && MayReceive(up, b)
    ensures SendWaits(history[..n], remote, hop, up, k)
  {
    var e := At(history[..n], remote, hop);
    if k < |e.Sends()| && e.Sends()[k].pre <= e.Fired() {
      assert WaitsForStore(e, hop, b) && EventsShared(e, hop, b, past(n));
      assert EventsShared(At(history[..n], remote, up), up, b, past(n));
      InEventOf(b, up, k);
      assert External(b.upkeep.name(up, k)) in Events(Landed(b, hop.parent, k).childRw);
    }
  }

  /** Who takes preconditions from the stores waits as the broadcast needs. */
  lemma {:induction false} StoresMakeWait(history: Moves<Hop>, remote: Hop -> bool, b: Cast, past: nat -> Past)
    requires Proper(history, remote, b, past)
    ensures KeepsWaiting(history, remote, b)
  {
    forall n: nat, hop: Hop, k: nat, i: nat | n <= |history| && i < k
      ensures ReceiveWaits(history[..n], remote, b, hop, k, i)
    {
      StoresMakeReceiveWait(history, remote, b, past, n, hop, k, i);
    }
    forall n: nat, hop: Hop, up: Hop, k: nat |
      n <= |history| && hop.Down? && up.Into() == hop.parent && MayReceive(up, b)
      ensures SendWaits(history[..n], remote, hop, up, k)
    {
      StoresMakeSendWait(history, remote, b, past, n, hop, up, k);
    }
  }

  /** A shard that lists a leaf which is not configured to receive never gets past its first round. */
  lemma {:induction false} UnfedLeafStalls(history: Moves<Hop>, remote: Hop -> bool, b: Cast, past: nat -> Past,
                                           hop: Hop, c: nat, k: nat)
    requires Proper(history, remote, b, past)
    requires ListsLeaf(b.configs(b.dst.start + hop.Into()), c) && !MayReceive(Down(hop.Into(), c), b)
    ensures !MayStart(At(history, remote, hop), k + 1)
  {
    assert history[..|history|] == history;
    if MayStart(At(history, remote, hop), k + 1) {
      OneRoundBack(history, remote, b, past, |history|, hop, k);
      UnfedLeafUnserved(history, remote, b, hop.Into(), c, k);
    }
  }

  lemma {:induction false} UnfedLeafUnserved(history: Moves<Hop>, remote: Hop -> bool, b: Cast, d: nat, c: nat, k: nat)
    requires AllFollow(history, remote, b)
    requires ListsLeaf(b.configs(b.dst.start + d), c) && !MayReceive(Down(d, c), b)
    ensures !LeavesServed(history, remote, b, d, k)
  {
    var e := At(history, remote, Down(d, c));
    assert FollowsCast(e, Down(d, c), b);
    if SentOff(e, k) {
      SentMeansFinished(e, k);
      CopyOfRound(e, k);
    }
  }

  // ----- what comes before an entry

  /** What entry j had to wait for has been logged before it: the earlier rounds of its own copies ... */
  lemma {:induction false} LoggedBefore(history: Moves<Hop>, remote: Hop -> bool, b: Cast,
                                        j: nat, entry: Done<Hop>, k: nat)
    requires ReceivesWait(history, remote, b)
    requires j < |Log(history, remote)| && entry == Log(history, remote)[j] && k < entry.round
    ensures Logged(Log(history, remote)[..j], entry.key, k)
  {
    var n := EntryMade(history, remote, j);
    StartsAfterBoth(At(history[..n], remote, entry.key), entry.round);
    assert ReceiveWaits(history[..n], remote, b, entry.key, entry.round, k);
    ReleasedMeansFinished(At(history[..n], remote, entry.key), k);
    LoggedIff(history[..n], remote, entry.key, k);
  }

  lemma {:induction false} LeafFinished(history: Moves<Hop>, remote: Hop -> bool, b: Cast,
                                        hop: Hop, k: nat, i: nat, c: nat)
    requires ReceiveWaits(history, remote, b, hop, k, i) && At(history, remote, hop).CanFinish(k)
    requires ListsLeaf(b.configs(b.dst.start + hop.Into()), c)
    ensures CopyDone(i) in At(history, remote, Down(hop.Into(), c)).Fired()
  {
    StartsAfterBoth(At(history, remote, hop), k);
    SentMeansFinished(At(history, remote, Down(hop.Into(), c)), i);
  }

  lemma {:induction false} LeafLogged(history: Moves<Hop>, remote: Hop -> bool, b: Cast,
                                      hop: Hop, k: nat, i: nat, c: nat)
    requires ReceiveWaits(history, remote, b, hop, k, i) && At(history, remote, hop).CanFinish(k)
    requires ListsLeaf(b.configs(b.dst.start + hop.Into()), c)
    ensures Logged(Log(history, remote), Down(hop.Into(), c), i)
  {
    LeafFinished(history, remote, b, hop, k, i, c);
    LoggedIff(history, remote, Down(hop.Into(), c), i);
  }

  lemma {:induction false} ReceiveWaitsAt(history: Moves<Hop>, remote: Hop -> bool, b: Cast, n: nat,
                                          hop: Hop, k: nat, i: nat)
    requires ReceivesWait(history, remote, b) && n <= |history| && i < k
    ensures ReceiveWaits(history[..n], remote, b, hop, k, i)
  {
  }

  /** ... and the earlier rounds of the copies to the shard's leaves. */
  lemma {:induction false} LeafBefore(history: Moves<Hop>, remote: Hop -> bool, b: Cast,
                                      j: nat, entry: Done<Hop>, k: nat, c: nat)
    requires ReceivesWait(history, remote, b)
    requires j < |Log(history, remote)| && entry == Log(history, remote)[j] && k < entry.round
    requires ListsLeaf(b.configs(b.dst.start + entry.key.Into()), c)
    ensures Logged(Log(history, remote)[..j], Down(entry.key.Into(), c), k)
  {
    var n := EntryMade(history, remote, j);
    ReceiveWaitsAt(history, remote, b, n, entry.key, entry.round, k);
    LeafLogged(history[..n], remote, b, entry.key, entry.round, k, c);
  }

  /** The receive of the parent, for a copy down the tree. */
  lemma {:induction false} ParentBefore(history: Moves<Hop>, remote: Hop -> bool, b: Cast, j: nat, up: Hop)
    requires SendsWait(history, remote, b) && j < |Log(history, remote)| && Log(history, remote)[j].key.Down?
    requires MayReceive(up, b) && up.Into() == Log(history, remote)[j].key.parent
    ensures Logged(Log(history, remote)[..j], up, Log(history, remote)[j].round)
  {
    var entry := Log(history, remote)[j];
    var n := EntryMade(history, remote, j);
    StartsAfterBoth(At(history[..n], remote, entry.key), entry.round);
    assert SendWaits(history[..n], remote, entry.key, up, entry.round);
    ReleasedMeansFinished(At(history[..n], remote, up), entry.round);
    LoggedIff(history[..n], remote, up, entry.round);
  }

  lemma {:induction false} NotLoggedTwice(history: Moves<Hop>, remote: Hop -> bool, i: nat, j: nat)
    requires i <= j < |Log(history, remote)|
    ensures !Logged(Log(history, remote)[..i], Log(history, remote)[j].key, Log(history, remote)[j].round)
  {
    var log := Log(history, remote);
    if m :| 0 <= m < |log[..i]| && log[..i][m].key == log[j].key && log[..i][m].round == log[j].round {
      LoggedOnce(history, remote, m, j);
    }
  }

  /** The rounds of the copies into one shard come in order. */
  lemma {:induction false} RoundsRise(history: Moves<Hop>, remote: Hop -> bool, b: Cast, i: nat, j: nat)
    requires KeepsWaiting(history, remote, b) && i < j < |Log(history, remote)|
    requires Log(history, remote)[i].key.Into() == Log(history, remote)[j].key.Into()
    ensures Log(history, remote)[i].key == Log(history, remote)[j].key
    ensures Log(history, remote)[i].round < Log(history, remote)[j].round
  {
    var log := Log(history, remote);
    EntryFollows(history, remote, b, i);
    EntryFollows(history, remote, b, j);
    OneWayIn(log[i].key, log[j].key, b);
    LoggedOnce(history, remote, i, j);
    if log[j].round < log[i].round {
      LoggedBefore(history, remote, b, i, log[i], log[j].round);
      NotLoggedTwice(history, remote, i, j);
    }
  }

  /** Between a parent's copy and the copy of the same round to its leaf, the parent's tile is left alone. */
  lemma {:induction false} ParentUndisturbed(history: Moves<Hop>, remote: Hop -> bool, b: Cast, i: nat, m: nat, j: nat)
    requires KeepsWaiting(history, remote, b) && i < m < j < |Log(history, remote)|
    requires Log(history, remote)[j].key.Down? && Log(history, remote)[i].round == Log(history, remote)[j].round
    requires Log(history, remote)[i].key.Into() == Log(history, remote)[j].key.parent
    ensures Log(history, remote)[m].key.Into() != Log(history, remote)[j].key.parent
  {
    var log := Log(history, remote);
    if log[m].key.Into() == log[j].key.parent {
      RoundsRise(history, remote, b, i, m);
      EntryFollows(history, remote, b, j);
      LeafBefore(history, remote, b, m, log[m], log[j].round, log[j].key.child);
      NotLoggedTwice(history, remote, m, j);
    }
  }

  // ----- contents

  /** Source tiles are refilled by tasks; tiles of the destination are filled by the broadcast itself. */
  function Refilled(): Hop -> bool {
    (hop: Hop) => hop.FromSource?
  }

  /** Shard d holds what source shard s held in round k. */
  ghost predicate HoldsRound<V>(log: seq<Done<Hop>>, b: Cast, source: nat -> Contents<V>, target: Contents<V>,
                                d: nat, s: nat, k: nat)
  {
    forall p: Point :: InRect(b.bounds, p) ==>
      After(log, Refilled(), source, target)(b.to(d), p) == source(k)(b.from(s), p)
  }

  /** A tile keeps its data while nothing is copied into it. */
  lemma {:induction false} TileKept<V>(log: seq<Done<Hop>>, b: Cast, source: nat -> Contents<V>, target: Contents<V>,
                                       d: nat, s: nat, k: nat, i: nat)
    requires Distinct(b) && d < b.dst.size && i <= |log|
    requires HoldsRound(log[..i], b, source, target, d, s, k)
    requires forall m :: i <= m < |log| ==> Planned(log[m], b) && log[m].key.Into() != d
    ensures HoldsRound(log, b, source, target, d, s, k)
    decreases |log|
  {
    if i < |log| {
      var n := |log| - 1;
      assert log[..n][..i] == log[..i];
      TileKept(log[..n], b, source, target, d, s, k, i);
      NotWrittenBy(log[n], b, d);
      forall p: Point | InRect(b.bounds, p)
        ensures After(log, Refilled(), source, target)(b.to(d), p) == source(k)(b.from(s), p)
      {
        AfterLast(log, Refilled(), source, target, b.to(d), p);
      }
    } else {
      assert log[..i] == log;
    }
  }

  lemma {:induction false} NotWrittenBy(entry: Done<Hop>, b: Cast, d: nat)
    requires Distinct(b) && d < b.dst.size && Planned(entry, b) && entry.key.Into() != d
    ensures entry.op.dst != Inst(b.to(d))
  {
    assert entry.key.Into() < d ==> b.to(entry.key.Into()) != b.to(d);
  }

  lemma {:induction false} SourceBrings<V>(log: seq<Done<Hop>>, b: Cast, source: nat -> Contents<V>,
                                           target: Contents<V>, s: nat, d: nat, k: nat)
    requires log != [] && Planned(log[|log| - 1], b)
    requires log[|log| - 1].key == FromSource(s, d) && log[|log| - 1].round == k
    ensures HoldsRound(log, b, source, target, d, s, k)
  {
    forall p: Point | InRect(b.bounds, p)
      ensures After(log, Refilled(), source, target)(b.to(d), p) == source(k)(b.from(s), p)
    {
      AfterLast(log, Refilled(), source, target, b.to(d), p);
    }
  }

  lemma {:induction false} ParentBrings<V>(log: seq<Done<Hop>>, b: Cast, source: nat -> Contents<V>,
                                           target: Contents<V>, p: nat, c: nat, s: nat, k: nat)
    requires log != [] && Planned(log[|log| - 1], b)
    requires log[|log| - 1].key == Down(p, c) && log[|log| - 1].round == k
    requires HoldsRound(log[..|log| - 1], b, source, target, p, s, k)
    ensures HoldsRound(log, b, source, target, c, s, k)
  {
    forall p: Point | InRect(b.bounds, p)
      ensures After(log, Refilled(), source, target)(b.to(c), p) == source(k)(b.from(s), p)
    {
      AfterLast(log, Refilled(), source, target, b.to(c), p);
    }
  }

  /** Right after the copy of round k into shard d, the shard holds the round's data. */
  lemma {:induction false} CopyBrings<V>(history: Moves<Hop>, remote: Hop -> bool, b: Cast,
                                         source: nat -> Contents<V>, target: Contents<V>, j: nat)
    requires KeepsWaiting(history, remote, b) && j < |Log(history, remote)|
    requires Log(history, remote)[j].key.Into() < b.dst.size
    ensures HoldsRound(Log(history, remote)[..j + 1], b, source, target, Log(history, remote)[j].key.Into(),
                       GroupOf(Log(history, remote)[j].key.Into(), b), Log(history, remote)[j].round)
    decreases j
  {
    var log := Log(history, remote);
    var key, k := log[j].key, log[j].round;
    EntryFollows(history, remote, b, j);
    HopStaysInGroup(key, b);
    assert log[..j + 1][..j] == log[..j];
    if key.Down? {
      ParentHolds(history, remote, b, source, target, j);
      ParentBrings(log[..j + 1], b, source, target, key.parent, key.child, GroupOf(key.child, b), k);
    } else {
      SourceBrings(log[..j + 1], b, source, target, key.src, key.dst, k);
    }
  }

  lemma {:induction false} UndisturbedUntil(history: Moves<Hop>, remote: Hop -> bool, b: Cast, i: nat, j: nat)
    requires KeepsWaiting(history, remote, b) && i < j < |Log(history, remote)| && Log(history, remote)[j].key.Down?
    requires Log(history, remote)[i].round == Log(history, remote)[j].round
    requires Log(history, remote)[i].key.Into() == Log(history, remote)[j].key.parent
    ensures var log := Log(history, remote);
      forall m :: i + 1 <= m < j ==> Planned(log[..j][m], b) && log[..j][m].key.Into() != log[j].key.parent
  {
    var log := Log(history, remote);
    forall m | i + 1 <= m < j ensures Planned(log[..j][m], b) && log[..j][m].key.Into() != log[j].key.parent {
      EntryFollows(history, remote, b, m);
      ParentUndisturbed(history, remote, b, i, m, j);
    }
  }

  lemma {:induction false} ParentHolds<V>(history: Moves<Hop>, remote: Hop -> bool, b: Cast,
                                          source: nat -> Contents<V>, target: Contents<V>, j: nat)
    requires KeepsWaiting(history, remote, b) && j < |Log(history, remote)| && Log(history, remote)[j].key.Down?
    requires MayReceive(Log(history, remote)[j].key, b) && MaySend(Log(history, remote)[j].key, b)
    ensures Log(history, remote)[j].key.parent < b.dst.size
    ensures HoldsRound(Log(history, remote)[..j], b, source, target, Log(history, remote)[j].key.parent,
                       GroupOf(Log(history, remote)[j].key.parent, b), Log(history, remote)[j].round)
    decreases j, 0
  {
    var log := Log(history, remote);
    var entry := log[j];
    var up := WayIn(entry.key.parent, b);
    ParentBefore(history, remote, b, j, up);
    var i :| 0 <= i < |log[..j]| && log[..j][i].key == up && log[..j][i].round == entry.round;
    CopyBrings(history, remote, b, source, target, i);
    UndisturbedUntil(history, remote, b, i, j);
    assert log[..j][..i + 1] == log[..i + 1];
    TileKept(log[..j], b, source, target, entry.key.parent, GroupOf(entry.key.parent, b), entry.round, i + 1);
  }

  /** A shard that lists leaves is configured to receive. */
  lemma {:induction false} WayIn(d: nat, b: Cast) returns (up: Hop)
    requires Sound(b) && d < b.dst.size && b.configs(b.dst.start + d).target.Some?
    ensures MayReceive(up, b) && up.Into() == d
  {
    TargetOfShard(d, b.configs, b.src, b.dst);
    var place := PlaceOf(d, b.src.size, b.dst.size);
    var cover := SomeCover(place.size);
    WaitsFor(d, b.configs, b.src, b.dst, cover);
    var target := b.configs(b.dst.start + d).target.value;
    up := if target.srcShard.Some? then FromSource(target.srcShard.value, d) else Down(target.dstRootShard.value, d);
  }

  lemma {:induction false} NoLaterCopy(history: Moves<Hop>, remote: Hop -> bool, b: Cast, i: nat, m: nat)
    requires KeepsWaiting(history, remote, b) && i < m < |Log(history, remote)|
    requires Log(history, remote)[m].key == Log(history, remote)[i].key ==>
               Log(history, remote)[m].round <= Log(history, remote)[i].round
    ensures Log(history, remote)[m].key.Into() != Log(history, remote)[i].key.Into()
  {
    if Log(history, remote)[m].key.Into() == Log(history, remote)[i].key.Into() {
      RoundsRise(history, remote, b, i, m);
    }
  }

  lemma {:induction false} RoundLogged(history: Moves<Hop>, remote: Hop -> bool, hop: Hop, k: nat)
    returns (i: nat)
    requires Released(At(history, remote, hop), k)
    ensures i < |Log(history, remote)| && Log(history, remote)[i].key == hop && Log(history, remote)[i].round == k
  {
    ReleasedMeansFinished(At(history, remote, hop), k);
    LoggedIff(history, remote, hop, k);
    i :| 0 <= i < |Log(history, remote)| && Log(history, remote)[i].key == hop && Log(history, remote)[i].round == k;
  }

  lemma {:induction false} UntouchedAfter(history: Moves<Hop>, remote: Hop -> bool, b: Cast, i: nat)
    requires KeepsWaiting(history, remote, b) && i < |Log(history, remote)|
    requires var log := Log(history, remote);
      forall m :: 0 <= m < |log| && log[m].key == log[i].key ==> log[m].round <= log[i].round
    ensures forall m :: i + 1 <= m < |Log(history, remote)| ==>
              Planned(Log(history, remote)[m], b)
              && Log(history, remote)[m].key.Into() != Log(history, remote)[i].key.Into()
  {
    var log := Log(history, remote);
    forall m | i + 1 <= m < |log| ensures Planned(log[m], b) && log[m].key.Into() != log[i].key.Into() {
      EntryFollows(history, remote, b, m);
      NoLaterCopy(history, remote, b, i, m);
    }
  }

  /**
   Any group sizes, any number of rounds, any interleaving, any mixture of local and remote hops: as
   soon as a shard has been released from round k, and until a copy of a later round into it
   finishes, its tile holds what the source of its group held in round k.
   */
  lemma {:induction false} BroadcastDelivers<V>(history: Moves<Hop>, remote: Hop -> bool, b: Cast, past: nat -> Past,
                                                source: nat -> Contents<V>, target: Contents<V>, hop: Hop, k: nat)
    requires Proper(history, remote, b, past) && MayReceive(hop, b) && Released(At(history, remote, hop), k)
    requires forall i :: 0 <= i < |Log(history, remote)| && Log(history, remote)[i].key == hop ==>
               Log(history, remote)[i].round <= k
    ensures HoldsRound(Log(history, remote), b, source, target, hop.Into(), GroupOf(hop.Into(), b), k)
  {
    var log := Log(history, remote);
    StoresMakeWait(history, remote, b, past);
    var i := RoundLogged(history, remote, hop, k);
    CopyBrings(history, remote, b, source, target, i);
    UntouchedAfter(history, remote, b, i);
    TileKept(log, b, source, target, hop.Into(), GroupOf(hop.Into(), b), k, i + 1);
  }
}
