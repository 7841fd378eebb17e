/** Every step of the remote protocol keeps its invariant. */
module RemoteSteps {
  import opened TiledArray
  import opened Realm
  import opened Rendezvous
  import opened RemoteProtocol

  lemma InitialInvariant()
    ensures Invariant(INITIAL)
  {
  }

  lemma FireKeeps(s: System, fired: set<Atom>)
    requires Invariant(s) && Justified(s.world, fired)
    ensures Invariant(s.(fired := fired))
  {
    var s' := s.(fired := fired);
    assert Counters(s');
    assert OffersInOrder(s') && CopiesPaired(s') && ArrivalsPaired(s');
  }

  lemma FirePreserves(s: System, atom: Atom)
    requires Invariant(s)
    ensures Invariant(Next(s, Fire(atom)))
  {
    if Enabled(s.world, s.fired, atom) {
      JustifiedFires(s.world, s.fired, atom);
      FireKeeps(s, s.fired + {atom});
    }
  }

  lemma MatchedSendsGrow(s: System, w': World)
    requires Counters(s) && SendsTracked(s) && Grows(s.world, w')
    ensures forall k :: 0 <= k < Copies(s) ==> Denotes(s.sends[k].result, {CopyDone(k)}, w')
  {
    forall k | 0 <= k < Copies(s) ensures Denotes(s.sends[k].result, {CopyDone(k)}, w') {
      DenotesGrows(s.sends[k].result, {CopyDone(k)}, s.world, w');
    }
  }

  lemma AckedRecvsGrow(s: System, w': World)
    requires Counters(s) && RecvsTracked(s) && Grows(s.world, w') && AckKnown(s)
    ensures forall k :: 0 <= k < |s.recvs| ==> Denotes(s.recvs[k].result, {Phase(AckId(s), k)}, w')
  {
    forall k | 0 <= k < |s.recvs| ensures Denotes(s.recvs[k].result, {Phase(AckId(s), k)}, w') {
      DenotesGrows(s.recvs[k].result, {Phase(AckId(s), k)}, s.world, w');
    }
  }

  // ----- What each step does, case by case, in a state that satisfies the invariant

  /** The world after copy number c has been issued and has arrived on the ack barrier. */
  function CopyWorld(w: World, op: CopyOp, ack: nat, triggers: map<nat, Event>): World {
    var c := |w.copies|;
    w.(copies := w.copies + [op], arrivals := w.arrivals[(ack, c) := {CopyDone(c)}], triggers := triggers)
  }

  /** The first send also creates the ack barrier and announces it. */
  function Announced(s: System, shape: Rect): System {
    if s.sends != [] then s
    else
      var ack := Barrier(s.world.nextBarrier, 0);
      s.(source := s.source.(initialized := true, shape := shape, ackDone := ack),
         world := s.world.(nextBarrier := s.world.nextBarrier + 1),
         toTarget := [Names(ack, NoInst)])
  }

  /** A send without a queued offer waits for a fresh user event. */
  function SendQueued(s: System, shape: Rect, inst: nat, pre: Event): System {
    var t := Announced(s, shape);
    var user := UserEvent(s.world.nextUser);
    t.(source := t.source.(pendingSource := s.source.pendingSource + [PendingOp(pre, user, Inst(inst))]),
       world := t.world.(nextUser := s.world.nextUser + 1),
       sends := s.sends + [Call(shape, inst, pre, user.AsEvent())])
  }

  /** A send that finds a queued offer: the next copy is issued at once. */
  function SendMatched(s: System, shape: Rect, inst: nat, pre: Event): System
    requires s.source.pendingDest != []
  {
    var t := Announced(s, shape);
    var op := s.source.pendingDest[0];
    t.(source := t.source.(ackDone := Barrier(AckId(t), Copies(s) + 1), pendingDest := s.source.pendingDest[1..]),
       world := CopyWorld(t.world, CopyOp(t.source.shape, Inst(inst), op.partner, op.precondition + pre),
                          AckId(t), s.world.triggers),
       sends := s.sends + [Call(shape, inst, pre, {CopyDone(Copies(s))})])
  }

  /** A receive offers its instance under the next ready phase ... */
  function Offered(s: System, shape: Rect, inst: nat, pre: Event): System {
    var m := |s.recvs|;
    var ready := if m == 0 then s.world.nextBarrier else ReadyId(s);
    s.(target := (if s.target.initialized then s.target else s.target.(initialized := true, shape := shape))
                 .(targetReady := Barrier(ready, m + 1)),
       world := s.world.(arrivals := s.world.arrivals[(ready, m) := pre],
                         nextBarrier := if m == 0 then s.world.nextBarrier + 1 else s.world.nextBarrier),
       toSource := s.toSource + [Names(Barrier(ready, m), Inst(inst))])
  }

  /** ... and waits for a fresh user event, or for the next ack phase when the barrier is known. */
  function Received(s: System, shape: Rect, inst: nat, pre: Event): System {
    var t, m := Offered(s, shape, inst, pre), |s.recvs|;
    if AckKnown(s) then
      t.(target := t.target.(ackDone := Barrier(s.target.ackDone.id, m + 1)),
         recvs := s.recvs + [Call(shape, inst, pre, {Phase(s.target.ackDone.id, m)})])
    else
      var user := UserEvent(s.world.nextUser);
      t.(target := t.target.(pendingDest := s.target.pendingDest + [PendingOp(pre, user, Inst(inst))]),
         world := t.world.(nextUser := s.world.nextUser + 1),
         recvs := s.recvs + [Call(shape, inst, pre, user.AsEvent())])
  }

  /** An offer that arrives before its send is queued. */
  function OfferQueued(s: System): System
    requires s.toSource != []
  {
    s.(source := s.source.(pendingDest := s.source.pendingDest + [AsOffer(s.toSource[0])]), toSource := s.toSource[1..])
  }

  /** An offer that finds a waiting send: the next copy is issued and the send's user event is triggered with it. */
  function OfferMatched(s: System): System
    requires s.toSource != [] && s.source.pendingSource != []
  {
    var op, offer := s.source.pendingSource[0], AsOffer(s.toSource[0]);
    s.(source := s.source.(ackDone := Barrier(AckId(s), Copies(s) + 1), pendingSource := s.source.pendingSource[1..]),
       world := CopyWorld(s.world,
                          CopyOp(s.source.shape, op.partner, offer.partner, offer.precondition + op.precondition),
                          AckId(s),
                          if op.toTrigger.UserEvent? then s.world.triggers[op.toTrigger.id := {CopyDone(Copies(s))}]
                          else s.world.triggers),
       toSource := s.toSource[1..])
  }

  lemma SendEffect(s: System, shape: Rect, inst: nat, pre: Event)
    requires Counters(s) && ArrivalsPaired(s)
    ensures Next(s, Send(shape, inst, pre)) ==
            if s.source.pendingDest == [] then SendQueued(s, shape, inst, pre) else SendMatched(s, shape, inst, pre)
  {
  }

  lemma RecvEffect(s: System, shape: Rect, inst: nat, pre: Event)
    requires Counters(s) && ArrivalsPaired(s)
    ensures Next(s, Recv(shape, inst, pre)) == Received(s, shape, inst, pre)
  {
  }

  lemma OfferEffect(s: System)
    requires Counters(s) && ArrivalsPaired(s) && OffersInOrder(s) && SendsTracked(s) && s.toSource != []
    ensures Next(s, DeliverToSource) == if s.source.pendingSource == [] then OfferQueued(s) else OfferMatched(s)
  {
  }

  lemma SendQueuedCounters(s: System, shape: Rect, inst: nat, pre: Event)
    requires Invariant(s) && s.source.pendingDest == []
    ensures Counters(SendQueued(s, shape, inst, pre)) && Grows(s.world, SendQueued(s, shape, inst, pre).world)
  {
  }

  lemma SendQueuedKeepsCalls(s: System, shape: Rect, inst: nat, pre: Event)
    requires Invariant(s) && s.source.pendingDest == []
    ensures Counters(SendQueued(s, shape, inst, pre)) && SendsTracked(SendQueued(s, shape, inst, pre))
    ensures RecvsTracked(SendQueued(s, shape, inst, pre))
    ensures Justified(SendQueued(s, shape, inst, pre).world, s.fired)
  {
    SendQueuedCounters(s, shape, inst, pre);
    var s' := SendQueued(s, shape, inst, pre);
    MatchedSendsGrow(s, s'.world);
    if AckKnown(s) {
      AckedRecvsGrow(s, s'.world);
    }
    JustifiedGrows(s.world, s'.world, s.fired);
  }

  lemma SendQueuedKeepsCopies(s: System, shape: Rect, inst: nat, pre: Event)
    requires Invariant(s) && s.source.pendingDest == []
    ensures Counters(SendQueued(s, shape, inst, pre)) && CopiesPaired(SendQueued(s, shape, inst, pre))
    ensures ArrivalsPaired(SendQueued(s, shape, inst, pre))
  {
    SendQueuedCounters(s, shape, inst, pre);
  }

  lemma SendQueuedKeepsQueues(s: System, shape: Rect, inst: nat, pre: Event)
    requires Invariant(s) && s.source.pendingDest == []
    ensures Counters(SendQueued(s, shape, inst, pre)) && OffersInOrder(SendQueued(s, shape, inst, pre))
    ensures WaitersDistinct(SendQueued(s, shape, inst, pre))
  {
    SendQueuedCounters(s, shape, inst, pre);
  }

  lemma SendMatchedCounters(s: System, shape: Rect, inst: nat, pre: Event)
    requires Invariant(s) && s.source.pendingDest != []
    ensures Counters(SendMatched(s, shape, inst, pre)) && Grows(s.world, SendMatched(s, shape, inst, pre).world)
  {
  }

  lemma SendMatchedKeepsCalls(s: System, shape: Rect, inst: nat, pre: Event)
    requires Invariant(s) && s.source.pendingDest != []
    ensures Counters(SendMatched(s, shape, inst, pre)) && SendsTracked(SendMatched(s, shape, inst, pre))
    ensures RecvsTracked(SendMatched(s, shape, inst, pre))
    ensures Justified(SendMatched(s, shape, inst, pre).world, s.fired)
  {
    SendMatchedCounters(s, shape, inst, pre);
    var s' := SendMatched(s, shape, inst, pre);
    MatchedSendsGrow(s, s'.world);
    if AckKnown(s) {
      AckedRecvsGrow(s, s'.world);
    }
    JustifiedGrows(s.world, s'.world, s.fired);
  }

  lemma SendMatchedKeepsCopies(s: System, shape: Rect, inst: nat, pre: Event)
    requires Invariant(s) && s.source.pendingDest != []
    ensures Counters(SendMatched(s, shape, inst, pre)) && CopiesPaired(SendMatched(s, shape, inst, pre))
  {
    SendMatchedCounters(s, shape, inst, pre);
    var s', c := SendMatched(s, shape, inst, pre), Copies(s);
    assert s'.world.copies[..c] == s.world.copies && s'.sends[..|s.sends|] == s.sends;
    assert s.source.pendingDest[0] == Offer(ReadyId(s), c + 0, s.recvs[c + 0]);
  }

  lemma SendMatchedKeepsArrivals(s: System, shape: Rect, inst: nat, pre: Event)
    requires Invariant(s) && s.source.pendingDest != []
    ensures Counters(SendMatched(s, shape, inst, pre)) && ArrivalsPaired(SendMatched(s, shape, inst, pre))
  {
    SendMatchedCounters(s, shape, inst, pre);
  }

  lemma SendMatchedKeepsQueues(s: System, shape: Rect, inst: nat, pre: Event)
    requires Invariant(s) && s.source.pendingDest != []
    ensures Counters(SendMatched(s, shape, inst, pre)) && OffersInOrder(SendMatched(s, shape, inst, pre))
    ensures WaitersDistinct(SendMatched(s, shape, inst, pre))
  {
    SendMatchedCounters(s, shape, inst, pre);
    OfferTaken(s.source.pendingDest, s.toSource, s.recvs, ReadyId(s), Copies(s));
  }

  lemma OfferTaken(queued: seq<PendingOp>, inFlight: seq<Names>, recvs: seq<Call>, ready: nat, c: nat)
    requires queued != [] && OffersListed(queued, inFlight, recvs, ready, c)
    ensures OffersListed(queued[1..], inFlight, recvs, ready, c + 1)
  {
    assert forall i :: 0 <= i < |queued| - 1 ==> queued[1..][i] == queued[i + 1];
  }

  lemma ReceivedCounters(s: System, shape: Rect, inst: nat, pre: Event)
    requires Invariant(s)
    ensures Counters(Received(s, shape, inst, pre)) && Grows(s.world, Received(s, shape, inst, pre).world)
  {
  }

  lemma ReceivedKeepsCalls(s: System, shape: Rect, inst: nat, pre: Event)
    requires Invariant(s)
    ensures Counters(Received(s, shape, inst, pre)) && SendsTracked(Received(s, shape, inst, pre))
    ensures Justified(Received(s, shape, inst, pre).world, s.fired)
  {
    ReceivedCounters(s, shape, inst, pre);
    var s' := Received(s, shape, inst, pre);
    MatchedSendsGrow(s, s'.world);
    JustifiedGrows(s.world, s'.world, s.fired);
  }

  lemma ReceivedKeepsRecvs(s: System, shape: Rect, inst: nat, pre: Event)
    requires Invariant(s)
    ensures Counters(Received(s, shape, inst, pre)) && RecvsTracked(Received(s, shape, inst, pre))
  {
    ReceivedCounters(s, shape, inst, pre);
    if AckKnown(s) {
      AckedRecvsGrow(s, Received(s, shape, inst, pre).world);
    }
  }

  lemma ReceivedKeepsCopies(s: System, shape: Rect, inst: nat, pre: Event)
    requires Invariant(s)
    ensures Counters(Received(s, shape, inst, pre)) && CopiesPaired(Received(s, shape, inst, pre))
    ensures ArrivalsPaired(Received(s, shape, inst, pre))
  {
    ReceivedCounters(s, shape, inst, pre);
  }

  lemma ReceivedKeepsOffers(s: System, shape: Rect, inst: nat, pre: Event)
    requires Invariant(s)
    ensures Counters(Received(s, shape, inst, pre)) && OffersInOrder(Received(s, shape, inst, pre))
  {
    ReceivedCounters(s, shape, inst, pre);
    var s', m := Received(s, shape, inst, pre), |s.recvs|;
    OfferSent(s.source.pendingDest, s.toSource, s.recvs, s'.recvs[m], ReadyId(s), ReadyId(s'), Copies(s));
  }

  lemma OfferSent(queued: seq<PendingOp>, inFlight: seq<Names>, recvs: seq<Call>, recv: Call,
                  ready: nat, ready': nat, c: nat)
    requires OffersListed(queued, inFlight, recvs, ready, c) && |recvs| == c + |queued| + |inFlight|
    requires recvs != [] ==> ready' == ready
    ensures OffersListed(queued, inFlight + [Names(Barrier(ready', |recvs|), Inst(recv.inst))], recvs + [recv],
                         ready', c)
  {
  }

  lemma ReceivedKeepsWaiters(s: System, shape: Rect, inst: nat, pre: Event)
    requires Invariant(s)
    ensures WaitersDistinct(Received(s, shape, inst, pre))
  {
  }

  lemma OfferQueuedCounters(s: System)
    requires Invariant(s) && s.toSource != [] && s.source.pendingSource == []
    ensures Counters(OfferQueued(s)) && Grows(s.world, OfferQueued(s).world)
  {
  }

  lemma OfferQueuedKeepsCalls(s: System)
    requires Invariant(s) && s.toSource != [] && s.source.pendingSource == []
    ensures Counters(OfferQueued(s)) && SendsTracked(OfferQueued(s))
    ensures RecvsTracked(OfferQueued(s))
    ensures Justified(OfferQueued(s).world, s.fired)
  {
    OfferQueuedCounters(s);
    var s' := OfferQueued(s);
    MatchedSendsGrow(s, s'.world);
    if AckKnown(s) {
      AckedRecvsGrow(s, s'.world);
    }
    JustifiedGrows(s.world, s'.world, s.fired);
  }

  lemma OfferQueuedKeepsCopies(s: System)
    requires Invariant(s) && s.toSource != [] && s.source.pendingSource == []
    ensures Counters(OfferQueued(s)) && CopiesPaired(OfferQueued(s)) && ArrivalsPaired(OfferQueued(s))
  {
    OfferQueuedCounters(s);
    assert forall i :: 0 <= i < |s.toSource| - 1 ==> s.toSource[1..][i] == s.toSource[i + 1];
  }

  lemma OfferQueuedKeepsOffers(s: System)
    requires Invariant(s) && s.toSource != [] && s.source.pendingSource == []
    ensures Counters(OfferQueued(s)) && OffersInOrder(OfferQueued(s))
  {
    OfferQueuedCounters(s);
    OfferMoves(s.source.pendingDest, s.toSource, s.recvs, ReadyId(s), Copies(s));
  }

  lemma OfferMoves(queued: seq<PendingOp>, inFlight: seq<Names>, recvs: seq<Call>, ready: nat, c: nat)
    requires inFlight != [] && OffersListed(queued, inFlight, recvs, ready, c)
    ensures OffersListed(queued + [AsOffer(inFlight[0])], inFlight[1..], recvs, ready, c)
  {
    assert forall i :: 0 <= i < |inFlight| - 1 ==> inFlight[1..][i] == inFlight[i + 1];
  }

  lemma OfferMatchedCounters(s: System)
    requires Invariant(s) && s.toSource != [] && s.source.pendingSource != []
    ensures Counters(OfferMatched(s)) && Grows(s.world, OfferMatched(s).world)
  {
  }

  lemma OfferMatchedKeepsCalls(s: System)
    requires Invariant(s) && s.toSource != [] && s.source.pendingSource != []
    ensures Counters(OfferMatched(s)) && SendsTracked(OfferMatched(s))
    ensures RecvsTracked(OfferMatched(s))
    ensures Justified(OfferMatched(s).world, s.fired)
  {
    OfferMatchedCounters(s);
    var s' := OfferMatched(s);
    MatchedSendsGrow(s, s'.world);
    if AckKnown(s) {
      AckedRecvsGrow(s, s'.world);
    }
    JustifiedGrows(s.world, s'.world, s.fired);
  }

  lemma OfferMatchedKeepsCopies(s: System)
    requires Invariant(s) && s.toSource != [] && s.source.pendingSource != []
    ensures Counters(OfferMatched(s)) && CopiesPaired(OfferMatched(s)) && ArrivalsPaired(OfferMatched(s))
  {
    OfferMatchedCounters(s);
  }

  lemma OfferMatchedKeepsQueues(s: System)
    requires Invariant(s) && s.toSource != [] && s.source.pendingSource != []
    ensures Counters(OfferMatched(s)) && OffersInOrder(OfferMatched(s)) && WaitersDistinct(OfferMatched(s))
  {
    OfferMatchedCounters(s);
  }

  /** The user events of the waiters, triggered with one ack phase after the other. */
  function Served(queue: seq<PendingOp>, ack: nat, phase: nat, triggers: map<nat, Event>): map<nat, Event> {
    if queue == [] || queue[0].toTrigger.NoUserEvent? then triggers
    else Served(queue[1..], ack, phase + 1, triggers[queue[0].toTrigger.id := {Phase(ack, phase)}])
  }

  predicate AllWait(queue: seq<PendingOp>, w: World) {
    && (forall i :: 0 <= i < |queue| ==> Waiting(queue[i].toTrigger, w))
    && (forall i, j :: 0 <= i < j < |queue| ==> queue[i].toTrigger != queue[j].toTrigger)
  }

  lemma OthersWait(queue: seq<PendingOp>, w: World, event: Event)
    requires queue != [] && AllWait(queue, w)
    ensures Waiting(queue[0].toTrigger, w)
    ensures AllWait(queue[1..], w.(triggers := w.triggers[queue[0].toTrigger.id := event]))
  {
    assert Waiting(queue[0].toTrigger, w);
    assert forall i :: 0 <= i < |queue| - 1 ==> queue[1..][i] == queue[i + 1];
  }

  /** Draining advances the ack barrier past every waiter and triggers them. */
  lemma {:induction false} DrainServes(e: Entry, w: World)
    requires e.ackDone.Barrier? && AllWait(e.pendingDest, w)
    ensures Drain(e, w) ==
            (e.(ackDone := Barrier(e.ackDone.id, e.ackDone.phase + |e.pendingDest|), pendingDest := []),
             w.(triggers := Served(e.pendingDest, e.ackDone.id, e.ackDone.phase, w.triggers)))
    decreases |e.pendingDest|
  {
    if e.pendingDest != [] {
      OthersWait(e.pendingDest, w, e.ackDone.AsEvent());
      DrainServes(e.(ackDone := e.ackDone.Advance(), pendingDest := e.pendingDest[1..]),
                  Trigger(w, e.pendingDest[0].toTrigger, e.ackDone.AsEvent()));
    }
  }

  /** Every waiter is triggered with its own ack phase, in order, and nothing else is triggered. */
  lemma {:induction false} ServedFacts(queue: seq<PendingOp>, ack: nat, phase: nat, w: World)
    requires AllWait(queue, w)
    ensures var w' := w.(triggers := Served(queue, ack, phase, w.triggers));
      && Grows(w, w')
      && (forall i :: 0 <= i < |queue| ==> TriggeredWith(w', queue[i].toTrigger, {Phase(ack, phase + i)}))
      && (forall u :: u in w'.triggers && u !in w.triggers ==> UserEvent(u) in Waiters(queue))
  {
    if queue != [] {
      var w1 := w.(triggers := w.triggers[queue[0].toTrigger.id := {Phase(ack, phase)}]);
      OthersWait(queue, w, {Phase(ack, phase)});
      ServedFacts(queue[1..], ack, phase + 1, w1);
      assert TriggeredWith(w1, queue[0].toTrigger, {Phase(ack, phase)});
      assert forall i :: 1 <= i < |queue| ==> queue[i] == queue[1..][i - 1];
      WaitersOfTail(queue);
    }
  }

  predicate TriggeredWith(w: World, user: UserEvent, event: Event) {
    user.UserEvent? && user.id in w.triggers && w.triggers[user.id] == event
  }

  lemma WaitersOfTail(queue: seq<PendingOp>)
    requires queue != []
    ensures Waiters(queue) == {queue[0].toTrigger} + Waiters(queue[1..])
  {
    var rest := queue[1..];
    forall user | user in Waiters(queue) ensures user in {queue[0].toTrigger} + Waiters(rest) {
      var i :| 0 <= i < |queue| && queue[i].toTrigger == user;
      assert i > 0 ==> rest[i - 1] == queue[i];
    }
    forall user | user in Waiters(rest) ensures user in Waiters(queue) {
      var i :| 0 <= i < |rest| && rest[i].toTrigger == user;
      assert rest[i] == queue[i + 1];
    }
  }

  ghost function Waiters(queue: seq<PendingOp>): set<UserEvent> {
    set i | 0 <= i < |queue| :: queue[i].toTrigger
  }

  lemma AckEffect(s: System)
    requires Invariant(s) && s.toTarget != []
    ensures var s' := Next(s, DeliverToTarget);
      && s' == s.(target := s.target.(ackDone := Barrier(AckId(s), |s.recvs|), pendingDest := []),
                  world := s.world.(triggers := s'.world.triggers), toTarget := [])
      && Grows(s.world, s'.world)
      && (forall k :: 0 <= k < |s.recvs| ==>
            TriggeredWith(s'.world, s.target.pendingDest[k].toTrigger, {Phase(AckId(s), k)}))
      && (forall u :: u in s'.world.triggers && u !in s.world.triggers ==>
            u < s.world.nextUser && UserEvent(u) in Waiters(s.target.pendingDest))
  {
    assert AllWait(s.target.pendingDest, s.world);
    DrainServes(s.target.(ackDone := Barrier(AckId(s), 0)), s.world);
    ServedFacts(s.target.pendingDest, AckId(s), 0, s.world);
  }

  lemma AckCounters(s: System)
    requires Invariant(s) && s.toTarget != []
    ensures Counters(Next(s, DeliverToTarget))
  {
    AckEffect(s);
  }

  lemma AckKeepsSends(s: System)
    requires Invariant(s) && s.toTarget != [] && Counters(Next(s, DeliverToTarget))
    ensures SendsTracked(Next(s, DeliverToTarget))
  {
    AckEffect(s);
    var s' := Next(s, DeliverToTarget);
    MatchedSendsGrow(s, s'.world);
    forall i | 0 <= i < |s.source.pendingSource| ensures Waiting(s.source.pendingSource[i].toTrigger, s'.world) {
      StillWaiting(s.source.pendingSource[i].toTrigger, s.target.pendingDest, s.world, s'.world);
    }
  }

  lemma StillWaiting(user: UserEvent, served: seq<PendingOp>, w: World, w': World)
    requires Waiting(user, w) && w'.nextUser == w.nextUser
    requires forall j :: 0 <= j < |served| ==> user != served[j].toTrigger
    requires forall u :: u in w'.triggers && u !in w.triggers ==> UserEvent(u) in Waiters(served)
    ensures Waiting(user, w')
  {
  }

  lemma AckKeepsRecvs(s: System)
    requires Invariant(s) && s.toTarget != [] && Counters(Next(s, DeliverToTarget))
    ensures RecvsTracked(Next(s, DeliverToTarget))
  {
    AckEffect(s);
    var s' := Next(s, DeliverToTarget);
    forall k | 0 <= k < |s.recvs| ensures Denotes(s'.recvs[k].result, {Phase(AckId(s), k)}, s'.world) {
      var u := s.target.pendingDest[k].toTrigger;
      assert TriggeredWith(s'.world, u, {Phase(AckId(s), k)}) && s.recvs[k].result == {User(u.id)};
    }
  }

  lemma AckKeepsRest(s: System, s': System)
    requires Invariant(s) && Counters(s') && Grows(s.world, s'.world)
    requires s' == s.(target := s'.target, world := s.world.(triggers := s'.world.triggers), toTarget := s'.toTarget)
    requires s'.target.targetReady == s.target.targetReady && s'.target.pendingDest == []
    ensures OffersInOrder(s') && CopiesPaired(s') && ArrivalsPaired(s') && WaitersDistinct(s')
    ensures Justified(s'.world, s'.fired)
  {
    JustifiedGrows(s.world, s'.world, s.fired);
  }

  lemma SendPreserves(s: System, shape: Rect, inst: nat, pre: Event)
    requires Invariant(s)
    ensures Invariant(Next(s, Send(shape, inst, pre)))
  {
    SendEffect(s, shape, inst, pre);
    if s.source.pendingDest == [] {
      SendQueuedKeepsCalls(s, shape, inst, pre);
      SendQueuedKeepsCopies(s, shape, inst, pre);
      SendQueuedKeepsQueues(s, shape, inst, pre);
    } else {
      SendMatchedKeepsCalls(s, shape, inst, pre);
      SendMatchedKeepsCopies(s, shape, inst, pre);
      SendMatchedKeepsArrivals(s, shape, inst, pre);
      SendMatchedKeepsQueues(s, shape, inst, pre);
    }
  }

  lemma RecvPreserves(s: System, shape: Rect, inst: nat, pre: Event)
    requires Invariant(s)
    ensures Invariant(Next(s, Recv(shape, inst, pre)))
  {
    RecvEffect(s, shape, inst, pre);
    ReceivedKeepsCalls(s, shape, inst, pre);
    ReceivedKeepsRecvs(s, shape, inst, pre);
    ReceivedKeepsCopies(s, shape, inst, pre);
    ReceivedKeepsOffers(s, shape, inst, pre);
    ReceivedKeepsWaiters(s, shape, inst, pre);
  }

  lemma OfferPreserves(s: System)
    requires Invariant(s) && s.toSource != []
    ensures Invariant(Next(s, DeliverToSource))
  {
    OfferEffect(s);
    if s.source.pendingSource == [] {
      OfferQueuedKeepsCalls(s);
      OfferQueuedKeepsCopies(s);
      OfferQueuedKeepsOffers(s);
    } else {
      OfferMatchedKeepsCalls(s);
      OfferMatchedKeepsCopies(s);
      OfferMatchedKeepsQueues(s);
    }
  }

  lemma AckPreserves(s: System)
    requires Invariant(s) && s.toTarget != []
    ensures Invariant(Next(s, DeliverToTarget))
  {
    AckEffect(s);
    AckCounters(s);
    AckKeepsSends(s);
    AckKeepsRecvs(s);
    AckKeepsRest(s, Next(s, DeliverToTarget));
  }

  /** Every step of either side, of the network and of the events keeps the invariant. */
  lemma NextPreserves(s: System, step: Step)
    requires Invariant(s)
    ensures Invariant(Next(s, step))
  {
    match step
    case Send(shape, inst, pre) => SendPreserves(s, shape, inst, pre);
    case Recv(shape, inst, pre) => RecvPreserves(s, shape, inst, pre);
    case DeliverToSource =>
      if s.toSource != [] {
        OfferPreserves(s);
      }
    case DeliverToTarget =>
      if s.toTarget != [] {
        AckPreserves(s);
      }
    case Fire(atom) => FirePreserves(s, atom);
  }

  lemma {:induction false} RunInvariant(steps: seq<Step>)
    ensures Invariant(Run(steps))
  {
    if steps == [] {
      InitialInvariant();
    } else {
      RunInvariant(steps[..|steps| - 1]);
      NextPreserves(Run(steps[..|steps| - 1]), steps[|steps| - 1]);
    }
  }
}
