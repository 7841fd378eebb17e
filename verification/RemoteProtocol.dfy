/**
 Whole runs of the rendezvous protocol between two address spaces, for one key: sends at the
 source, receives at the target, delivery of name messages (in order in each direction) and
 firing of events, in any interleaving.
 */
module RemoteProtocol {
  import opened TiledArray
  import opened Realm
  import opened Rendezvous

  /** One call of the protocol as its caller sees it. */
  datatype Call = Call(shape: Rect, inst: nat, pre: Event, result: Event)

  datatype System = System(
    source: Entry,
    target: Entry,
    world: World,
    toSource: seq<Names>,
    toTarget: seq<Names>,
    sends: seq<Call>,
    recvs: seq<Call>,
    fired: set<Atom>)

  datatype Step =
    | Send(shape: Rect, inst: nat, pre: Event)
    | Recv(shape: Rect, inst: nat, pre: Event)
    | DeliverToSource
    | DeliverToTarget
    | Fire(atom: Atom)

  const INITIAL := System(NEW_ENTRY, NEW_ENTRY, INITIAL_WORLD, [], [], [], [], {})

  /** A step that is not possible leaves the system as it is. */
  function Next(s: System, step: Step): System {
    match step
    case Send(shape, inst, pre) =>
      var out := FromSource(s.source, s.world, true, shape, Inst(inst), pre);
      s.(source := out.entry, world := out.world, toTarget := s.toTarget + out.spawned,
         sends := s.sends + [Call(shape, inst, pre, out.result)])
    case Recv(shape, inst, pre) =>
      var out := ToTarget(s.target, s.world, true, shape, Inst(inst), pre);
      s.(target := out.entry, world := out.world, toSource := s.toSource + out.spawned,
         recvs := s.recvs + [Call(shape, inst, pre, out.result)])
    case DeliverToSource =>
      if s.toSource == [] then s
      else
        var (entry, world) := OnNames(s.source, s.world, s.toSource[0]);
        s.(source := entry, world := world, toSource := s.toSource[1..])
    case DeliverToTarget =>
      if s.toTarget == [] then s
      else
        var (entry, world) := OnNames(s.target, s.world, s.toTarget[0]);
        s.(target := entry, world := world, toTarget := s.toTarget[1..])
    case Fire(atom) =>
      if Enabled(s.world, s.fired, atom) then s.(fired := s.fired + {atom}) else s
  }

  function Run(steps: seq<Step>): System {
    if steps == [] then INITIAL else Next(Run(steps[..|steps| - 1]), steps[|steps| - 1])
  }

  // ----- invariant

  /** How the name of receive k reaches the source. */
  function Offer(ready: nat, k: nat, recv: Call): PendingOp {
    PendingOp({Phase(ready, k)}, NoUserEvent, Inst(recv.inst))
  }

  function AsOffer(names: Names): PendingOp {
    PendingOp(names.barrier.AsEvent(), NoUserEvent, names.instance)
  }

  /** Copies issued so far. */
  function Copies(s: System): nat {
    |s.world.copies|
  }

  function AckId(s: System): nat {
    if s.source.ackDone.Barrier? then s.source.ackDone.id else 0
  }

  function ReadyId(s: System): nat {
    if s.target.targetReady.Barrier? then s.target.targetReady.id else 0
  }

  predicate AckKnown(s: System) {
    s.target.ackDone.Barrier?
  }

  /** Counters, barriers and which queues can hold anything. */
  ghost predicate Counters(s: System) {
    var c, n, m := Copies(s), |s.sends|, |s.recvs|;
    && !s.world.fault
    && n == c + |s.source.pendingSource|
    && m == c + |s.source.pendingDest| + |s.toSource|
    && (s.source.pendingSource == [] || s.source.pendingDest == [])
    && s.target.pendingSource == []
    && (if n == 0 then s.source.ackDone.NoBarrier? && s.toTarget == [] && !AckKnown(s)
        else s.source.initialized && s.source.shape == s.sends[0].shape
             && s.source.ackDone == Barrier(AckId(s), c) && AckId(s) < s.world.nextBarrier)
    && (m == 0 ==> s.target.targetReady.NoBarrier?)
    && (m > 0 ==> s.target.targetReady == Barrier(ReadyId(s), m) && ReadyId(s) < s.world.nextBarrier)
    && (n > 0 && m > 0 ==> AckId(s) != ReadyId(s))
    && (n > 0 && !AckKnown(s) ==> s.toTarget == [Names(Barrier(AckId(s), 0), NoInst)])
    && (AckKnown(s) ==> s.toTarget == [] && s.target.ackDone == Barrier(AckId(s), m) && s.target.pendingDest == [])
    && (!AckKnown(s) ==> |s.target.pendingDest| == m)
    && (n == 0 ==> !s.source.initialized)
    && (forall u :: u in s.world.triggers ==> u < s.world.nextUser)
  }

  /** Sends that have been matched return their copy; the others wait in the queue, in order. */
  ghost predicate SendsTracked(s: System)
    requires Counters(s)
  {
    var c := Copies(s);
    && (forall k :: 0 <= k < c ==> Denotes(s.sends[k].result, {CopyDone(k)}, s.world))
    && (forall i :: 0 <= i < |s.source.pendingSource| ==>
          var op := s.source.pendingSource[i];
          && Waiting(op.toTrigger, s.world) && s.sends[c + i].result == op.toTrigger.AsEvent()
          && op.precondition == s.sends[c + i].pre && op.partner == Inst(s.sends[c + i].inst))
  }

  /** Receive k returns ack phase k, or waits for the ack barrier to become known. */
  ghost predicate RecvsTracked(s: System)
    requires Counters(s)
  {
    && (AckKnown(s) ==> forall k :: 0 <= k < |s.recvs| ==>
          Denotes(s.recvs[k].result, {Phase(AckId(s), k)}, s.world))
    && (!AckKnown(s) ==> forall k :: 0 <= k < |s.recvs| ==>
          && Waiting(s.target.pendingDest[k].toTrigger, s.world)
          && s.recvs[k].result == s.target.pendingDest[k].toTrigger.AsEvent())
  }

  /** The names of receives c, c + 1, ... are queued at the source, then in flight, in order. */
  predicate OffersListed(queued: seq<PendingOp>, inFlight: seq<Names>, recvs: seq<Call>, ready: nat, c: nat) {
    var d := |queued|;
    && c + d + |inFlight| <= |recvs|
    && (forall i :: 0 <= i < d ==> queued[i] == Offer(ready, c + i, recvs[c + i]))
    && (forall i :: 0 <= i < |inFlight| ==>
          inFlight[i] == Names(Barrier(ready, c + d + i), Inst(recvs[c + d + i].inst)))
  }

  ghost predicate OffersInOrder(s: System)
    requires Counters(s)
  {
    OffersListed(s.source.pendingDest, s.toSource, s.recvs, ReadyId(s), Copies(s))
  }

  /** Copy k pairs send k with receive k. */
  ghost predicate CopiesPaired(s: System)
    requires Counters(s)
  {
    forall k :: 0 <= k < Copies(s) ==>
      s.world.copies[k] == CopyOp(s.sends[0].shape, Inst(s.sends[k].inst), Inst(s.recvs[k].inst),
                                  {Phase(ReadyId(s), k)} + s.sends[k].pre)
  }

  /** Ready phase k is arrived at once, by receive k; ack phase k once, by copy k; nothing else is. */
  ghost predicate ArrivalsPaired(s: System)
    requires Counters(s)
  {
    && (forall k: nat :: k < |s.recvs| ==>
          (ReadyId(s), k) in s.world.arrivals && s.world.arrivals[(ReadyId(s), k)] == s.recvs[k].pre)
    && (forall k: nat :: k < Copies(s) ==>
          (AckId(s), k) in s.world.arrivals && s.world.arrivals[(AckId(s), k)] == {CopyDone(k)})
    && (forall b: nat, p: nat :: (b, p) in s.world.arrivals ==>
          (|s.recvs| > 0 && b == ReadyId(s) && p < |s.recvs|) || (|s.sends| > 0 && b == AckId(s) && p < Copies(s)))
  }

  /** No two waiting calls share a user event. */
  ghost predicate WaitersDistinct(s: System) {
    && (forall i, j :: 0 <= i < j < |s.source.pendingSource| ==>
          s.source.pendingSource[i].toTrigger != s.source.pendingSource[j].toTrigger)
    && (forall i, j :: 0 <= i < j < |s.target.pendingDest| ==>
          s.target.pendingDest[i].toTrigger != s.target.pendingDest[j].toTrigger)
    && (forall i, j :: 0 <= i < |s.source.pendingSource| && 0 <= j < |s.target.pendingDest| ==>
          s.source.pendingSource[i].toTrigger != s.target.pendingDest[j].toTrigger)
  }

  ghost predicate Invariant(s: System) {
    && Counters(s) && SendsTracked(s) && RecvsTracked(s) && OffersInOrder(s)
    && CopiesPaired(s) && ArrivalsPaired(s) && WaitersDistinct(s) && Justified(s.world, s.fired)
  }
}
