/**
 The rendezvous calls when both sides live in one address space and share one entry: the copies
 issued are the zip of the sends and the receives.
 */
module LocalProtocol {
  import opened TiledArray
  import opened Realm
  import opened Rendezvous
  import opened RemoteProtocol

  datatype Local = Local(entry: Entry, world: World, sends: seq<Call>, recvs: seq<Call>, fired: set<Atom>)

  datatype LocalStep =
    | LocalSend(shape: Rect, inst: nat, pre: Event)
    | LocalRecv(shape: Rect, inst: nat, pre: Event)
    | LocalFire(atom: Atom)

  const LOCAL_INITIAL := Local(NEW_ENTRY, INITIAL_WORLD, [], [], {})

  function LocalNext(s: Local, step: LocalStep): Local {
    match step
    case LocalSend(shape, inst, pre) =>
      var out := FromSource(s.entry, s.world, false, shape, Inst(inst), pre);
      s.(entry := out.entry, world := out.world, sends := s.sends + [Call(shape, inst, pre, out.result)])
    case LocalRecv(shape, inst, pre) =>
      var out := ToTarget(s.entry, s.world, false, shape, Inst(inst), pre);
      s.(entry := out.entry, world := out.world, recvs := s.recvs + [Call(shape, inst, pre, out.result)])
    case LocalFire(atom) =>
      if Enabled(s.world, s.fired, atom) then s.(fired := s.fired + {atom}) else s
  }

  function LocalRun(steps: seq<LocalStep>): Local {
    if steps == [] then LOCAL_INITIAL else LocalNext(LocalRun(steps[..|steps| - 1]), steps[|steps| - 1])
  }

  /** Calls from number c on wait in the queue, in order, each with its own untriggered user event. */
  ghost predicate Queued(queue: seq<PendingOp>, calls: seq<Call>, c: nat, w: World) {
    && |calls| == c + |queue|
    && (forall i :: 0 <= i < |queue| ==>
          && queue[i].precondition == calls[c + i].pre && queue[i].partner == Inst(calls[c + i].inst)
          && Waiting(queue[i].toTrigger, w) && calls[c + i].result == queue[i].toTrigger.AsEvent())
    && (forall i, j :: 0 <= i < j < |queue| ==> queue[i].toTrigger != queue[j].toTrigger)
  }

  /** Calls below number c have been matched; each denotes the copy that matched it. */
  ghost predicate Matched(calls: seq<Call>, c: nat, w: World) {
    c <= |calls| && forall k :: 0 <= k < c ==> Denotes(calls[k].result, {CopyDone(k)}, w)
  }

  ghost predicate LocalInvariant(s: Local) {
    var c := |s.world.copies|;
    && !s.world.fault && s.world.arrivals == map[]
    && s.entry.ackDone.NoBarrier? && s.entry.targetReady.NoBarrier?
    && (s.entry.pendingSource == [] || s.entry.pendingDest == [])
    && Queued(s.entry.pendingSource, s.sends, c, s.world) && Queued(s.entry.pendingDest, s.recvs, c, s.world)
    && Matched(s.sends, c, s.world) && Matched(s.recvs, c, s.world)
    && (forall k :: 0 <= k < c ==>
          s.world.copies[k] == CopyOp(s.entry.shape, Inst(s.sends[k].inst), Inst(s.recvs[k].inst),
                                      s.sends[k].pre + s.recvs[k].pre))
    && (c > 0 || s.sends != [] || s.recvs != [] ==> s.entry.initialized)
    && (forall u :: u in s.world.triggers ==> u < s.world.nextUser)
    && Justified(s.world, s.fired)
  }

  // ----- the effect of a call on one side, the other side being the one that waits

  lemma MatchedGrows(calls: seq<Call>, c: nat, w: World, w': World)
    requires Matched(calls, c, w) && Grows(w, w')
    ensures Matched(calls, c, w')
  {
    forall k | 0 <= k < c ensures Denotes(calls[k].result, {CopyDone(k)}, w') {
      DenotesGrows(calls[k].result, {CopyDone(k)}, w, w');
    }
  }

  lemma MatchedAppend(calls: seq<Call>, call: Call, c: nat, w: World)
    requires Matched(calls, c, w)
    ensures Matched(calls + [call], c, w)
  {
    assert forall k :: 0 <= k < c ==> (calls + [call])[k] == calls[k];
  }

  /** The head of a queue is matched by copy c. */
  lemma QueueServed(queue: seq<PendingOp>, calls: seq<Call>, c: nat, w: World, w': World)
    requires queue != [] && Queued(queue, calls, c, w) && Matched(calls, c, w)
    requires Grows(w, w') && w'.nextUser == w.nextUser
    requires w'.triggers == w.triggers[queue[0].toTrigger.id := {CopyDone(c)}]
    ensures Queued(queue[1..], calls, c + 1, w') && Matched(calls, c + 1, w')
  {
    var rest := queue[1..];
    assert forall i :: 0 <= i < |rest| ==> rest[i] == queue[i + 1];
    MatchedGrows(calls, c, w, w');
    assert Waiting(queue[0].toTrigger, w) && calls[c + 0].result == queue[0].toTrigger.AsEvent();
    assert queue[0].toTrigger.id in w'.triggers;
    assert Denotes(calls[c].result, {CopyDone(c)}, w');
  }

  /** A call that finds nothing to match joins its queue with a fresh user event. */
  lemma QueueJoined(queue: seq<PendingOp>, calls: seq<Call>, c: nat, w: World, call: Call)
    requires Queued(queue, calls, c, w) && (forall u :: u in w.triggers ==> u < w.nextUser)
    requires call.result == {User(w.nextUser)}
    ensures var w' := w.(nextUser := w.nextUser + 1);
      Queued(queue + [PendingOp(call.pre, UserEvent(w.nextUser), Inst(call.inst))], calls + [call], c, w')
  {
    var queue' := queue + [PendingOp(call.pre, UserEvent(w.nextUser), Inst(call.inst))];
    assert forall i :: 0 <= i < |queue| ==> queue'[i] == queue[i] && (calls + [call])[c + i] == calls[c + i];
  }

  lemma SendJoins(s: Local, shape: Rect, inst: nat, pre: Event)
    requires LocalInvariant(s) && s.entry.pendingDest == []
    ensures LocalInvariant(LocalNext(s, LocalSend(shape, inst, pre)))
  {
    var s', c := LocalNext(s, LocalSend(shape, inst, pre)), |s.world.copies|;
    JustifiedGrows(s.world, s'.world, s.fired);
    var call := s'.sends[|s.sends|];
    MatchedAppend(s.sends, call, c, s.world);
    QueueJoined(s.entry.pendingSource, s.sends, c, s.world, call);
  }

  lemma SendServed(s: Local, shape: Rect, inst: nat, pre: Event)
    requires LocalInvariant(s) && s.entry.pendingDest != []
    ensures LocalInvariant(LocalNext(s, LocalSend(shape, inst, pre)))
  {
    var s', c := LocalNext(s, LocalSend(shape, inst, pre)), |s.world.copies|;
    assert Waiting(s.entry.pendingDest[0].toTrigger, s.world);
    JustifiedGrows(s.world, s'.world, s.fired);
    MatchedAppend(s.sends, s'.sends[|s.sends|], c, s.world);
    QueueServed(s.entry.pendingDest, s.recvs, c, s.world, s'.world);
    MatchedGrows(s'.sends, c, s.world, s'.world);
  }

  lemma SendKeeps(s: Local, shape: Rect, inst: nat, pre: Event)
    requires LocalInvariant(s)
    ensures LocalInvariant(LocalNext(s, LocalSend(shape, inst, pre)))
  {
    if s.entry.pendingDest == [] {
      SendJoins(s, shape, inst, pre);
    } else {
      SendServed(s, shape, inst, pre);
    }
  }

  lemma RecvJoins(s: Local, shape: Rect, inst: nat, pre: Event)
    requires LocalInvariant(s) && s.entry.pendingSource == []
    ensures LocalInvariant(LocalNext(s, LocalRecv(shape, inst, pre)))
  {
    var s', c := LocalNext(s, LocalRecv(shape, inst, pre)), |s.world.copies|;
    JustifiedGrows(s.world, s'.world, s.fired);
    var call := s'.recvs[|s.recvs|];
    MatchedAppend(s.recvs, call, c, s.world);
    QueueJoined(s.entry.pendingDest, s.recvs, c, s.world, call);
  }

  lemma RecvServed(s: Local, shape: Rect, inst: nat, pre: Event)
    requires LocalInvariant(s) && s.entry.pendingSource != []
    ensures LocalInvariant(LocalNext(s, LocalRecv(shape, inst, pre)))
  {
    var s', c := LocalNext(s, LocalRecv(shape, inst, pre)), |s.world.copies|;
    assert Waiting(s.entry.pendingSource[0].toTrigger, s.world);
    JustifiedGrows(s.world, s'.world, s.fired);
    MatchedAppend(s.recvs, s'.recvs[|s.recvs|], c, s.world);
    QueueServed(s.entry.pendingSource, s.sends, c, s.world, s'.world);
    MatchedGrows(s'.recvs, c, s.world, s'.world);
  }

  lemma RecvKeeps(s: Local, shape: Rect, inst: nat, pre: Event)
    requires LocalInvariant(s)
    ensures LocalInvariant(LocalNext(s, LocalRecv(shape, inst, pre)))
  {
    if s.entry.pendingSource == [] {
      RecvJoins(s, shape, inst, pre);
    } else {
      RecvServed(s, shape, inst, pre);
    }
  }

  lemma {:induction false} LocalRunInvariant(steps: seq<LocalStep>)
    ensures LocalInvariant(LocalRun(steps))
  {
    if steps != [] {
      var s := LocalRun(steps[..|steps| - 1]);
      LocalRunInvariant(steps[..|steps| - 1]);
      match steps[|steps| - 1]
      case LocalSend(shape, inst, pre) => SendKeeps(s, shape, inst, pre);
      case LocalRecv(shape, inst, pre) => RecvKeeps(s, shape, inst, pre);
      case LocalFire(atom) =>
        if Enabled(s.world, s.fired, atom) {
          JustifiedFires(s.world, s.fired, atom);
        }
    }
  }

  // ----- what holds in every run

  /** Pairwise combination of the sends and the receives, as far as both reach. */
  function Zip(shape: Rect, sends: seq<Call>, recvs: seq<Call>): seq<CopyOp> {
    var n := if |sends| <= |recvs| then |sends| else |recvs|;
    seq(n, k requires 0 <= k < n =>
      CopyOp(shape, Inst(sends[k].inst), Inst(recvs[k].inst), sends[k].pre + recvs[k].pre))
  }

  /**
   In one address space the copies are exactly the zip of the calls; both calls of a pair return that
   pair's copy or a user event triggered with it; one queue is empty; and nothing faults, so no user
   event is triggered twice.
   */
  lemma LocalRefinesZip(steps: seq<LocalStep>)
    ensures var s := LocalRun(steps);
      && s.world.copies == Zip(s.entry.shape, s.sends, s.recvs)
      && Matched(s.sends, |s.world.copies|, s.world) && Matched(s.recvs, |s.world.copies|, s.world)
      && (s.entry.pendingSource == [] || s.entry.pendingDest == [])
      && !s.world.fault && s.world.arrivals == map[]
  {
    LocalRunInvariant(steps);
    var s := LocalRun(steps);
    assert |s.world.copies| == |Zip(s.entry.shape, s.sends, s.recvs)|;
  }

  lemma LocalCopyAfter(s: Local, k: nat)
    requires LocalInvariant(s) && k < |s.world.copies| && CopyDone(k) in s.fired
    ensures s.sends[k].pre <= s.fired && s.recvs[k].pre <= s.fired
  {
    assert Enabled(s.world, s.fired, CopyDone(k));
  }

  /** The event a call returned fires only after the call's own copy, hence after both preconditions. */
  lemma LocalCausality(steps: seq<LocalStep>, k: nat)
    ensures var s := LocalRun(steps);
      (k < |s.sends| && s.sends[k].result <= s.fired) || (k < |s.recvs| && s.recvs[k].result <= s.fired) ==>
        && k < |s.world.copies| && k < |s.sends| && k < |s.recvs|
        && CopyDone(k) in s.fired && s.sends[k].pre <= s.fired && s.recvs[k].pre <= s.fired
  {
    LocalRunInvariant(steps);
    var s := LocalRun(steps);
    if k < |s.sends| && s.sends[k].result <= s.fired {
      ResultFires(s.entry.pendingSource, s.sends, |s.world.copies|, s, k);
      LocalCopyAfter(s, k);
    }
    if k < |s.recvs| && s.recvs[k].result <= s.fired {
      ResultFires(s.entry.pendingDest, s.recvs, |s.world.copies|, s, k);
      LocalCopyAfter(s, k);
    }
  }

  lemma ResultFires(queue: seq<PendingOp>, calls: seq<Call>, c: nat, s: Local, k: nat)
    requires Queued(queue, calls, c, s.world) && Matched(calls, c, s.world) && Justified(s.world, s.fired)
    requires k < |calls| && calls[k].result <= s.fired
    ensures k < c && CopyDone(k) in s.fired
  {
    if k >= c {
      WaitingHasNotFired(queue[k - c].toTrigger, s.world, s.fired);
    } else {
      var event: Event := {CopyDone(k)};
      DenotedFires(calls[k].result, event, s.world, s.fired);
      assert CopyDone(k) in event;
    }
  }

  /** The entry keeps the bounds of the call that came first. */
  lemma {:induction false} LocalBounds(steps: seq<LocalStep>)
    ensures var s := LocalRun(steps);
      s.entry.initialized ==>
        (s.sends != [] && s.sends[0].shape == s.entry.shape) || (s.recvs != [] && s.recvs[0].shape == s.entry.shape)
  {
    if steps != [] {
      LocalBounds(steps[..|steps| - 1]);
      LocalRunInvariant(steps[..|steps| - 1]);
    }
  }

  // ----- progress

  function LocalFireSteps(atoms: seq<Atom>): seq<LocalStep> {
    seq(|atoms|, i requires 0 <= i < |atoms| => LocalFire(atoms[i]))
  }

  lemma LocalRunAppend(steps: seq<LocalStep>, step: LocalStep)
    ensures LocalRun(steps + [step]) == LocalNext(LocalRun(steps), step)
  {
    assert (steps + [step])[..|steps|] == steps;
  }

  lemma {:induction false} LocalRunFireAll(steps: seq<LocalStep>, atoms: seq<Atom>)
    ensures LocalRun(steps + LocalFireSteps(atoms)) ==
            LocalRun(steps).(fired := FireAll(LocalRun(steps).world, LocalRun(steps).fired, atoms))
  {
    if atoms == [] {
      assert steps + LocalFireSteps(atoms) == steps;
    } else {
      var n := |atoms| - 1;
      LocalRunFireAll(steps, atoms[..n]);
      assert steps + LocalFireSteps(atoms) == steps + LocalFireSteps(atoms[..n]) + [LocalFire(atoms[n])];
      LocalRunAppend(steps + LocalFireSteps(atoms[..n]), LocalFire(atoms[n]));
    }
  }

  lemma PairFires(w: World, fired: set<Atom>, k: nat, sent: Event, received: Event) returns (atoms: seq<Atom>)
    requires k < |w.copies| && w.copies[k].precondition <= fired
    requires Denotes(sent, {CopyDone(k)}, w) && Denotes(received, {CopyDone(k)}, w)
    ensures Internal(atoms) && sent <= FireAll(w, fired, atoms) && received <= FireAll(w, fired, atoms)
  {
    FireOne(w, fired, [], CopyDone(k));
    var first := FireDenoted(w, fired, [] + [CopyDone(k)], sent, {CopyDone(k)});
    atoms := FireDenoted(w, fired, first, received, {CopyDone(k)});
  }

  lemma PairIsCopied(s: Local, k: nat)
    requires LocalInvariant(s) && k < |s.sends| && k < |s.recvs|
    ensures k < |s.world.copies| && s.world.copies[k].precondition == s.sends[k].pre + s.recvs[k].pre
    ensures Denotes(s.sends[k].result, {CopyDone(k)}, s.world) && Denotes(s.recvs[k].result, {CopyDone(k)}, s.world)
  {
  }

  /** Once both calls of a pair have been made and their preconditions have fired, firing completes both. */
  lemma LocalPairCompletes(steps: seq<LocalStep>, k: nat) returns (atoms: seq<Atom>)
    requires k < |LocalRun(steps).sends| && k < |LocalRun(steps).recvs|
    requires LocalRun(steps).sends[k].pre <= LocalRun(steps).fired
    requires LocalRun(steps).recvs[k].pre <= LocalRun(steps).fired
    ensures Internal(atoms) && LocalRun(steps).sends[k].result <= LocalRun(steps + LocalFireSteps(atoms)).fired
    ensures LocalRun(steps).recvs[k].result <= LocalRun(steps + LocalFireSteps(atoms)).fired
  {
    LocalRunInvariant(steps);
    var s := LocalRun(steps);
    PairIsCopied(s, k);
    atoms := PairFires(s.world, s.fired, k, s.sends[k].result, s.recvs[k].result);
    LocalRunFireAll(steps, atoms);
  }
}
