/**
 The rendezvous calls of ReshardManager on the entry of one key (reshard_manager.cc).  Each call
 runs under the manager's lock, so it is one atomic step.
 */
module Rendezvous {
  import opened TiledArray
  import opened Realm

  datatype PendingOp = PendingOp(precondition: Event, toTrigger: UserEvent, partner: Instance)

  /** Arguments of the name exchange task. */
  datatype Names = Names(barrier: Barrier, instance: Instance)

  /** State of one entry of point_to_point_reshards_. */
  datatype Entry = Entry(
    initialized: bool,
    shape: Rect,
    targetReady: Barrier,
    ackDone: Barrier,
    pendingSource: seq<PendingOp>,
    pendingDest: seq<PendingOp>)

  const NEW_ENTRY := Entry(false, Rect([], []), NoBarrier, NoBarrier, [], [])

  /** What a call leaves behind: entry, world, tasks spawned on the peer, and the event it returns. */
  datatype Outcome = Outcome(entry: Entry, world: World, spawned: seq<Names>, result: Event)

  function Initialize(e: Entry, shape: Rect): Entry {
    if e.initialized then e else e.(initialized := true, shape := shape)
  }

  /** RemoteCopyNextPendingToTarget. */
  function RemoteCopy(e: Entry, w: World, src: Instance, dst: Instance, ready: Event, srcPre: Event): Outcome {
    var issued := IssueCopy(w, CopyOp(e.shape, src, dst, ready + srcPre));
    var post := LastCopy(issued);
    var checked := Assert(issued, e.ackDone.Barrier?);
    Outcome(e.(ackDone := e.ackDone.Advance()), Arrive(checked, e.ackDone, post), [], post)
  }

  /** RendezvousReshardFromLocalSource: a send, from instance `inst`, of data valid after `pre`. */
  function FromSource(entry: Entry, world: World, remote: bool, shape: Rect, inst: Instance, pre: Event): Outcome {
    var e0 := Initialize(entry, shape);
    var announce := remote && e0.ackDone.NoBarrier?;
    var (w1, barrier) := if announce then CreateBarrier(world) else (world, e0.ackDone);
    var e := e0.(ackDone := barrier);
    var spawned := if announce then [Names(barrier, NoInst)] else [];
    if e.pendingDest == [] then
      var (w2, user) := CreateUserEvent(w1);
      Outcome(e.(pendingSource := e.pendingSource + [PendingOp(pre, user, inst)]), w2, spawned, user.AsEvent())
    else
      var op := e.pendingDest[0];
      var popped := e.(pendingDest := e.pendingDest[1..]);
      if remote then
        RemoteCopy(popped, w1, inst, op.partner, op.precondition, pre).(spawned := spawned)
      else
        var issued := IssueCopy(w1, CopyOp(e.shape, inst, op.partner, op.precondition + pre));
        var checked := Assert(issued, e.ackDone.NoBarrier?);
        Outcome(popped, Trigger(checked, op.toTrigger, LastCopy(issued)), spawned, LastCopy(issued))
  }

  /** RendezvousReshardToLocalTarget: a receive, into instance `inst`, which is free after `pre`. */
  function ToTarget(entry: Entry, world: World, remote: bool, shape: Rect, inst: Instance, pre: Event): Outcome {
    var e := Initialize(entry, shape);
    if e.pendingSource != [] then
      var op := e.pendingSource[0];
      var issued := IssueCopy(world, CopyOp(e.shape, op.partner, inst, op.precondition + pre));
      var checked := Assert(issued, op.toTrigger.UserEvent?);
      Outcome(e.(pendingSource := e.pendingSource[1..]), Trigger(checked, op.toTrigger, LastCopy(issued)), [],
              LastCopy(issued))
    else
      var (w1, ready) := if remote && e.targetReady.NoBarrier? then CreateBarrier(world) else (world, e.targetReady);
      var spawned := if remote then [Names(ready, inst)] else [];
      var w2 := if remote then Arrive(w1, ready, pre) else w1;
      var e1 := if remote then e.(targetReady := ready.Advance()) else e;
      if e1.ackDone.NoBarrier? then
        var (w3, user) := CreateUserEvent(w2);
        Outcome(e1.(pendingDest := e1.pendingDest + [PendingOp(pre, user, inst)]), w3, spawned, user.AsEvent())
      else
        Outcome(e1.(ackDone := e1.ackDone.Advance()), w2, spawned, e1.ackDone.AsEvent())
  }

  /** The drain loop of ReceivePointToPointNames. */
  function Drain(e: Entry, w: World): (Entry, World)
    decreases |e.pendingDest|
  {
    if e.pendingDest == [] then (e, w)
    else
      var op := e.pendingDest[0];
      var checked := Assert(w, op.toTrigger.UserEvent?);
      Drain(e.(ackDone := e.ackDone.Advance(), pendingDest := e.pendingDest[1..]),
            Trigger(checked, op.toTrigger, e.ackDone.AsEvent()))
  }

  /** ReceivePointToPointNames. */
  function OnNames(e: Entry, w: World, names: Names): (Entry, World) {
    var checked := Assert(w, names.barrier.Barrier?);
    if names.instance.Inst? then
      if e.pendingSource != [] then
        var op := e.pendingSource[0];
        var out := RemoteCopy(e, checked, op.partner, names.instance, names.barrier.AsEvent(), op.precondition);
        (out.entry.(pendingSource := e.pendingSource[1..]), Trigger(out.world, op.toTrigger, out.result))
      else
        (e.(pendingDest := e.pendingDest + [PendingOp(names.barrier.AsEvent(), NoUserEvent, names.instance)]), checked)
    else
      Drain(e.(ackDone := names.barrier), checked)
  }

  /** The mutable entry and the calls that update it in place. */
  class PointToPointReshard {
    var initialized: bool
    var shape: Rect
    var targetReady: Barrier
    var ackDone: Barrier
    var pendingSource: seq<PendingOp>
    var pendingDest: seq<PendingOp>

    function State(): Entry
      reads this
    {
      Entry(initialized, shape, targetReady, ackDone, pendingSource, pendingDest)
    }

    constructor ()
      ensures State() == NEW_ENTRY
    {
      initialized, shape := false, Rect([], []);
      targetReady, ackDone := NoBarrier, NoBarrier;
      pendingSource, pendingDest := [], [];
    }

    method RemoteCopyNextPendingToTarget(rt: Runtime<Names>, src: Instance, dst: Instance,
                                         readyBarrier: Event, srcPrecondition: Event)
      returns (postcondition: Event)
      modifies this, rt
      ensures rt.outbox == old(rt.outbox)
      ensures var out := RemoteCopy(old(State()), old(rt.world), src, dst, readyBarrier, srcPrecondition);
        State() == out.entry && rt.world == out.world && postcondition == out.result
    {
      postcondition := rt.Copy(CopyOp(shape, src, dst, readyBarrier + srcPrecondition));
      rt.Check(ackDone.Barrier?);
      rt.ArriveAt(ackDone, postcondition);
      ackDone := ackDone.Advance();
    }

    method ReceivePointToPointNames(rt: Runtime<Names>, barrier: Barrier, instance: Instance)
      modifies this, rt
      ensures rt.outbox == old(rt.outbox)
      ensures (State(), rt.world) == OnNames(old(State()), old(rt.world), Names(barrier, instance))
    {
      rt.Check(barrier.Barrier?);
      if instance.Inst? {
        if pendingSource != [] {
          var op := pendingSource[0];
          var postcondition :=
            RemoteCopyNextPendingToTarget(rt, op.partner, instance, barrier.AsEvent(), op.precondition);
          rt.TriggerEvent(op.toTrigger, postcondition);
          pendingSource := pendingSource[1..];
        } else {
          pendingDest := pendingDest + [PendingOp(barrier.AsEvent(), NoUserEvent, instance)];
        }
      } else {
        ackDone := barrier;
        ghost var entry, world := State(), rt.world;
        while pendingDest != []
          invariant Drain(State(), rt.world) == Drain(entry, world)
          invariant rt.outbox == old(rt.outbox)
          decreases |pendingDest|
        {
          var op := pendingDest[0];
          var postcondition := ackDone.AsEvent();
          ackDone := ackDone.Advance();
          rt.Check(op.toTrigger.UserEvent?);
          rt.TriggerEvent(op.toTrigger, postcondition);
          pendingDest := pendingDest[1..];
        }
      }
    }

    method ReshardFromLocalSource(rt: Runtime<Names>, remote: bool, bounds: Rect, instance: Instance,
                                  precondition: Event)
      returns (postcondition: Event)
      modifies this, rt
      ensures var out := FromSource(old(State()), old(rt.world), remote, bounds, instance, precondition);
        && State() == out.entry && rt.world == out.world && rt.outbox == old(rt.outbox) + out.spawned
        && postcondition == out.result
    {
      if !initialized {
        shape := bounds;
        initialized := true;
      }
      if remote && ackDone.NoBarrier? {
        ackDone := rt.NewBarrier();
        rt.Spawn(Names(ackDone, NoInst));
      }
      if pendingDest == [] {
        var pending := rt.NewUserEvent();
        pendingSource := pendingSource + [PendingOp(precondition, pending, instance)];
        return pending.AsEvent();
      }
      var op := pendingDest[0];
      if remote {
        postcondition := RemoteCopyNextPendingToTarget(rt, instance, op.partner, op.precondition, precondition);
      } else {
        postcondition := rt.Copy(CopyOp(shape, instance, op.partner, op.precondition + precondition));
        rt.Check(ackDone.NoBarrier?);
        rt.TriggerEvent(op.toTrigger, postcondition);
      }
      pendingDest := pendingDest[1..];
    }

    method ReshardToLocalTarget(rt: Runtime<Names>, remote: bool, bounds: Rect, instance: Instance,
                                precondition: Event)
      returns (postcondition: Event)
      modifies this, rt
      ensures var out := ToTarget(old(State()), old(rt.world), remote, bounds, instance, precondition);
        && State() == out.entry && rt.world == out.world && rt.outbox == old(rt.outbox) + out.spawned
        && postcondition == out.result
    {
      if !initialized {
        shape := bounds;
        initialized := true;
      }
      if pendingSource != [] {
        var op := pendingSource[0];
        postcondition := rt.Copy(CopyOp(shape, op.partner, instance, op.precondition + precondition));
        rt.Check(op.toTrigger.UserEvent?);
        rt.TriggerEvent(op.toTrigger, postcondition);
        pendingSource := pendingSource[1..];
        return;
      }
      if remote {
        if targetReady.NoBarrier? {
          targetReady := rt.NewBarrier();
        }
        rt.Spawn(Names(targetReady, instance));
        rt.ArriveAt(targetReady, precondition);
        targetReady := targetReady.Advance();
      }
      if ackDone.NoBarrier? {
        // without the ack barrier the receive cannot name its phase yet
        var pending := rt.NewUserEvent();
        pendingDest := pendingDest + [PendingOp(precondition, pending, instance)];
        return pending.AsEvent();
      }
      postcondition := ackDone.AsEvent();
      ackDone := ackDone.Advance();
    }
  }
}
