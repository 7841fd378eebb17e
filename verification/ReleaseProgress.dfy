/**
 Handles that are gone are released: once an open-ended handle and all below it have been destroyed and
 what was added to them has fired, firing their events alone releases whoever waits for them.
 */
module ReleaseProgress {
  import opened Shape
  import opened Realm
  import opened Stores
  import opened Release

  // ----- what handles wait for

  /** The event waits only for user events that exist. */
  ghost predicate Exists(event: Event, w: World) {
    forall u: nat :: User(u) in event ==> u < w.nextUser
  }

  /** Steps add events that exist. */
  ghost predicate StepExists(f: Forest, step: Step) {
    step.Add? ==> Exists(step.event, f.world)
  }

  ghost predicate AllExist(f: Forest, steps: seq<Step>) {
    forall i :: 0 <= i < |steps| ==> StepExists(RunFrom(f, steps[..i]), steps[i])
  }

  /** Handles are numbered as they are taken, and wait for what they were taken with and what has been added. */
  ghost predicate Ordered(f: Forest) {
    && (forall g, h :: 0 <= g < h < |f.handles| ==> OlderFirst(f, g, h))
    && (forall h :: 0 <= h < |f.handles| ==> OrderedHandle(f, h))
  }

  predicate OlderFirst(f: Forest, g: nat, h: nat)
    requires g < |f.handles| && h < |f.handles|
  {
    && f.handles[g].Own().UserEvent? && f.handles[h].Own().UserEvent?
    && f.handles[g].Own().id < f.handles[h].Own().id
  }

  ghost predicate OrderedHandle(f: Forest, h: nat)
    requires h < |f.handles|
  {
    var handle := f.handles[h];
    && handle.Pending() <= handle.taken + handle.added && Exists(handle.Pending(), f.world)
    && (handle.parent.Some? ==>
          handle.parent.value < h
          && handle.taken <= f.handles[handle.parent.value].taken + f.handles[handle.parent.value].added
          && handle.Own().UserEvent? && forall u: nat :: User(u) in handle.taken ==> u < handle.Own().id)
  }

  lemma OpenStaysOrdered(f: Forest, h: nat)
    requires Invariant(f) && Ordered(f) && Usable(f, h)
    ensures Ordered(Next(f, Open(h)))
  {
    var f' := Next(f, Open(h));
    AddToPending(f.handles[h], UserEvent(f.world.nextUser).AsEvent());
    forall g | 0 <= g < |f'.handles| ensures OrderedHandle(f', g) {
      assert g < |f.handles| ==> OrderedHandle(f, g);
      assert OrderedHandle(f, h);
    }
    forall d, g | 0 <= d < g < |f'.handles| ensures OlderFirst(f', d, g) {
      assert HandleOk(f.handles[d], f.world, f.fired);
      assert g < |f.handles| ==> OlderFirst(f, d, g);
    }
  }

  lemma LookStaysOrdered(f: Forest, h: nat)
    requires Invariant(f) && Ordered(f) && Usable(f, h) && f.handles[h].StoreHandle?
    ensures Ordered(Next(f, Look(h)))
  {
    var f' := Next(f, Look(h));
    assert OrderedHandle(f', |f.handles|);
    forall g | 0 <= g < |f.handles| ensures OrderedHandle(f', g) {
      assert OrderedHandle(f, g);
    }
    forall d, g | 0 <= d < g < |f'.handles| ensures OlderFirst(f', d, g) {
      assert HandleOk(f.handles[d], f.world, f.fired);
      assert g < |f.handles| ==> OlderFirst(f, d, g);
    }
  }

  /** The same handles, which may have finished waiting for something. */
  predicate SameHandles(f: Forest, g: Forest) {
    && |g.handles| == |f.handles| && f.world.nextUser <= g.world.nextUser
    && forall h :: 0 <= h < |f.handles| ==>
         && g.handles[h].Own() == f.handles[h].Own() && g.handles[h].parent == f.handles[h].parent
         && g.handles[h].taken == f.handles[h].taken && g.handles[h].added == f.handles[h].added
         && g.handles[h].Pending() <= f.handles[h].Pending()
  }

  lemma SameStaysOrdered(f: Forest, g: Forest)
    requires Ordered(f) && SameHandles(f, g)
    ensures Ordered(g)
  {
    forall h | 0 <= h < |g.handles| ensures OrderedHandle(g, h) {
      assert OrderedHandle(f, h);
    }
    forall d, h | 0 <= d < h < |g.handles| ensures OlderFirst(g, d, h) {
      assert OlderFirst(f, d, h);
    }
  }

  lemma AddStaysOrdered(f: Forest, h: nat, event: Event)
    requires Ordered(f) && Usable(f, h) && Exists(event, f.world)
    ensures Ordered(Next(f, Add(h, event)))
  {
    var f' := Next(f, Add(h, event));
    AddToPending(f.handles[h], event);
    forall g | 0 <= g < |f'.handles| ensures OrderedHandle(f', g) {
      assert OrderedHandle(f, g);
    }
    forall d, g | 0 <= d < g < |f'.handles| ensures OlderFirst(f', d, g) {
      assert OlderFirst(f, d, g);
    }
  }

  lemma NextStaysOrdered(f: Forest, step: Step)
    requires Invariant(f) && Ordered(f) && StepExists(f, step)
    ensures Ordered(Next(f, step))
  {
    match step
    case Open(h) => if Usable(f, h) { OpenStaysOrdered(f, h); }
    case Look(h) => if Usable(f, h) && f.handles[h].StoreHandle? { LookStaysOrdered(f, h); }
    case Add(h, event) => if Usable(f, h) { AddStaysOrdered(f, h, event); }
    case _ => SameStaysOrdered(f, Next(f, step));
  }

  lemma {:induction false} RunOrdered(f: Forest, steps: seq<Step>)
    requires Invariant(f) && Ordered(f) && AllExist(f, steps)
    ensures Ordered(RunFrom(f, steps))
  {
    if steps != [] {
      var before := steps[..|steps| - 1];
      assert forall i :: 0 <= i < |before| ==> before[..i] == steps[..i] && before[i] == steps[i];
      RunInvariant(f, before);
      RunOrdered(f, before);
      NextStaysOrdered(RunFrom(f, before), steps[|steps| - 1]);
    }
  }

  // ----- firing

  /** The event of a handle that was taken from d. */
  ghost predicate OfChild(f: Forest, d: nat, u: nat) {
    exists c: nat :: c < |f.handles| && f.handles[c].parent == Some(d) && f.handles[c].Own() == UserEvent(u)
  }

  /** Destroyed, and every event added to it has fired, apart from those of handles taken from it. */
  ghost predicate Gone(f: Forest, d: nat)
    requires d < |f.handles|
  {
    !f.handles[d].alive && forall a :: a in f.handles[d].added ==> a in f.fired || (a.User? && OfChild(f, d, a.id))
  }

  ghost predicate AllGone(f: Forest, h: nat) {
    forall d: nat :: d < |f.handles| && Below(f, d, h) ==> Gone(f, d)
  }

  /** The events are those of handles below h. */
  ghost predicate EventsBelow(f: Forest, h: nat, atoms: seq<Atom>) {
    forall i :: 0 <= i < |atoms| ==>
      exists d: nat :: d < |f.handles| && Below(f, d, h) && f.handles[d].Own().AsEvent() == {atoms[i]}
  }

  /** What has fired after the given events of handles have been tried. */
  function Tried(f: Forest, atoms: seq<Atom>): set<Atom> {
    FireAll(f.world, f.fired, atoms)
  }

  lemma FireOwn(f: Forest, d: nat, atoms: seq<Atom>) returns (more: seq<Atom>)
    requires Invariant(f) && Ordered(f) && d < |f.handles| && !f.handles[d].alive
    requires f.handles[d].taken <= Tried(f, atoms) && f.handles[d].added <= Tried(f, atoms)
    ensures f.handles[d].Own().AsEvent() <= Tried(f, more) && Tried(f, atoms) <= Tried(f, more)
    ensures f.handles[d].Own().UserEvent? && more == atoms + [User(f.handles[d].Own().id)]
  {
    assert HandleOk(f.handles[d], f.world, f.fired) && OrderedHandle(f, d);
    more := atoms + [User(f.handles[d].Own().id)];
    FireOne(f.world, f.fired, atoms, User(f.handles[d].Own().id));
  }

  lemma OlderId(f: Forest, e: nat, c: nat)
    requires Ordered(f) && e < |f.handles| && c < |f.handles| && c <= e
    requires f.handles[e].Own().UserEvent? && f.handles[c].Own().UserEvent?
    ensures f.handles[c].Own().id <= f.handles[e].Own().id
  {
    if c < e { assert OlderFirst(f, c, e); }
  }

  /** The events of the handles taken from d before handle c have fired. */
  ghost predicate ChildrenFired(f: Forest, d: nat, c: nat, fired: set<Atom>) {
    forall e: nat :: e < c && e < |f.handles| && f.handles[e].parent == Some(d) ==>
      f.handles[e].Own().AsEvent() <= fired
  }

  /** What a handle was taken with has fired when that of its parent and the parent's older handles have. */
  lemma TakenFired(f: Forest, c: nat, d: nat, fired: set<Atom>)
    requires Invariant(f) && Ordered(f) && c < |f.handles| && f.handles[c].parent == Some(d) && d < c && Gone(f, d)
    requires f.fired <= fired && f.handles[d].taken <= fired && ChildrenFired(f, d, c, fired)
    ensures f.handles[c].taken <= fired
  {
    assert OrderedHandle(f, c);
    forall a | a in f.handles[c].taken ensures a in fired {
      if a !in f.handles[d].taken && a !in f.fired {
        assert OfChild(f, d, a.id);
        var e: nat :| e < |f.handles| && f.handles[e].parent == Some(d) && f.handles[e].Own() == UserEvent(a.id);
        if c <= e { OlderId(f, e, c); }
        assert a in f.handles[e].Own().AsEvent();
      }
    }
  }

  lemma AddedFired(f: Forest, d: nat, fired: set<Atom>)
    requires d < |f.handles| && Gone(f, d) && f.fired <= fired && ChildrenFired(f, d, |f.handles|, fired)
    ensures f.handles[d].added <= fired
  {
    forall a | a in f.handles[d].added ensures a in fired {
      if a !in f.fired {
        assert OfChild(f, d, a.id);
        var e: nat :| e < |f.handles| && f.handles[e].parent == Some(d) && f.handles[e].Own() == UserEvent(a.id);
        assert a in f.handles[e].Own().AsEvent();
      }
    }
  }

  lemma NoYoungerParent(f: Forest, d: nat, fired: set<Atom>)
    requires Ordered(f) && d < |f.handles|
    ensures ChildrenFired(f, d, d + 1, fired)
  {
    forall e: nat | e < d + 1 ensures f.handles[e].parent != Some(d) {
      assert OrderedHandle(f, e);
    }
  }

  lemma EventsBelowAppend(f: Forest, h: nat, atoms: seq<Atom>, d: nat)
    requires EventsBelow(f, h, atoms) && d < |f.handles| && Below(f, d, h) && f.handles[d].Own().UserEvent?
    ensures EventsBelow(f, h, atoms + [User(f.handles[d].Own().id)])
  {
    assert f.handles[d].Own().AsEvent() == {User(f.handles[d].Own().id)};
  }

  lemma OneMoreFired(f: Forest, d: nat, c: nat, fired: set<Atom>, later: set<Atom>)
    requires ChildrenFired(f, d, c, fired) && fired <= later && c < |f.handles|
    requires f.handles[c].parent == Some(d) ==> f.handles[c].Own().AsEvent() <= later
    ensures ChildrenFired(f, d, c + 1, later)
  {
  }

  /** The next handle taken from d can be fired. */
  lemma {:induction false} FireChild(f: Forest, d: nat, h: nat, c: nat, before: seq<Atom>) returns (atoms: seq<Atom>)
    requires Invariant(f) && Ordered(f) && d < c < |f.handles| && Below(f, d, h) && AllGone(f, h)
    requires f.fired <= Tried(f, before) && f.handles[d].taken <= Tried(f, before) && EventsBelow(f, h, before)
    requires ChildrenFired(f, d, c, Tried(f, before))
    ensures ChildrenFired(f, d, c + 1, Tried(f, atoms))
    ensures Tried(f, before) <= Tried(f, atoms) && EventsBelow(f, h, atoms)
    decreases |f.handles| - c, 2
  {
    atoms := before;
    if f.handles[c].parent == Some(d) {
      assert Gone(f, d);
      TakenFired(f, c, d, Tried(f, before));
      atoms := FireBelow(f, c, h, before);
    }
    OneMoreFired(f, d, c, Tried(f, before), Tried(f, atoms));
  }

  /** The events of the handles taken from d can be fired, oldest first. */
  lemma {:induction false} FireChildren(f: Forest, d: nat, h: nat, before: seq<Atom>) returns (atoms: seq<Atom>)
    requires Invariant(f) && Ordered(f) && d < |f.handles| && Below(f, d, h) && AllGone(f, h)
    requires f.fired <= Tried(f, before) && f.handles[d].taken <= Tried(f, before) && EventsBelow(f, h, before)
    ensures ChildrenFired(f, d, |f.handles|, Tried(f, atoms))
    ensures Tried(f, before) <= Tried(f, atoms) && EventsBelow(f, h, atoms)
    decreases |f.handles| - d, 0
  {
    atoms := before;
    NoYoungerParent(f, d, Tried(f, atoms));
    for c := d + 1 to |f.handles|
      invariant Tried(f, before) <= Tried(f, atoms) && EventsBelow(f, h, atoms)
      invariant ChildrenFired(f, d, c, Tried(f, atoms))
    {
      atoms := FireChild(f, d, h, c, atoms);
    }
  }

  /** The events of all handles below d can be fired, its own last. */
  lemma {:induction false} FireBelow(f: Forest, d: nat, h: nat, before: seq<Atom>) returns (atoms: seq<Atom>)
    requires Invariant(f) && Ordered(f) && d < |f.handles| && Below(f, d, h) && AllGone(f, h)
    requires f.fired <= Tried(f, before) && f.handles[d].taken <= Tried(f, before) && EventsBelow(f, h, before)
    ensures f.handles[d].Own().AsEvent() <= Tried(f, atoms)
    ensures Tried(f, before) <= Tried(f, atoms) && EventsBelow(f, h, atoms)
    decreases |f.handles| - d, 1
  {
    var children := FireChildren(f, d, h, before);
    assert Gone(f, d);
    AddedFired(f, d, Tried(f, children));
    atoms := FireOwn(f, d, children);
    EventsBelowAppend(f, h, children, d);
  }

  /**
   Once a handle and all handles below it have been destroyed, and what it was taken with and every other
   event added to any of them has fired, firing the events of these handles alone fires its own.
   */
  lemma ReleaseFires(f: Forest, h: nat) returns (atoms: seq<Atom>)
    requires Invariant(f) && Ordered(f) && h < |f.handles| && AllGone(f, h) && f.handles[h].taken <= f.fired
    ensures EventsBelow(f, h, atoms) && f.handles[h].Own().AsEvent() <= Tried(f, atoms)
  {
    atoms := FireBelow(f, h, h, []);
  }

  /** An event is done, or it is that of a handle that is gone. */
  ghost predicate DoneOrGone(f: Forest, a: Atom) {
    a in f.fired || exists h: nat :: h < |f.handles| && a in f.handles[h].Own().AsEvent()
                                     && AllGone(f, h) && f.handles[h].taken <= f.fired
  }

  /** The events are those of handles. */
  ghost predicate HandleEvents(f: Forest, atoms: seq<Atom>) {
    forall i :: 0 <= i < |atoms| ==> exists d: nat :: d < |f.handles| && f.handles[d].Own().AsEvent() == {atoms[i]}
  }

  lemma {:induction false} FireConcat(w: World, fired: set<Atom>, a: seq<Atom>, b: seq<Atom>)
    ensures FireAll(w, fired, a + b) == FireAll(w, FireAll(w, fired, a), b)
  {
    if b == [] {
      assert a + b == a;
    } else {
      FireConcat(w, fired, a, b[..|b| - 1]);
      assert (a + b)[..|a + b| - 1] == a + b[..|b| - 1];
    }
  }

  lemma FireGone(f: Forest, a: Atom, before: seq<Atom>) returns (atoms: seq<Atom>)
    requires Invariant(f) && Ordered(f) && DoneOrGone(f, a) && HandleEvents(f, before)
    ensures a in Tried(f, atoms) && Tried(f, before) <= Tried(f, atoms) && HandleEvents(f, atoms)
  {
    FireAllGrows(f.world, f.fired, before);
    atoms := before;
    if a !in f.fired {
      var h: nat :| h < |f.handles| && a in f.handles[h].Own().AsEvent()
                    && AllGone(f, h) && f.handles[h].taken <= f.fired;
      var g := f.(fired := Tried(f, before));
      FiredForest(f, before);
      var more := ReleaseFires(g, h);
      FireConcat(f.world, f.fired, before, more);
      FireAllGrows(f.world, g.fired, more);
      atoms := before + more;
    }
  }

  /** Firing keeps the invariants and what is gone. */
  lemma {:induction false} FiredForest(f: Forest, atoms: seq<Atom>)
    requires Invariant(f) && Ordered(f)
    ensures var g := f.(fired := Tried(f, atoms));
      Invariant(g) && Ordered(g) && f.fired <= g.fired && forall h: nat :: AllGone(f, h) ==> AllGone(g, h)
  {
    FiredInvariant(f, atoms);
    FireAllGrows(f.world, f.fired, atoms);
    var g := f.(fired := Tried(f, atoms));
    SameStaysOrdered(f, g);
    forall h: nat | AllGone(f, h) ensures AllGone(g, h) {
      GoneFired(f, g, h);
    }
  }

  lemma {:induction false} FiredInvariant(f: Forest, atoms: seq<Atom>)
    requires Invariant(f)
    ensures Invariant(f.(fired := Tried(f, atoms)))
  {
    if atoms != [] {
      var before := atoms[..|atoms| - 1];
      FiredInvariant(f, before);
      var g, last := f.(fired := Tried(f, before)), atoms[|atoms| - 1];
      if Enabled(g.world, g.fired, last) {
        FireKeeps(g, last);
      }
    }
  }

  lemma GoneFired(f: Forest, g: Forest, h: nat)
    requires g == f.(fired := g.fired) && f.fired <= g.fired && AllGone(f, h)
    ensures AllGone(g, h)
  {
    forall d: nat | d < |g.handles| && Below(g, d, h) ensures Gone(g, d) {
      SameBelow(f, g, d, h);
      assert Gone(f, d);
      forall a | a in g.handles[d].added && a !in g.fired ensures a.User? && OfChild(g, d, a.id) {
        assert OfChild(f, d, a.id);
      }
    }
  }

  lemma {:induction false} SameBelow(f: Forest, g: Forest, d: nat, h: nat)
    requires g.handles == f.handles && d < |f.handles|
    ensures Below(f, d, h) <==> Below(g, d, h)
    decreases d
  {
    if d != h && f.handles[d].parent.Some? && f.handles[d].parent.value < d {
      SameBelow(f, g, f.handles[d].parent.value, h);
    }
  }

  /**
   Whoever waits for a store is released once its writers and readers are done or are handles that are
   gone: for a reader that is an open-ended view, once that view and all below it are gone.
   */
  lemma {:induction false} WaiterReleased(f: Forest, event: Event) returns (atoms: seq<Atom>)
    requires Invariant(f) && Ordered(f) && forall a :: a in event ==> DoneOrGone(f, a)
    ensures HandleEvents(f, atoms) && event <= Tried(f, atoms)
    decreases |event|
  {
    if event == {} {
      atoms := [];
    } else {
      var a :| a in event;
      var before := WaiterReleased(f, event - {a});
      atoms := FireGone(f, a, before);
    }
  }

  /** In every run, with events that exist. */
  lemma RunReleases(root: Handle, world: World, steps: seq<Step>, h: nat) returns (atoms: seq<Atom>)
    requires FreshRoot(root, world) && Exists(root.Pending(), world) && AllExist(Initial(root, world), steps)
    requires var f := Run(root, world, steps);
      h < |f.handles| && f.handles[h].StoreHandle?
      && forall a :: a in Events(StorePrecondition(f.handles[h].store)) ==> DoneOrGone(f, a)
    ensures var f := Run(root, world, steps);
      HandleEvents(f, atoms) && Events(StorePrecondition(f.handles[h].store)) <= Tried(f, atoms)
  {
    var f := Run(root, world, steps);
    RunInvariant(Initial(root, world), steps);
    RunOrdered(Initial(root, world), steps);
    atoms := WaiterReleased(f, Events(StorePrecondition(f.handles[h].store)));
  }

  /** A view of a store is among the store's readers, is taken with nothing, and is released by its own event. */
  lemma LookIsReader(f: Forest, h: nat)
    requires Usable(f, h) && f.handles[h].StoreHandle?
    ensures var g, v := Next(f, Look(h)), |f.handles|;
      && |g.handles| == v + 1 && g.handles[v].ViewHandle? && g.handles[v].alive && g.handles[v].taken == NO_EVENT
      && g.handles[v].view.precondition == f.handles[h].store.childRw
      && g.handles[v].Own() == UserEvent(f.world.nextUser)
      && g.handles[h].StoreHandle?
      && Events(g.handles[h].store.war) == Events(f.handles[h].store.war) + g.handles[v].Own().AsEvent()
  {
  }
}
