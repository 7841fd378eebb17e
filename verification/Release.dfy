/**
 Open-ended handles: a view or child store that can hand out further views or children.  Whoever
 waits for such a handle waits, in every run, for everything that was handed out below it.
 */
module Release {
  import opened Shape
  import opened Realm
  import opened Stores

  /**
   A handle, the handle it was taken from, and (for the statements) what it had to wait for from the
   start and every event ever added to it.
   */
  datatype Handle =
    | ViewHandle(parent: Option<nat>, alive: bool, view: ViewState, taken: Event, added: Event)
    | StoreHandle(parent: Option<nat>, alive: bool, store: StoreState, taken: Event, added: Event)
  {
    /** The event that is triggered when the handle is destroyed. */
    function Own(): UserEvent {
      if ViewHandle? then view.warDependency else store.parentNotification
    }

    /** What that trigger will wait for. */
    function Pending(): Event {
      if ViewHandle? then MergeAll(view.views) else Events(store.childRw)
    }
  }

  datatype Forest = Forest(handles: seq<Handle>, world: World, fired: set<Atom>)

  datatype Step =
    | Open(h: nat)                 // view() of a view, child() of a store
    | Look(h: nat)                 // view() of a store
    | Add(h: nat, event: Event)    // DoneAfter or view(event); child(event) or ReadyAfter
    | ReadStore(h: nat, event: Event) // view(event) of a store
    | AwaitStore(h: nat)           // Wait
    | Destroy(h: nat)
    | Outside(world: World)        // whatever the rest of the program does to the runtime
    | Fire(atom: Atom)

  /** The view after one more event to wait for; the store likewise. */
  function AddTo(handle: Handle, event: Event): Handle {
    match handle
    case ViewHandle(_, _, view, _, added) =>
      handle.(view := view.(views := view.views + [event]), added := added + event)
    case StoreHandle(_, _, store, _, added) => handle.(store := ReadyAfter(store, event), added := added + event)
  }

  function Sub(h: nat, handle: Handle, user: UserEvent): Handle {
    match handle
    case ViewHandle(_, _, view, _, _) =>
      ViewHandle(Some(h), true, ViewState(view.precondition, user, []), NO_EVENT, NO_EVENT)
    case StoreHandle(_, _, store, _, _) =>
      StoreHandle(Some(h), true, ChildOf(store, user), Events(store.childRw), NO_EVENT)
  }

  predicate Usable(f: Forest, h: nat) {
    h < |f.handles| && f.handles[h].alive
  }

  /** The rest of the program only adds to the world, and leaves the events of the handles alone. */
  predicate OutsideMay(f: Forest, world: World) {
    && Grows(f.world, world) && !world.fault && f.world.nextUser <= world.nextUser
    && (forall u :: u in world.triggers ==> u < world.nextUser)
    && (forall h :: 0 <= h < |f.handles| && f.handles[h].Own().UserEvent? && f.handles[h].Own().id in world.triggers ==>
          f.handles[h].Own().id in f.world.triggers)
  }

  function Next(f: Forest, step: Step): Forest {
    match step
    case Open(h) =>
      if !Usable(f, h) then f
      else
        var (world, user) := CreateUserEvent(f.world);
        f.(handles := f.handles[h := AddTo(f.handles[h], user.AsEvent())] + [Sub(h, f.handles[h], user)],
           world := world)
    case Look(h) =>
      if !Usable(f, h) || f.handles[h].ViewHandle? then f
      else
        var (world, user) := CreateUserEvent(f.world);
        var store := f.handles[h].store;
        f.(handles := f.handles[h := f.handles[h].(store := ReadUntil(store, user.AsEvent()))]
                      + [ViewHandle(None, true, ViewOf(store, user), NO_EVENT, NO_EVENT)],
           world := world)
    case Add(h, event) =>
      if !Usable(f, h) then f else f.(handles := f.handles[h := AddTo(f.handles[h], event)])
    case ReadStore(h, event) =>
      if !Usable(f, h) || f.handles[h].ViewHandle? then f
      else f.(handles := f.handles[h := f.handles[h].(store := ReadUntil(f.handles[h].store, event))])
    case AwaitStore(h) =>
      if !Usable(f, h) || f.handles[h].ViewHandle? then f
      else if !(f.handles[h].Pending() <= f.fired && Events(f.handles[h].store.war) <= f.fired) then f
      else
        var handle := f.handles[h];
        f.(handles := f.handles[h := handle.(store := handle.store.(childRw := None, war := None))])
    case Destroy(h) =>
      if !Usable(f, h) then f
      else
        var handle := f.handles[h];
        f.(handles := f.handles[h := handle.(alive := false)],
           world := if handle.Own().NoUserEvent? then f.world else Trigger(f.world, handle.Own(), handle.Pending()))
    case Outside(world) => if OutsideMay(f, world) then f.(world := world) else f
    case Fire(atom) => if Enabled(f.world, f.fired, atom) then f.(fired := f.fired + {atom}) else f
  }

  /** One handle with no parent: an open-ended view or child given to a task. */
  function Initial(root: Handle, world: World): Forest {
    Forest([root], world, {})
  }

  function RunFrom(f: Forest, steps: seq<Step>): Forest {
    if steps == [] then f else Next(RunFrom(f, steps[..|steps| - 1]), steps[|steps| - 1])
  }

  function Run(root: Handle, world: World, steps: seq<Step>): Forest {
    RunFrom(Initial(root, world), steps)
  }

  /** A fresh open-ended handle: nothing has been added and its event is untriggered. */
  predicate FreshRoot(root: Handle, world: World) {
    && root.alive && root.parent.None? && root.added == NO_EVENT && Waiting(root.Own(), world)
    && !world.fault && (forall u :: u in world.triggers ==> u < world.nextUser)
    && (root.ViewHandle? ==> root.view.views == []) && root.taken == root.Pending()
  }

  // ----- invariant

  ghost predicate HandleOk(handle: Handle, w: World, fired: set<Atom>) {
    && handle.Own().UserEvent? && handle.Own().id < w.nextUser
    && handle.added <= handle.Pending() + fired
    && (if handle.alive then handle.Own().id !in w.triggers
        else handle.Own().id in w.triggers && w.triggers[handle.Own().id] == handle.Pending())
  }

  ghost predicate Invariant(f: Forest) {
    && !f.world.fault && Justified(f.world, f.fired)
    && (forall u :: u in f.world.triggers ==> u < f.world.nextUser)
    && (forall h :: 0 <= h < |f.handles| ==> HandleOk(f.handles[h], f.world, f.fired))
    && (forall g, h :: 0 <= g < h < |f.handles| ==> f.handles[g].Own() != f.handles[h].Own())
    && (forall h :: 0 <= h < |f.handles| && f.handles[h].parent.Some? ==>
          var p := f.handles[h].parent.value;
          p < h && f.handles[h].Own().AsEvent() <= f.handles[p].added)
  }

  lemma {:induction false} MergeAllAppend(events: seq<Event>, event: Event)
    ensures MergeAll(events + [event]) == MergeAll(events) + event
  {
    if events == [] {
      assert events + [event] == [event];
      assert MergeAll([event]) == event + MergeAll([]);
    } else {
      MergeAllAppend(events[1..], event);
      assert (events + [event])[1..] == events[1..] + [event];
    }
  }

  lemma AddToPending(handle: Handle, event: Event)
    ensures AddTo(handle, event).Pending() == handle.Pending() + event
    ensures AddTo(handle, event).Own() == handle.Own()
  {
    if handle.ViewHandle? {
      MergeAllAppend(handle.view.views, event);
    }
  }

  lemma OpenKeeps(f: Forest, h: nat)
    requires Invariant(f) && Usable(f, h)
    ensures Invariant(Next(f, Open(h)))
  {
    var f' := Next(f, Open(h));
    AddToPending(f.handles[h], UserEvent(f.world.nextUser).AsEvent());
    JustifiedGrows(f.world, f'.world, f.fired);
    forall g | 0 <= g < |f'.handles| ensures HandleOk(f'.handles[g], f'.world, f'.fired) {
      if g < |f.handles| { assert HandleOk(f.handles[g], f.world, f.fired); }
    }
  }

  lemma LookKeeps(f: Forest, h: nat)
    requires Invariant(f)
    ensures Invariant(Next(f, Look(h)))
  {
    var f' := Next(f, Look(h));
    JustifiedGrows(f.world, f'.world, f.fired);
    forall g | 0 <= g < |f'.handles| ensures HandleOk(f'.handles[g], f'.world, f'.fired) {
      if g < |f.handles| { assert HandleOk(f.handles[g], f.world, f.fired); }
    }
  }

  lemma AddKeeps(f: Forest, h: nat, event: Event)
    requires Invariant(f) && Usable(f, h)
    ensures Invariant(Next(f, Add(h, event)))
  {
    var f' := Next(f, Add(h, event));
    AddToPending(f.handles[h], event);
    forall g | 0 <= g < |f'.handles| ensures HandleOk(f'.handles[g], f'.world, f'.fired) {
      assert HandleOk(f.handles[g], f.world, f.fired);
    }
  }

  lemma ReadKeeps(f: Forest, h: nat, event: Event)
    requires Invariant(f)
    ensures Invariant(Next(f, ReadStore(h, event)))
  {
    var f' := Next(f, ReadStore(h, event));
    forall g | 0 <= g < |f'.handles| ensures HandleOk(f'.handles[g], f'.world, f'.fired) {
      assert HandleOk(f.handles[g], f.world, f.fired);
    }
  }

  lemma AwaitKeeps(f: Forest, h: nat)
    requires Invariant(f)
    ensures Invariant(Next(f, AwaitStore(h)))
  {
    var f' := Next(f, AwaitStore(h));
    forall g | 0 <= g < |f'.handles| ensures HandleOk(f'.handles[g], f'.world, f'.fired) {
      assert HandleOk(f.handles[g], f.world, f.fired);
    }
  }

  lemma DestroyKeeps(f: Forest, h: nat)
    requires Invariant(f) && Usable(f, h)
    ensures Invariant(Next(f, Destroy(h)))
  {
    var f' := Next(f, Destroy(h));
    assert HandleOk(f.handles[h], f.world, f.fired);
    JustifiedGrows(f.world, f'.world, f.fired);
    forall g | 0 <= g < |f'.handles| ensures HandleOk(f'.handles[g], f'.world, f'.fired) {
      assert HandleOk(f.handles[g], f.world, f.fired);
      assert g < h ==> f.handles[g].Own() != f.handles[h].Own();
    }
  }

  lemma OutsideKeeps(f: Forest, world: World)
    requires Invariant(f) && OutsideMay(f, world)
    ensures Invariant(f.(world := world))
  {
    JustifiedGrows(f.world, world, f.fired);
    forall g | 0 <= g < |f.handles| ensures HandleOk(f.handles[g], world, f.fired) {
      assert HandleOk(f.handles[g], f.world, f.fired);
    }
  }

  lemma FireKeeps(f: Forest, atom: Atom)
    requires Invariant(f) && Enabled(f.world, f.fired, atom)
    ensures Invariant(f.(fired := f.fired + {atom}))
  {
    JustifiedFires(f.world, f.fired, atom);
    forall g | 0 <= g < |f.handles| ensures HandleOk(f.handles[g], f.world, f.fired + {atom}) {
      assert HandleOk(f.handles[g], f.world, f.fired);
    }
  }

  lemma NextKeeps(f: Forest, step: Step)
    requires Invariant(f)
    ensures Invariant(Next(f, step))
  {
    match step
    case Open(h) => if Usable(f, h) { OpenKeeps(f, h); }
    case Look(h) => LookKeeps(f, h);
    case Add(h, event) => if Usable(f, h) { AddKeeps(f, h, event); }
    case ReadStore(h, event) => ReadKeeps(f, h, event);
    case AwaitStore(h) => AwaitKeeps(f, h);
    case Destroy(h) => if Usable(f, h) { DestroyKeeps(f, h); }
    case Outside(world) => if OutsideMay(f, world) { OutsideKeeps(f, world); }
    case Fire(atom) => if Enabled(f.world, f.fired, atom) { FireKeeps(f, atom); }
  }

  lemma {:induction false} RunInvariant(f: Forest, steps: seq<Step>)
    requires Invariant(f)
    ensures Invariant(RunFrom(f, steps))
  {
    if steps != [] {
      RunInvariant(f, steps[..|steps| - 1]);
      NextKeeps(RunFrom(f, steps[..|steps| - 1]), steps[|steps| - 1]);
    }
  }

  // ----- nested release

  /** d was taken from h, directly or through other open-ended handles. */
  ghost predicate Below(f: Forest, d: nat, h: nat)
    requires d < |f.handles|
    decreases d
  {
    d == h || (f.handles[d].parent.Some? && f.handles[d].parent.value < d && Below(f, f.handles[d].parent.value, h))
  }

  /** Destroyed, released, and with every event that was ever added to it fired. */
  ghost predicate FullyReleased(f: Forest, d: nat)
    requires d < |f.handles|
  {
    !f.handles[d].alive && f.handles[d].Own().AsEvent() <= f.fired && f.handles[d].added <= f.fired
  }

  lemma ReleasedWhenFired(f: Forest, d: nat)
    requires Invariant(f) && d < |f.handles| && f.handles[d].Own().AsEvent() <= f.fired
    ensures FullyReleased(f, d)
  {
    assert HandleOk(f.handles[d], f.world, f.fired);
    assert User(f.handles[d].Own().id) in f.handles[d].Own().AsEvent();
    assert Enabled(f.world, f.fired, User(f.handles[d].Own().id));
  }

  lemma {:induction false} BelowReleased(f: Forest, d: nat, h: nat)
    requires Invariant(f) && d < |f.handles| && h < |f.handles| && Below(f, d, h)
    requires f.handles[h].Own().AsEvent() <= f.fired
    ensures FullyReleased(f, d)
    decreases d
  {
    if d != h {
      BelowReleased(f, f.handles[d].parent.value, h);
    }
    ReleasedWhenFired(f, d);
  }

  /**
   In every run: once the event of an open-ended handle has fired, every handle below it has been
   destroyed and released, and all events added to any of them have fired.  No event is triggered twice.
   */
  lemma NestedRelease(root: Handle, world: World, steps: seq<Step>, h: nat, d: nat)
    requires FreshRoot(root, world)
    requires var f := Run(root, world, steps);
      h < |f.handles| && d < |f.handles| && Below(f, d, h) && f.handles[h].Own().AsEvent() <= f.fired
    ensures FullyReleased(Run(root, world, steps), d) && !Run(root, world, steps).world.fault
  {
    RunInvariant(Initial(root, world), steps);
    BelowReleased(Run(root, world, steps), d, h);
  }

  /** The parent of an open-ended child has been told, but a reader of the child is not done. */
  ghost predicate ReaderOvertakenIn(root: Handle, world: World, steps: seq<Step>, reader: Event) {
    && FreshRoot(root, world)
    && var f := Run(root, world, steps);
       && |f.handles| == 1 && f.handles[0].StoreHandle? && reader <= Events(f.handles[0].store.war)
       && f.handles[0].Own().AsEvent() <= f.fired && !(reader <= f.fired)
  }

  /**
   Readers of an open-ended child store are not part of this: the child's destructor looks at its
   write side only, so the parent can be told before a reader of the child is done.
   */
  lemma ReaderOvertaken()
    ensures exists root: Handle, world: World, steps: seq<Step>, reader: Event ::
              ReaderOvertakenIn(root, world, steps, reader)
  {
    var root := StoreHandle(None, true, StoreState(UserEvent(0), None, None), NO_EVENT, NO_EVENT);
    var world := INITIAL_WORLD.(nextUser := 1);
    var reader: Event := {External(0)};
    var read, destroy, fire := ReadStore(0, reader), Destroy(0), Fire(User(0));
    var f0 := Initial(root, world);
    var f1 := Next(f0, read);
    var f2 := Next(f1, destroy);
    var f3 := Next(f2, fire);
    RunAppend(f0, [], read);
    RunAppend(f0, [read], destroy);
    RunAppend(f0, [read] + [destroy], fire);
    assert [] + [read] == [read] && [read] + [destroy] + [fire] == [read, destroy, fire];
    assert External(0) in reader && External(0) !in f3.fired;
    assert ReaderOvertakenIn(root, world, [read, destroy, fire], reader);
  }

  lemma RunAppend(f: Forest, steps: seq<Step>, step: Step)
    ensures RunFrom(f, steps + [step]) == Next(RunFrom(f, steps), step)
  {
    assert (steps + [step])[..|steps|] == steps;
  }
}
