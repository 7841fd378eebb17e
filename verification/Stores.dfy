/**
 Stores, views and tasks (store.h, future.h, task.h, task_base.h): how using data builds the events
 that order tasks.  Only the `effects` half of a precondition is modelled.
 */
module Stores {
  import opened Shape
  import opened Realm

  // ----- values of the handles

  datatype StoreState = StoreState(parentNotification: UserEvent, childRw: Option<Event>, war: Option<Event>)

  datatype ViewState = ViewState(precondition: Option<Event>, warDependency: UserEvent, views: seq<Event>)

  const EMPTY_STORE := StoreState(NoUserEvent, None, None)

  function Merge(old_: Option<Event>, event: Event): Option<Event> {
    if old_.Some? then Some(event + old_.value) else Some(event)
  }

  function Events(o: Option<Event>): Event {
    if o.Some? then o.value else NO_EVENT
  }

  /** Store::ReadyAfter: later users wait for the new event too; readers of the old value no longer matter. */
  function ReadyAfter(s: StoreState, event: Event): StoreState {
    s.(childRw := Merge(s.childRw, event), war := None)
  }

  /** Store::view: a later writer has to wait for this reader. */
  function ReadUntil(s: StoreState, event: Event): StoreState {
    s.(war := Merge(s.war, event))
  }

  /** The child that a task writes through; it starts with what the parent waits for. */
  function ChildOf(s: StoreState, notify: UserEvent): StoreState {
    StoreState(notify, s.childRw, s.war)
  }

  /** The view that a task reads through. */
  function ViewOf(s: StoreState, release: UserEvent): ViewState {
    ViewState(s.childRw, release, [])
  }

  /** Store::Precondition, empty when there is none. */
  function StorePrecondition(s: StoreState): Option<Event> {
    if s.war.Some? then
      if s.childRw.Some? then Some(s.war.value + s.childRw.value) else s.war
    else s.childRw
  }

  predicate InSome(a: Atom, events: seq<Event>) {
    exists i :: 0 <= i < |events| && a in events[i]
  }

  lemma InHeadOrTail(a: Atom, events: seq<Event>)
    requires events != []
    ensures InSome(a, events) <==> a in events[0] || InSome(a, events[1..])
  {
    if InSome(a, events[1..]) {
      var i :| 0 <= i < |events[1..]| && a in events[1..][i];
      assert a in events[i + 1];
    }
    if InSome(a, events) {
      var i :| 0 <= i < |events| && a in events[i];
      if i > 0 { assert a in events[1..][i - 1]; }
    }
  }

  /** The merge of some events waits for what any of them waits for, and for nothing else. */
  function MergeAll(events: seq<Event>): (all: Event)
    ensures forall a :: a in all <==> InSome(a, events)
  {
    if events == [] then NO_EVENT
    else
      assert forall a :: InSome(a, events) <==> a in events[0] || InSome(a, events[1..]) by {
        forall a ensures InSome(a, events) <==> a in events[0] || InSome(a, events[1..]) {
          InHeadOrTail(a, events);
        }
      }
      events[0] + MergeAll(events[1..])
  }

  // ----- the mutable handles

  class View {
    var precondition: Option<Event>
    var warDependency: UserEvent
    var views: seq<Event>

    function State(): ViewState
      reads this
    {
      ViewState(precondition, warDependency, views)
    }

    constructor (state: ViewState)
      ensures State() == state
    {
      precondition, warDependency, views := state.precondition, state.warDependency, state.views;
    }

    /** An open-ended subview: this view is not released before it. */
    method SubView(rt: Runtime<()>) returns (v: View)
      modifies this`views, rt`world
      ensures fresh(v)
      ensures var (world, user) := CreateUserEvent(old(rt.world));
        && rt.world == world && v.State() == ViewState(precondition, user, [])
        && State() == old(State()).(views := old(views) + [user.AsEvent()])
    {
      var release := rt.NewUserEvent();
      views := views + [release.AsEvent()];
      v := new View(ViewState(precondition, release, []));
    }

    method SubViewUntil(completion: Event) returns (v: View)
      modifies this`views
      ensures fresh(v) && v.State() == ViewState(precondition, NoUserEvent, [])
      ensures State() == old(State()).(views := old(views) + [completion])
    {
      views := views + [completion];
      v := new View(ViewState(precondition, NoUserEvent, []));
    }

    method DoneAfter(event: Event)
      modifies this`views
      ensures State() == old(State()).(views := old(views) + [event])
    {
      views := views + [event];
    }

    /** The destructor. */
    method Release(rt: Runtime<()>)
      modifies rt`world
      ensures rt.world == if warDependency.NoUserEvent? then old(rt.world)
                          else Trigger(old(rt.world), warDependency, MergeAll(views))
      ensures warDependency.UserEvent? && warDependency.id !in old(rt.world).triggers ==>
                && warDependency.id in rt.world.triggers && rt.world.fault == old(rt.world).fault
                && forall a :: a in rt.world.triggers[warDependency.id] <==> InSome(a, views)
    {
      if warDependency.UserEvent? {
        var subviewRelease := NO_EVENT;
        var i := 0;
        while i < |views|
          invariant i <= |views| && MergeAll(views) == subviewRelease + MergeAll(views[i..])
        {
          subviewRelease := subviewRelease + views[i];
          i := i + 1;
        }
        rt.TriggerEvent(warDependency, subviewRelease);
      }
    }
  }

  class Store {
    var parentNotification: UserEvent
    var childRw: Option<Event>
    var war: Option<Event>

    function State(): StoreState
      reads this
    {
      StoreState(parentNotification, childRw, war)
    }

    constructor (state: StoreState)
      ensures State() == state
    {
      parentNotification, childRw, war := state.parentNotification, state.childRw, state.war;
    }

    function HasPrecondition(): bool
      reads this
    {
      war.Some? || childRw.Some?
    }

    /** Some exactly when HasPrecondition. */
    function Precondition(): (pre: Option<Event>)
      reads this
      ensures pre.Some? <==> HasPrecondition()
      ensures pre == StorePrecondition(State())
      ensures Events(pre) == Events(war) + Events(childRw)
    {
      StorePrecondition(State())
    }

    method MakeReadyAfter(event: Event)
      modifies this
      ensures State() == ReadyAfter(old(State()), event)
    {
      if childRw.Some? {
        childRw := Some(event + childRw.value);
      } else {
        childRw := Some(event);
      }
      war := None;
    }

    /** child(event): a child that is complete once the event has fired. */
    method ChildUntil(event: Event) returns (child: Store)
      modifies this
      ensures fresh(child) && child.State() == ChildOf(old(State()), NoUserEvent)
      ensures State() == ReadyAfter(old(State()), event)
    {
      child := new Store(StoreState(NoUserEvent, childRw, war));
      MakeReadyAfter(event);
    }

    /** child(): an open-ended child, complete once it and its own children are gone. */
    method OpenChild(rt: Runtime<()>) returns (child: Store)
      modifies this, rt`world
      ensures fresh(child)
      ensures var (world, user) := CreateUserEvent(old(rt.world));
        && rt.world == world && child.State() == ChildOf(old(State()), user)
        && State() == ReadyAfter(old(State()), user.AsEvent())
      ensures child.parentNotification == UserEvent(old(rt.world).nextUser)
      ensures child.childRw == old(childRw) && child.war == old(war)
      ensures Events(childRw) == Events(old(childRw)) + child.parentNotification.AsEvent() && war == None
    {
      var notify := rt.NewUserEvent();
      child := new Store(StoreState(notify, childRw, war));
      MakeReadyAfter(notify.AsEvent());
    }

    /** view(event): a view that is released once the event has fired. */
    method ViewUntil(event: Event) returns (view: View)
      modifies this`war
      ensures fresh(view) && view.State() == ViewOf(old(State()), NoUserEvent)
      ensures State() == ReadUntil(old(State()), event)
    {
      if war.Some? {
        war := Some(event + war.value);
      } else {
        war := Some(event);
      }
      view := new View(ViewState(childRw, NoUserEvent, []));
    }

    /** view(): an open-ended view. */
    method OpenView(rt: Runtime<()>) returns (view: View)
      modifies this`war, rt`world
      ensures fresh(view)
      ensures var (world, user) := CreateUserEvent(old(rt.world));
        && rt.world == world && view.State() == ViewOf(old(State()), user)
        && State() == ReadUntil(old(State()), user.AsEvent())
      ensures view.warDependency == UserEvent(old(rt.world).nextUser) && rt.world.nextUser == view.warDependency.id + 1
      ensures view.precondition == old(childRw) && view.views == []
      ensures Events(war) == Events(old(war)) + view.warDependency.AsEvent() && childRw == old(childRw)
    {
      var reader := rt.NewUserEvent();
      view := ViewUntil(reader.AsEvent());
      view.warDependency := reader;
    }

    /** Wait: blocks until both events have fired, so neither has to be waited for again. */
    method Wait() returns (waitedFor: Event)
      modifies this
      ensures waitedFor == Events(old(StorePrecondition(State())))
      ensures State() == old(State()).(childRw := None, war := None)
    {
      waitedFor := NO_EVENT;
      if childRw.Some? {
        waitedFor := waitedFor + childRw.value;
        childRw := None;
      }
      if war.Some? {
        waitedFor := waitedFor + war.value;
        war := None;
      }
    }

    /** The destructor: tells the parent after what this child, and all it handed out for writing, is done. */
    method Destroy(rt: Runtime<()>)
      modifies rt`world
      ensures rt.world == if parentNotification.NoUserEvent? then old(rt.world)
                          else Trigger(old(rt.world), parentNotification, Events(childRw))
    {
      if parentNotification.UserEvent? {
        rt.TriggerEvent(parentNotification, if childRw.Some? then childRw.value else NO_EVENT);
      }
    }
  }

  // ----- tasks

  /** How a task takes a store: by reference, or by const reference or value. */
  datatype Access = Write | Read

  /** The store after a task with the given completion event has been submitted. */
  function Submitted(s: StoreState, access: Access, completion: Event): StoreState {
    if access.Write? then ReadyAfter(s, completion) else ReadUntil(s, completion)
  }

  /** What the stored argument makes the task wait for. */
  function ArgumentPrecondition(s: StoreState, access: Access): Option<Event> {
    if access.Write? then StorePrecondition(ChildOf(s, NoUserEvent)) else s.childRw
  }

  class Task {
    var individual: set<Event>
    var merged: Option<Event>

    /** Stores the arguments, which updates the stores, and merges their preconditions. */
    constructor (completion: Event, stores: seq<Store>, accesses: seq<Access>)
      requires |stores| == |accesses| && forall i, j :: 0 <= i < j < |stores| ==> stores[i] != stores[j]
      modifies stores
      ensures forall i :: 0 <= i < |stores| ==>
                stores[i].State() == Submitted(old(stores[i].State()), accesses[i], completion)
      ensures individual == {}
      ensures merged.None? <==> forall i :: 0 <= i < |stores| ==>
                ArgumentPrecondition(old(stores[i].State()), accesses[i]).None?
      ensures forall a :: a in Events(merged) <==>
                exists i :: 0 <= i < |stores| && a in Events(ArgumentPrecondition(old(stores[i].State()), accesses[i]))
    {
      individual, merged := {}, None;
      new;
      var arguments: seq<Option<Event>> := [];
      var i := 0;
      while i < |stores|
        invariant i <= |stores| && |arguments| == i
        invariant individual == {} && merged == None && forall j :: 0 <= j < |stores| ==> stores[j] as object != this
        invariant forall j :: 0 <= j < i ==> arguments[j] == ArgumentPrecondition(old(stores[j].State()), accesses[j])
        invariant forall j :: 0 <= j < i ==>
                    stores[j].State() == Submitted(old(stores[j].State()), accesses[j], completion)
        invariant forall j :: i <= j < |stores| ==> stores[j].State() == old(stores[j].State())
        modifies stores
      {
        var pre: Option<Event>;
        if accesses[i].Write? {
          var child := stores[i].ChildUntil(completion);
          pre := child.Precondition();
        } else {
          var view := stores[i].ViewUntil(completion);
          pre := view.precondition;
        }
        arguments := arguments + [pre];
        i := i + 1;
      }
      AddTaskDependencies(arguments);
      assert forall j :: 0 <= j < |arguments| && arguments[j].Some? ==> arguments[j].value in Present(arguments);
      var alreadyMerged := MergePreconditions();
    }

    method AddTaskDependencies(arguments: seq<Option<Event>>)
      modifies this`individual
      ensures individual == old(individual) + Present(arguments)
    {
      var i := 0;
      while i < |arguments|
        invariant i <= |arguments|
        invariant individual == old(individual) + Present(arguments[..i])
      {
        if arguments[i].Some? {
          individual := individual + {arguments[i].value};
        }
        assert arguments[..i + 1] == arguments[..i] + [arguments[i]];
        i := i + 1;
      }
      assert arguments[..|arguments|] == arguments;
    }

    /** Merging twice is an error and changes nothing. */
    method MergePreconditions() returns (alreadyMerged: bool)
      modifies this
      ensures alreadyMerged <==> old(merged).Some?
      ensures alreadyMerged ==> merged == old(merged) && individual == old(individual)
      ensures !alreadyMerged ==> individual == {} && (merged.None? <==> old(individual) == {})
      ensures !alreadyMerged ==> forall a :: a in Events(merged) <==> exists e :: e in old(individual) && a in e
    {
      alreadyMerged := merged.Some?;
      if alreadyMerged {
        return;
      }
      if individual == {} {
        return;
      }
      var union := NO_EVENT;
      var rest := individual;
      while rest != {}
        invariant rest <= individual
        invariant forall a :: a in union <==> exists e :: e in individual - rest && a in e
        decreases rest
      {
        var e :| e in rest;
        rest := rest - {e};
        union := union + e;
      }
      merged := Some(union);
      individual := {};
    }
  }

  function Present(arguments: seq<Option<Event>>): set<Event> {
    set i | 0 <= i < |arguments| && arguments[i].Some? :: arguments[i].value
  }
}
