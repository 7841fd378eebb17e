/**
 When the order of tasks survives nesting: as long as no child store is dropped with tasks of its own
 body left as readers, a nested program orders all that it would order with its bodies written in place;
 a reader that is left is lost.
 */
module NestedOrder {
  import opened Realm
  import opened Stores
  import opened Determinacy
  import opened NestedPrograms

  // ----- the same body written in place

  function InPlace(tasks: seq<map<nat, Access>>, i: nat, s: nat, state: StoreState): StoreState {
    if tasks == [] then state
    else InPlace(tasks[1..], i + 1, s, if s in tasks[0] then Submitted(state, tasks[0][s], Completion(i)) else state)
  }

  /** What task i + n of tasks written in place waits for. */
  function WaitsInPlace(tasks: seq<map<nat, Access>>, i: nat, s: nat, state: StoreState, n: nat): Event
    requires n < |tasks|
  {
    if s in tasks[n] then Events(ArgumentPrecondition(InPlace(tasks[..n], i, s, state), tasks[n][s])) else NO_EVENT
  }

  lemma {:induction false} InPlaceConcat(a: seq<map<nat, Access>>, b: seq<map<nat, Access>>, i: nat, s: nat,
                                         state: StoreState)
    ensures InPlace(a + b, i, s, state) == InPlace(b, i + |a|, s, InPlace(a, i, s, state))
  {
    if a == [] {
      assert a + b == b;
    } else {
      assert (a + b)[1..] == a[1..] + b;
      InPlaceConcat(a[1..], b, i + 1, s,
                    if s in a[0] then Submitted(state, a[0][s], Completion(i)) else state);
    }
  }

  /** The store after task i written in place, and what the tasks up to the end of its body wait for. */
  function StepInPlace(item: Item, i: nat, s: nat, state: StoreState): StoreState {
    InPlace([item.access] + Tasks(item.body), i, s, state)
  }

  function OwnInPlace(item: Item, i: nat, s: nat, state: StoreState): StoreState {
    if s in item.access then Submitted(state, item.access[s], Completion(i)) else state
  }

  lemma {:induction false} InPlaceSplit(items: seq<Item>, i: nat, s: nat, state: StoreState)
    requires items != []
    ensures InPlace(Tasks(items), i, s, state) ==
            InPlace(Tasks(items[1..]), i + Width(items[0]), s, StepInPlace(items[0], i, s, state))
    ensures StepInPlace(items[0], i, s, state) ==
            InPlace(Tasks(items[0].body), i + 1, s, OwnInPlace(items[0], i, s, state))
  {
    InPlaceConcat([items[0].access] + Tasks(items[0].body), Tasks(items[1..]), i, s, state);
    InPlaceConcat([items[0].access], Tasks(items[0].body), i, s, state);
  }

  lemma {:induction false} WaitsConcat(a: seq<map<nat, Access>>, b: seq<map<nat, Access>>, i: nat, s: nat,
                                       state: StoreState, n: nat)
    requires n < |a| + |b|
    ensures WaitsInPlace(a + b, i, s, state, n) ==
            if n < |a| then WaitsInPlace(a, i, s, state, n)
            else WaitsInPlace(b, i + |a|, s, InPlace(a, i, s, state), n - |a|)
  {
    if n < |a| {
      assert (a + b)[..n] == a[..n];
    } else {
      assert (a + b)[..n] == a + b[..n - |a|];
      InPlaceConcat(a, b[..n - |a|], i, s, state);
    }
  }

  lemma {:induction false} WaitsSplit(items: seq<Item>, i: nat, s: nat, state: StoreState, n: nat)
    requires n < |Tasks(items)|
    ensures var item, w := items[0], Width(items[0]);
      WaitsInPlace(Tasks(items), i, s, state, n) ==
      if n == 0 then WaitsInPlace([item.access], i, s, state, 0)
      else if n < w then WaitsInPlace(Tasks(item.body), i + 1, s, OwnInPlace(item, i, s, state), n - 1)
      else WaitsInPlace(Tasks(items[1..]), i + w, s, StepInPlace(item, i, s, state), n - w)
  {
    WaitsConcat([items[0].access] + Tasks(items[0].body), Tasks(items[1..]), i, s, state, n);
    if n < Width(items[0]) {
      WaitsConcat([items[0].access], Tasks(items[0].body), i, s, state, n);
    }
  }

  lemma {:induction false} TaskAt(items: seq<Item>, n: nat)
    requires n < |Tasks(items)|
    ensures var item, w := items[0], Width(items[0]);
      Tasks(items)[n] == if n == 0 then item.access
                         else if n < w then Tasks(item.body)[n - 1]
                         else Tasks(items[1..])[n - w]
  {
  }

  // ----- views

  /** Reads through a view change nothing but the readers. */
  lemma {:induction false} ViewInPlace(items: seq<Item>, i: nat, s: nat, hold: Hold, state: StoreState)
    requires Holds(items, s, hold) && !hold.AsStore?
    ensures var after := InPlace(Tasks(items), i, s, state);
      Events(after.childRw) == Events(state.childRw)
      && Events(state.war) <= Events(after.war) <= Events(state.war) + ReadersOf(items, i, s)
    ensures hold.NotHeld? ==> ReadersOf(items, i, s) == NO_EVENT
    decreases items
  {
    if items != [] {
      var own := OwnInPlace(items[0], i, s, state);
      InPlaceSplit(items, i, s, state);
      ViewInPlace(items[0].body, i + 1, s, HoldIn(items[0], s), own);
      ViewInPlace(items[1..], i + Width(items[0]), s, hold, StepInPlace(items[0], i, s, state));
    }
  }

  /** A task that uses a view is one of its readers. */
  lemma {:induction false} ViewReads(items: seq<Item>, i: nat, s: nat, hold: Hold, n: nat)
    requires Holds(items, s, hold) && !hold.AsStore? && n < |Tasks(items)| && s in Tasks(items)[n]
    ensures !hold.NotHeld? && External(i + n) in ReadersOf(items, i, s)
    decreases items
  {
    TaskAt(items, n);
    if n >= Width(items[0]) {
      ViewReads(items[1..], i + Width(items[0]), s, hold, n - Width(items[0]));
    } else if n > 0 {
      ViewReads(items[0].body, i + 1, s, HoldIn(items[0], s), n - 1);
    }
  }

  /** In place too. */
  lemma {:induction false} ViewReadsInPlace(items: seq<Item>, i: nat, s: nat, hold: Hold, state: StoreState, n: nat)
    requires Holds(items, s, hold) && !hold.AsStore? && n < |Tasks(items)| && s in Tasks(items)[n]
    ensures External(i + n) in Events(InPlace(Tasks(items), i, s, state).war)
    decreases items
  {
    var item, w, own := items[0], Width(items[0]), OwnInPlace(items[0], i, s, state);
    var step := StepInPlace(item, i, s, state);
    InPlaceSplit(items, i, s, state);
    TaskAt(items, n);
    if n >= w {
      ViewReadsInPlace(items[1..], i + w, s, hold, step, n - w);
    } else {
      ViewInPlace(items[1..], i + w, s, hold, step);
      if n == 0 {
        ViewInPlace(item.body, i + 1, s, HoldIn(item, s), own);
      } else {
        ViewReadsInPlace(item.body, i + 1, s, HoldIn(item, s), own, n - 1);
      }
    }
  }

  /** In place, a read through a view waits for the writers that the view started with. */
  lemma {:induction false} ViewWaits(items: seq<Item>, i: nat, s: nat, hold: Hold, state: StoreState, n: nat)
    requires Holds(items, s, hold) && !hold.AsStore? && n < |Tasks(items)| && s in Tasks(items)[n]
    ensures WaitsInPlace(Tasks(items), i, s, state, n) == Events(state.childRw)
    decreases items
  {
    var item, w, own := items[0], Width(items[0]), OwnInPlace(items[0], i, s, state);
    var step := StepInPlace(item, i, s, state);
    WaitsSplit(items, i, s, state, n);
    InPlaceSplit(items, i, s, state);
    TaskAt(items, n);
    if n >= w {
      ViewInPlace(item.body, i + 1, s, HoldIn(item, s), own);
      ViewWaits(items[1..], i + w, s, hold, step, n - w);
    } else if n > 0 {
      ViewWaits(item.body, i + 1, s, HoldIn(item, s), own, n - 1);
    }
  }

  // ----- child stores

  /** The child that task i takes is dropped with none of the tasks of the body left as a reader. */
  predicate NoReadersLeft(item: Item, i: nat, s: nat, state: StoreState) {
    forall n :: 0 <= n < |Tasks(item.body)| && s in Tasks(item.body)[n] ==>
      External(i + 1 + n) !in Events(Child(item, i, s, state).war)
  }

  /** Every child of s is dropped that way. */
  predicate Tidy(items: seq<Item>, i: nat, s: nat, state: StoreState)
    decreases items
  {
    items == [] ||
    (&& (HoldIn(items[0], s).AsStore? ==>
           Tidy(items[0].body, i + 1, s, ChildOf(state, NoUserEvent)) && NoReadersLeft(items[0], i, s, state))
     && Tidy(items[1..], i + Width(items[0]), s, Step(items[0], i, s, state)))
  }

  /** Task a is in the event, or comes before a task that is. */
  ghost predicate Led(top: seq<Item>, a: nat, event: Event) {
    External(a) in event || exists k: nat :: External(k) in event && Leads(top, a, k)
  }

  lemma {:induction false} LedLeads(top: seq<Item>, a: nat, event: Event, j: nat)
    requires Led(top, a, event) && forall k: nat :: External(k) in event ==> NestedNeeds(top, k, j)
    ensures Leads(top, a, j)
  {
    if External(a) !in event {
      var k: nat :| External(k) in event && Leads(top, a, k);
      NeedsEarlierTask(top, k, j);
    }
  }

  lemma {:induction false} LedThrough(top: seq<Item>, a: nat, event: Event, j: nat, later: Event)
    requires Led(top, a, event) && event <= later
    ensures Led(top, a, later)
  {
  }

  /** What waits for the nested state comes after all that the state in place would make it wait for. */
  ghost predicate Follows(top: seq<Item>, flat: StoreState, nested: StoreState, i: nat) {
    && Bounded(flat, i)
    && (forall a: nat :: External(a) in Events(flat.childRw) ==> Led(top, a, Events(nested.childRw)))
    && (forall a: nat :: External(a) in Events(flat.war) ==>
          External(a) in Events(nested.war) || Led(top, a, Events(nested.childRw)))
  }

  /** The items are part of the program, from task i on. */
  ghost predicate PartOf(top: seq<Item>, items: seq<Item>, i: nat, s: nat, state: StoreState) {
    forall j: nat, a: nat :: i <= j < i + |Tasks(items)| && External(a) in WaitsOn(items, i, s, state, j) ==>
      NestedNeeds(top, a, j)
  }

  lemma {:induction false} PartsOf(top: seq<Item>, items: seq<Item>, i: nat, s: nat, state: StoreState)
    requires items != [] && PartOf(top, items, i, s, state)
    ensures PartOf(top, items[1..], i + Width(items[0]), s, Step(items[0], i, s, state))
    ensures HoldIn(items[0], s).AsStore? ==> PartOf(top, items[0].body, i + 1, s, ChildOf(state, NoUserEvent))
    ensures forall a: nat :: External(a) in Own(items[0], s, state) ==> NestedNeeds(top, a, i)
  {
    forall a: nat | External(a) in Own(items[0], s, state) ensures NestedNeeds(top, a, i) {
      assert External(a) in WaitsOn(items, i, s, state, i);
    }
    var rest, next := i + Width(items[0]), Step(items[0], i, s, state);
    forall j: nat, a: nat |
      rest <= j < rest + |Tasks(items[1..])| && External(a) in WaitsOn(items[1..], rest, s, next, j)
      ensures NestedNeeds(top, a, j)
    {
      assert External(a) in WaitsOn(items, i, s, state, j);
    }
    if HoldIn(items[0], s).AsStore? {
      var child := ChildOf(state, NoUserEvent);
      forall j: nat, a: nat |
        i + 1 <= j < i + 1 + |Tasks(items[0].body)| && External(a) in WaitsOn(items[0].body, i + 1, s, child, j)
        ensures NestedNeeds(top, a, j)
      {
        assert External(a) in WaitsOn(items, i, s, state, j);
      }
    }
  }

  /** Readers on a child are those it started with, or tasks of the body. */
  lemma {:induction false} ReadersOrigin(items: seq<Item>, i: nat, s: nat, state: StoreState, a: nat)
    requires External(a) in Events(After(items, i, s, state).war)
    ensures External(a) in Events(state.war) || a >= i
    decreases items
  {
    if items != [] {
      var rest, next := i + Width(items[0]), Step(items[0], i, s, state);
      ReadersOrigin(items[1..], rest, s, next, a);
      if External(a) in ReadersOf(items[0].body, i + 1, s) {
        ReadersInRange(items[0].body, i + 1, s, a);
      }
    }
  }

  lemma {:induction false} ReadersInPlace(tasks: seq<map<nat, Access>>, i: nat, s: nat, state: StoreState, a: nat)
    requires External(a) in Events(InPlace(tasks, i, s, state).war)
    ensures External(a) in Events(state.war) || (i <= a < i + |tasks| && s in tasks[a - i])
  {
    if tasks != [] {
      var own := if s in tasks[0] then Submitted(state, tasks[0][s], Completion(i)) else state;
      ReadersInPlace(tasks[1..], i + 1, s, own, a);
    }
  }

  /** A task that in place would be a reader, and is one on the child that is dropped, was one before. */
  lemma {:induction false} ReaderInherited(item: Item, i: nat, s: nat, nested: StoreState, flat: StoreState, a: nat)
    requires NoReadersLeft(item, i, s, nested) && Bounded(flat, i)
    requires External(a) in Events(Child(item, i, s, nested).war)
    requires External(a) in Events(InPlace(Tasks(item.body), i + 1, s, flat).war)
    ensures External(a) in Events(nested.war)
  {
    ReadersInPlace(Tasks(item.body), i + 1, s, flat, a);
    ReadersOrigin(item.body, i + 1, s, ChildOf(nested, NoUserEvent), a);
  }

  lemma {:induction false} AfterFollows(top: seq<Item>, items: seq<Item>, i: nat, s: nat, nested: StoreState,
                                        flat: StoreState)
    requires Holds(items, s, AsStore) && Tidy(items, i, s, nested)
    requires PartOf(top, items, i, s, nested) && Follows(top, flat, nested, i)
    ensures Follows(top, InPlace(Tasks(items), i, s, flat), After(items, i, s, nested), i + |Tasks(items)|)
    decreases items, 1
  {
    if items != [] {
      PartsOf(top, items, i, s, nested);
      InPlaceSplit(items, i, s, flat);
      StepFollows(top, items, i, s, nested, flat);
      AfterFollows(top, items[1..], i + Width(items[0]), s, Step(items[0], i, s, nested),
                   StepInPlace(items[0], i, s, flat));
    }
  }

  lemma {:induction false} StepFollows(top: seq<Item>, items: seq<Item>, i: nat, s: nat, nested: StoreState,
                                       flat: StoreState)
    requires items != [] && Holds(items, s, AsStore) && Tidy(items, i, s, nested)
    requires PartOf(top, items, i, s, nested) && Follows(top, flat, nested, i)
    ensures Follows(top, StepInPlace(items[0], i, s, flat), Step(items[0], i, s, nested), i + Width(items[0]))
    decreases items, 0
  {
    var item := items[0];
    InPlaceSplit(items, i, s, flat);
    PartsOf(top, items, i, s, nested);
    match HoldIn(item, s) {
      case AsStore => ChildFollows(top, item, i, s, nested, flat);
      case AsView =>
        ViewInPlace(item.body, i + 1, s, AsView, flat);
        forall a: nat | External(a) in ReadersOf(item.body, i + 1, s) ensures a < i + Width(item) {
          ReadersInRange(item.body, i + 1, s, a);
        }
      case NotHeld => ViewInPlace(item.body, i + 1, s, NotHeld, OwnInPlace(item, i, s, flat));
    }
  }

  lemma {:induction false} ChildFollows(top: seq<Item>, item: Item, i: nat, s: nat, nested: StoreState,
                                        flat: StoreState)
    requires HoldIn(item, s).AsStore? && Holds(item.body, s, AsStore)
    requires Tidy(item.body, i + 1, s, ChildOf(nested, NoUserEvent)) && NoReadersLeft(item, i, s, nested)
    requires PartOf(top, item.body, i + 1, s, ChildOf(nested, NoUserEvent)) && Follows(top, flat, nested, i)
    requires forall a: nat :: External(a) in Own(item, s, nested) ==> NestedNeeds(top, a, i)
    ensures Follows(top, InPlace(Tasks(item.body), i + 1, s, flat), Step(item, i, s, nested), i + Width(item))
    decreases item, 2
  {
    var child := ChildOf(nested, NoUserEvent);
    var after, next := InPlace(Tasks(item.body), i + 1, s, flat), Step(item, i, s, nested);
    assert Follows(top, flat, child, i + 1);
    AfterFollows(top, item.body, i + 1, s, child, flat);
    forall a: nat | External(a) in Events(after.war) ensures Led(top, a, Events(next.childRw)) {
      if External(a) in Events(Child(item, i, s, nested).war) {
        ReaderInherited(item, i, s, nested, flat, a);
        assert NestedNeeds(top, a, i);
        assert External(i) in Events(next.childRw);
      }
    }
  }

  /** A read through a view, however deep, waits for the writers that the view started with. */
  lemma {:induction false} NestedViewWaits(items: seq<Item>, i: nat, s: nat, state: StoreState, n: nat)
    requires items != [] && 0 < n < Width(items[0]) && !HoldIn(items[0], s).AsStore?
    requires Holds(items[0].body, s, HoldIn(items[0], s)) && s in Tasks(items[0].body)[n - 1]
    ensures s !in items[0].access && WaitsOn(items, i, s, state, i + n) == Events(state.childRw)
  {
    ViewReads(items[0].body, i + 1, s, HoldIn(items[0], s), n - 1);
  }

  lemma {:induction false} InsideView(top: seq<Item>, items: seq<Item>, i: nat, s: nat, nested: StoreState,
                                      flat: StoreState, n: nat, a: nat)
    requires Holds(items, s, AsStore) && items != [] && 0 < n < Width(items[0]) && !HoldIn(items[0], s).AsStore?
    requires PartOf(top, items, i, s, nested) && Follows(top, flat, nested, i)
    requires var own := OwnInPlace(items[0], i, s, flat);
      External(a) in WaitsInPlace(Tasks(items[0].body), i + 1, s, own, n - 1)
    ensures Leads(top, a, i + n)
  {
    var item, own := items[0], OwnInPlace(items[0], i, s, flat);
    ViewWaits(item.body, i + 1, s, HoldIn(item, s), own, n - 1);
    NestedViewWaits(items, i, s, nested, n);
    LedLeads(top, a, Events(nested.childRw), i + n);
  }

  /** In a tidy part of a program, a task comes after all that it would wait for, on account of s, in place. */
  lemma {:induction false} TidyWaits(top: seq<Item>, items: seq<Item>, i: nat, s: nat, nested: StoreState,
                                     flat: StoreState, n: nat, a: nat)
    requires Holds(items, s, AsStore) && Tidy(items, i, s, nested) && n < |Tasks(items)|
    requires PartOf(top, items, i, s, nested) && Follows(top, flat, nested, i)
    requires External(a) in WaitsInPlace(Tasks(items), i, s, flat, n)
    ensures Leads(top, a, i + n)
    decreases items
  {
    var item, w := items[0], Width(items[0]);
    WaitsSplit(items, i, s, flat, n);
    TaskAt(items, n);
    PartsOf(top, items, i, s, nested);
    if n == 0 {
      LedLeads(top, a, Own(item, s, nested), i);
    } else if n >= w {
      StepFollows(top, items, i, s, nested, flat);
      TidyWaits(top, items[1..], i + w, s, Step(item, i, s, nested), StepInPlace(item, i, s, flat), n - w, a);
    } else if HoldIn(item, s).AsStore? {
      assert Follows(top, flat, ChildOf(nested, NoUserEvent), i + 1);
      TidyWaits(top, item.body, i + 1, s, ChildOf(nested, NoUserEvent), flat, n - 1, a);
    } else {
      InsideView(top, items, i, s, nested, flat, n, a);
    }
  }

  // ----- the order of program order is kept

  lemma {:induction false} InPlaceIsStateAt(items: seq<Item>, n: nat, s: nat)
    requires n <= |Tasks(items)|
    ensures StateAt(Flat(items), n, s) == InPlace(Tasks(items)[..n], 0, s, EMPTY_STORE)
  {
    var tasks := Tasks(items);
    if n > 0 {
      InPlaceIsStateAt(items, n - 1, s);
      assert tasks[..n] == tasks[..n - 1] + [tasks[n - 1]];
      InPlaceConcat(tasks[..n - 1], [tasks[n - 1]], 0, s, EMPTY_STORE);
    }
  }

  lemma {:induction false} TidyNeeds(items: seq<Item>, s: nat, i: nat, j: nat)
    requires Holds(items, s, AsStore) && Tidy(items, 0, s, EMPTY_STORE)
    requires j < |Flat(items)| && External(i) in NeedsOn(Flat(items), j, s)
    ensures Leads(items, i, j)
  {
    InPlaceIsStateAt(items, j, s);
    TidyWaits(items, items, 0, s, EMPTY_STORE, EMPTY_STORE, j, i);
  }

  /** When no child is dropped with readers of its own pending, the order of program order is kept. */
  lemma {:induction false} TidyKeepsOrder(items: seq<Item>)
    requires forall s: nat :: Holds(items, s, AsStore) && Tidy(items, 0, s, EMPTY_STORE)
    ensures OrderKept(items)
  {
    forall i: nat, j: nat | j < |Flat(items)| && Needs(Flat(items), i, j) ensures Leads(items, i, j) {
      var s: nat :| External(i) in NeedsOn(Flat(items), j, s);
      assert Holds(items, s, AsStore) && Tidy(items, 0, s, EMPTY_STORE);
      TidyNeeds(items, s, i, j);
    }
  }

  // ----- readers that are left on a child

  /** Readers from lo on are later than all that the store waits for on its write side. */
  ghost predicate ReadersLast(state: StoreState, lo: nat) {
    forall r: nat, k: nat :: r >= lo && External(r) in Events(state.war) && External(k) in Events(state.childRw) ==>
      k < r
  }

  lemma {:induction false} ReadersStayLast(items: seq<Item>, i: nat, s: nat, state: StoreState, lo: nat)
    requires lo <= i && Bounded(state, i) && ReadersLast(state, lo)
    ensures ReadersLast(After(items, i, s, state), lo)
    decreases items
  {
    if items != [] {
      StepBounded(items[0], i, s, state);
      var next := Step(items[0], i, s, state);
      forall r: nat, k: nat | r >= lo && External(r) in Events(next.war) && External(k) in Events(next.childRw)
        ensures k < r
      {
        if External(r) in ReadersOf(items[0].body, i + 1, s) {
          ReadersInRange(items[0].body, i + 1, s, r);
        }
      }
      ReadersStayLast(items[1..], i + Width(items[0]), s, next, lo);
    }
  }

  /** A reader stays on the child only if nothing after it writes, nested or in place. */
  lemma {:induction false} ReaderKept(items: seq<Item>, i: nat, s: nat, state: StoreState, flat: StoreState, r: nat)
    requires Holds(items, s, AsStore) && r < i && External(r) in Events(After(items, i, s, state).war)
    ensures External(r) in Events(state.war)
    ensures External(r) in Events(flat.war) ==> External(r) in Events(InPlace(Tasks(items), i, s, flat).war)
    decreases items
  {
    ReadersOrigin(items, i, s, state, r);
    if items != [] {
      var item, rest := items[0], i + Width(items[0]);
      ReadersOrigin(items[1..], rest, s, Step(item, i, s, state), r);
      ReaderKept(items[1..], rest, s, Step(item, i, s, state), StepInPlace(item, i, s, flat), r);
      InPlaceSplit(items, i, s, flat);
      if !HoldIn(item, s).AsStore? {
        ViewInPlace(item.body, i + 1, s, HoldIn(item, s), OwnInPlace(item, i, s, flat));
      }
    }
  }

  /** A task that is left as a reader of a child would be a reader of the store in place. */
  lemma {:induction false} LeftInPlace(items: seq<Item>, i: nat, s: nat, state: StoreState, flat: StoreState, n: nat)
    requires Holds(items, s, AsStore) && n < |Tasks(items)| && s in Tasks(items)[n]
    requires External(i + n) in Events(After(items, i, s, state).war)
    ensures External(i + n) in Events(InPlace(Tasks(items), i, s, flat).war)
    decreases items
  {
    var item, w := items[0], Width(items[0]);
    var next, step := Step(item, i, s, state), StepInPlace(item, i, s, flat);
    InPlaceSplit(items, i, s, flat);
    TaskAt(items, n);
    if n >= w {
      LeftInPlace(items[1..], i + w, s, next, step, n - w);
    } else {
      ReaderKept(items[1..], i + w, s, next, step, i + n);
      ViewInPlace(item.body, i + 1, s, HoldIn(item, s), OwnInPlace(item, i, s, flat));
      if n > 0 {
        ViewReads(item.body, i + 1, s, HoldIn(item, s), n - 1);
        ViewReadsInPlace(item.body, i + 1, s, HoldIn(item, s), OwnInPlace(item, i, s, flat), n - 1);
      }
    }
  }

  /**
   A task of the body that is left as a reader of a dropped child is lost: what the next writer of the
   store waits for neither holds it nor leads to it, in whatever program, although in place it would.
   */
  lemma {:induction false} ReaderLost(top: seq<Item>, item: Item, i: nat, s: nat, state: StoreState,
                                      flat: StoreState, n: nat)
    requires HoldIn(item, s).AsStore? && Holds(item.body, s, AsStore) && Bounded(state, i)
    requires n < |Tasks(item.body)| && s in Tasks(item.body)[n]
    requires External(i + 1 + n) in Events(Child(item, i, s, state).war)
    ensures !Led(top, i + 1 + n, Events(ArgumentPrecondition(Step(item, i, s, state), Write)))
    ensures External(i + 1 + n) in Events(ArgumentPrecondition(StepInPlace(item, i, s, flat), Write))
  {
    var r, child := i + 1 + n, ChildOf(state, NoUserEvent);
    ReadersStayLast(item.body, i + 1, s, child, i + 1);
    LeftInPlace(item.body, i + 1, s, child, flat, n);
    InPlaceSplit([item], i, s, flat);
    forall k: nat | External(k) in Events(ArgumentPrecondition(Step(item, i, s, state), Write))
      ensures k < r && !Leads(top, r, k)
    {
      if Leads(top, r, k) {
        LeadsLater(top, r, k);
      }
    }
  }

  /** A task that takes a child of s, and a writer of s after it. */
  function NestThenWrite(nest: Item, s: nat): seq<Item> {
    [nest, Item(map[s := Write], {}, {}, [])]
  }

  lemma {:induction false} WriterShape(nest: Item, s: nat)
    requires HoldIn(nest, s).AsStore?
    ensures var items, m := NestThenWrite(nest, s), Width(nest);
      && Tasks(items) == [nest.access] + Tasks(nest.body) + [map[s := Write]]
      && (forall k: nat :: !Inside(items, 0, k, m))
      && forall t: nat :: WaitsOn(items, 0, t, EMPTY_STORE, m) ==
           if t == s then Events(ArgumentPrecondition(Step(nest, 0, s, EMPTY_STORE), Write)) else NO_EVENT
  {
    var items, m := NestThenWrite(nest, s), Width(nest);
    var writer := items[1..];
    assert writer == [Item(map[s := Write], {}, {}, [])] && writer[1..] == [] && Tasks(writer) == [map[s := Write]];
    forall t: nat
      ensures WaitsOn(items, 0, t, EMPTY_STORE, m) ==
              if t == s then Events(ArgumentPrecondition(Step(nest, 0, s, EMPTY_STORE), Write)) else NO_EVENT
    {
      assert WaitsOn(items, 0, t, EMPTY_STORE, m) == WaitsOn(writer, m, t, Step(nest, 0, t, EMPTY_STORE), m);
    }
    forall k: nat ensures !Inside(items, 0, k, m) {
      assert Inside(items, 0, k, m) <==> Inside(writer, m, k, m);
      if Inside(writer, m, k, m) {
        InsideLater(writer, m, k, m);
      }
    }
  }

  lemma {:induction false} LeftIsNotFollowed(nest: Item, s: nat, n: nat)
    requires HoldIn(nest, s).AsStore? && Holds(nest.body, s, AsStore)
    requires n < |Tasks(nest.body)| && s in Tasks(nest.body)[n]
    requires External(1 + n) in Events(Child(nest, 0, s, EMPTY_STORE).war)
    ensures var items, m := NestThenWrite(nest, s), Width(nest);
      m + 1 == |Flat(items)| && Needs(Flat(items), 1 + n, m) && !Leads(items, 1 + n, m)
  {
    var items, m := NestThenWrite(nest, s), Width(nest);
    WriterShape(nest, s);
    ReaderLost(items, nest, 0, s, EMPTY_STORE, EMPTY_STORE, n);
    assert !Led(items, 1 + n, WaitsOn(items, 0, s, EMPTY_STORE, m));
    InPlaceIsStateAt(items, m, s);
    assert Tasks(items)[..m] == [nest.access] + Tasks(nest.body);
    assert External(1 + n) in NeedsOn(Flat(items), m, s);
  }

  /** A writer follows the whole body exactly when the child is dropped with none of its tasks left as a reader. */
  lemma {:induction false} WriterFollowsIff(nest: Item, s: nat)
    requires HoldIn(nest, s).AsStore? && Holds(nest.body, s, AsStore)
    requires Tidy(nest.body, 1, s, ChildOf(EMPTY_STORE, NoUserEvent))
    ensures var items, m := NestThenWrite(nest, s), Width(nest);
      && m + 1 == |Flat(items)|
      && ((forall i: nat :: Needs(Flat(items), i, m) ==> Leads(items, i, m)) <==>
          NoReadersLeft(nest, 0, s, EMPTY_STORE))
  {
    var items, m := NestThenWrite(nest, s), Width(nest);
    WriterShape(nest, s);
    if NoReadersLeft(nest, 0, s, EMPTY_STORE) {
      WriterTidy(nest, s);
      forall i: nat | Needs(Flat(items), i, m) ensures Leads(items, i, m) {
        assert External(i) in NeedsOn(Flat(items), m, s);
        TidyNeeds(items, s, i, m);
      }
    } else {
      var n :| 0 <= n < |Tasks(nest.body)| && s in Tasks(nest.body)[n]
        && External(1 + n) in Events(Child(nest, 0, s, EMPTY_STORE).war);
      LeftIsNotFollowed(nest, s, n);
    }
  }

  lemma {:induction false} WriterTidy(nest: Item, s: nat)
    requires HoldIn(nest, s).AsStore? && Holds(nest.body, s, AsStore)
    requires Tidy(nest.body, 1, s, ChildOf(EMPTY_STORE, NoUserEvent)) && NoReadersLeft(nest, 0, s, EMPTY_STORE)
    ensures Holds(NestThenWrite(nest, s), s, AsStore) && Tidy(NestThenWrite(nest, s), 0, s, EMPTY_STORE)
  {
    var writer := NestThenWrite(nest, s)[1..];
    assert writer == [Item(map[s := Write], {}, {}, [])] && writer[1..] == [];
  }

  /** A body that only reads its child store, then a writer: the writer does not wait for the reader. */
  const READ_INSIDE := Item(map[], {0}, {}, [Item(map[0 := Read], {}, {}, [])])

  lemma {:induction false} WriterOvertakesNestedReader()
    ensures var items := NestThenWrite(READ_INSIDE, 0);
      |Flat(items)| == 3 && Needs(Flat(items), 1, 2) && !Leads(items, 1, 2)
  {
    var body := READ_INSIDE.body;
    assert body[1..] == [] && Tasks(body) == [map[0 := Read]];
    assert External(1) in Events(Child(READ_INSIDE, 0, 0, EMPTY_STORE).war);
    LeftIsNotFollowed(READ_INSIDE, 0, 0);
  }

  /** A reader before the task that takes the child is not lost: the task waits for it, and the writer for the task. */
  const READ_BEFORE := [Item(map[0 := Read], {}, {}, [])] + NestThenWrite(Item(map[], {0}, {}, []), 0)

  lemma {:induction false} InheritedReaderAwaited()
    ensures NestedNeeds(READ_BEFORE, 0, 1) && NestedNeeds(READ_BEFORE, 1, 2) && !NestedNeeds(READ_BEFORE, 0, 2)
    ensures |Flat(READ_BEFORE)| == 3 && Needs(Flat(READ_BEFORE), 0, 2) && Leads(READ_BEFORE, 0, 2)
  {
    var items, last := READ_BEFORE, READ_BEFORE[1..][1..];
    assert items[1..] == NestThenWrite(Item(map[], {0}, {}, []), 0);
    assert last == [Item(map[0 := Write], {}, {}, [])] && last[1..] == [];
    assert Tasks(last) == [map[0 := Write]] && Tasks(items) == [map[0 := Read], map[], map[0 := Write]];
    var first := Step(items[0], 0, 0, EMPTY_STORE);
    assert WaitsOn(items, 0, 0, EMPTY_STORE, 1) == Own(items[1], 0, first);
    var second := Step(items[1], 1, 0, first);
    assert WaitsOn(items, 0, 0, EMPTY_STORE, 2) == WaitsOn(items[1..], 1, 0, first, 2) == Own(last[0], 0, second);
    forall t: nat ensures External(0) !in WaitsOn(items, 0, t, EMPTY_STORE, 2) {
      var one := Step(items[0], 0, t, EMPTY_STORE);
      assert WaitsOn(items, 0, t, EMPTY_STORE, 2) == WaitsOn(items[1..], 1, t, one, 2);
      assert WaitsOn(items[1..], 1, t, one, 2) == Own(last[0], t, Step(items[1], 1, t, one));
    }
    NeedsExactly(Flat(items), 0, 2, 0);
  }
}
