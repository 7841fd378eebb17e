/**
 What happens to a store between the rounds of a reshard: tasks use it, or the program waits for it.
 Whoever waits for the store later thereby waits for all that anybody would have waited for earlier.
 */
module StoreUses {
  import opened Shape
  import opened Realm
  import opened Stores

  /** A task or an open-ended handle takes the store, or the program blocks until the store is ready. */
  datatype Use = ByTask(access: Access, completion: Event) | Awaited

  function AfterUse(s: StoreState, use: Use): StoreState {
    match use
    case ByTask(access, completion) => Submitted(s, access, completion)
    case Awaited => s.(childRw := None, war := None)
  }

  function AfterUses(s: StoreState, uses: seq<Use>): StoreState
    decreases |uses|
  {
    if uses == [] then s else AfterUses(AfterUse(s, uses[0]), uses[1..])
  }

  /** What has fired. */
  type Past = iset<Atom>

  ghost predicate Over(event: Event, past: Past) {
    forall a :: a in event ==> a in past
  }

  /** A task that is done has started, so what its argument waits for is over; waiting ends when all is over. */
  ghost predicate UseHappens(s: StoreState, use: Use, past: Past) {
    match use
    case ByTask(access, completion) =>
      Over(completion, past) ==> Over(Events(ArgumentPrecondition(s, access)), past)
    case Awaited => Over(Events(StorePrecondition(s)), past)
  }

  ghost predicate UsesHappen(s: StoreState, uses: seq<Use>, past: Past)
    decreases |uses|
  {
    uses == [] || (UseHappens(s, uses[0], past) && UsesHappen(AfterUse(s, uses[0]), uses[1..], past))
  }

  /** When all that the store waits for after the uses is over, so is all that it waited for before them. */
  lemma {:induction false} EarlierOver(s: StoreState, uses: seq<Use>, past: Past)
    requires UsesHappen(s, uses, past) && Over(Events(StorePrecondition(AfterUses(s, uses))), past)
    ensures Over(Events(StorePrecondition(s)), past)
    decreases |uses|
  {
    if uses != [] {
      EarlierOver(AfterUse(s, uses[0]), uses[1..], past);
    }
  }

  /** What a store has been made ready after stays in its precondition, whatever tasks use it in between. */
  lemma {:induction false} ReadyAfterStays(s: StoreState, event: Event, uses: seq<Use>)
    requires event <= Events(s.childRw) && forall i :: 0 <= i < |uses| ==> uses[i].ByTask?
    ensures event <= Events(StorePrecondition(AfterUses(s, uses)))
    decreases |uses|
  {
    if uses != [] {
      ReadyAfterStays(AfterUse(s, uses[0]), event, uses[1..]);
    }
  }

  /** A store waits for nothing but what it has been given: at first, or by the uses. */
  lemma {:induction false} OnlyFromUses(s: StoreState, uses: seq<Use>, a: Atom)
    requires a in Events(StorePrecondition(AfterUses(s, uses)))
    ensures a in Events(StorePrecondition(s))
            || exists i :: 0 <= i < |uses| && uses[i].ByTask? && a in uses[i].completion
    decreases |uses|
  {
    if uses != [] {
      OnlyFromUses(AfterUse(s, uses[0]), uses[1..], a);
      if i :| 0 <= i < |uses[1..]| && uses[1..][i].ByTask? && a in uses[1..][i].completion {
        assert uses[i + 1].ByTask? && a in uses[i + 1].completion;
      }
    }
  }

  /** How the stores of all tiles are named and used: the event of round k under a key, and the uses after round k. */
  datatype Upkeep<!K> = Upkeep(name: (K, nat) -> nat, first: nat -> StoreState, uses: (nat, nat) -> seq<Use>)
}
