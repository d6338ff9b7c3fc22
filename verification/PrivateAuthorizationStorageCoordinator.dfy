/** `exclusivelyAll` as a step machine: tasks that take the locks of several scopes one at a time, in
    sorted order, through one promise chain per scope. */
module PrivateAuthorizationStorageCoordinator {
  import opened Sequences
  import opened Wrappers
  import opened SerialSections

  /** A scope id, as its place in the `localeCompare` order of scope ids. */
  type ScopeId = nat

  /** The scopes a task takes, in the order it takes them; the sections it has asked for and not yet
      released, one per scope taken so far, the last one possibly still waiting; and whether its action
      is over and it is releasing, innermost first. */
  datatype Task = Task(scopes: seq<ScopeId>, slots: seq<nat>, releasing: bool)
  {
    predicate Finished() {
      releasing && slots == []
    }
  }

  /** The promise chains, the task that waits in or holds each section, and the tasks. */
  datatype State = State(queue: Queue<ScopeId>, owners: seq<nat>, tasks: seq<Task>)

  const INITIAL := State(Queue([], map[]), [], [])

  /** `[...new Set(scopeIds)].sort(localeCompare)`. */
  function SortedScopes(scopeIds: seq<ScopeId>): seq<ScopeId> {
    if scopeIds == [] then [] else AddAscending(scopeIds[0], SortedScopes(scopeIds[1..]))
  }

  lemma {:induction false} SortedScopesAscend(scopeIds: seq<ScopeId>)
    ensures Ascending(SortedScopes(scopeIds))
    ensures forall id :: id in SortedScopes(scopeIds) <==> id in scopeIds
  {
    if scopeIds != [] {
      SortedScopesAscend(scopeIds[1..]);
      AddAscends(scopeIds[0], SortedScopes(scopeIds[1..]));
      assert scopeIds == [scopeIds[0]] + scopeIds[1..];
    }
  }

  lemma NoRepeats(first: ScopeId, second: ScopeId)
    requires first != second
    ensures WithoutRepeats([first, second]) == [first, second]
  {
    assert [first, second][..1] == [first] && [first][..0] == [];
    assert WithoutRepeats([first]) == [first];
  }

  /** `ExclusivelyAll` is the call the program makes; `Nesting` is a task that takes scopes by hand,
      each inside the one before; a call for a scope it already holds goes straight on. The other steps
      are those of task `t`: joining the queue of its next scope, being let in, its action settling, and
      one `finally` block. */
  datatype Event =
    | ExclusivelyAll(scopeIds: seq<ScopeId>)
    | Nesting(scopes: seq<ScopeId>)
    | Request(t: nat)
    | Grant(t: nat)
    | FinishAction(t: nat)
    | Release(t: nat)

  predicate HoldsAllItAsked(state: State, task: Task) {
    task.slots == []
    || (var last := task.slots[|task.slots| - 1];
        last < |state.queue.sections| && state.queue.sections[last].phase == Open)
  }

  ghost predicate Enabled(state: State, event: Event) {
    match event
    case ExclusivelyAll(_) => true
    case Nesting(_) => true
    case Request(t) =>
      && t < |state.tasks| && var task := state.tasks[t];
      !task.releasing && |task.slots| < |task.scopes| && HoldsAllItAsked(state, task)
    case Grant(t) =>
      && t < |state.tasks| && var task := state.tasks[t];
      && !task.releasing && task.slots != []
      && LinksBack(state.queue.sections) && CanOpen(state.queue.sections, task.slots[|task.slots| - 1])
    case FinishAction(t) =>
      && t < |state.tasks| && var task := state.tasks[t];
      !task.releasing && |task.slots| == |task.scopes| && HoldsAllItAsked(state, task)
    case Release(t) =>
      && t < |state.tasks| && var task := state.tasks[t];
      && task.releasing && task.slots != []
      && task.slots[|task.slots| - 1] < |state.queue.sections|
  }

  ghost function Apply(state: State, event: Event): State
    requires Enabled(state, event)
  {
    match event
    case ExclusivelyAll(scopeIds) => state.(tasks := state.tasks + [Task(SortedScopes(scopeIds), [], false)])
    case Nesting(scopes) => state.(tasks := state.tasks + [Task(WithoutRepeats(scopes), [], false)])
    case Request(t) =>
      var task := state.tasks[t];
      State(Arrive(state.queue, task.scopes[|task.slots|]),
            state.owners + [t],
            state.tasks[t := task.(slots := task.slots + [|state.queue.sections|])])
    case Grant(t) =>
      var task := state.tasks[t];
      state.(queue := Enter(state.queue, task.slots[|task.slots| - 1]))
    case FinishAction(t) => state.(tasks := state.tasks[t := state.tasks[t].(releasing := true)])
    case Release(t) =>
      var task := state.tasks[t];
      State(Settle(state.queue, task.slots[|task.slots| - 1]),
            state.owners,
            state.tasks[t := task.(slots := task.slots[..|task.slots| - 1])])
  }

  // ---- What every step keeps ----

  /** Each slot is the task's own section on its scope; all but the last are open, and the last one too
      once the action is over. */
  ghost predicate SoundTask(state: State, t: nat)
    requires t < |state.tasks| && |state.owners| == |state.queue.sections|
  {
    var sections, task := state.queue.sections, state.tasks[t];
    && Distinct(task.scopes)
    && |task.slots| <= |task.scopes|
    && (forall k :: 0 <= k < |task.slots| ==>
          && task.slots[k] < |sections|
          && state.owners[task.slots[k]] == t
          && sections[task.slots[k]].key == task.scopes[k]
          && sections[task.slots[k]].phase != Closed
          && (k < |task.slots| - 1 || task.releasing ==> sections[task.slots[k]].phase == Open))
  }

  ghost predicate Invariant(state: State) {
    && Sound(state.queue)
    && |state.owners| == |state.queue.sections|
    && (forall t :: 0 <= t < |state.tasks| ==> SoundTask(state, t))
    && SoundOwners(state)
  }

  /** Every unsettled section is a slot of the task that owns it. */
  ghost predicate SoundOwners(state: State)
    requires |state.owners| == |state.queue.sections|
  {
    forall i :: 0 <= i < |state.owners| && state.queue.sections[i].phase != Closed ==>
      state.owners[i] < |state.tasks| && i in state.tasks[state.owners[i]].slots
  }

  lemma BeginKeeps(state: State, scopes: seq<ScopeId>)
    requires Invariant(state) && Distinct(scopes)
    ensures Invariant(state.(tasks := state.tasks + [Task(scopes, [], false)]))
  {
    var next := state.(tasks := state.tasks + [Task(scopes, [], false)]);
    forall t | 0 <= t < |next.tasks| ensures SoundTask(next, t) {
      if t < |state.tasks| {
        assert SoundTask(state, t);
      }
    }
  }

  lemma RequestKeepsTask(state: State, t: nat, u: nat)
    requires Invariant(state) && Enabled(state, Request(t)) && u < |state.tasks|
    ensures SoundTask(Apply(state, Request(t)), u)
  {
    assert SoundTask(state, u);
    var task, next := state.tasks[u], Apply(state, Request(t));
    var n := |state.queue.sections|;
    assert forall i :: 0 <= i < n ==>
             next.queue.sections[i] == state.queue.sections[i] && next.owners[i] == state.owners[i];
  }

  lemma RequestKeepsOwners(state: State, t: nat)
    requires Invariant(state) && Enabled(state, Request(t))
    ensures SoundOwners(Apply(state, Request(t)))
  {
    var task, next := state.tasks[t], Apply(state, Request(t));
    assert next.tasks[t].slots[|task.slots|] == |state.owners|;
    forall i | 0 <= i < |state.owners| && state.queue.sections[i].phase != Closed
      ensures next.owners[i] < |next.tasks| && i in next.tasks[next.owners[i]].slots
    {
      assert i in state.tasks[state.owners[i]].slots;
    }
  }

  lemma RequestKeeps(state: State, t: nat)
    requires Invariant(state) && Enabled(state, Request(t))
    ensures Invariant(Apply(state, Request(t)))
  {
    ArriveKeeps(state.queue, state.tasks[t].scopes[|state.tasks[t].slots|]);
    forall u | 0 <= u < |state.tasks| ensures SoundTask(Apply(state, Request(t)), u) {
      RequestKeepsTask(state, t, u);
    }
    RequestKeepsOwners(state, t);
  }

  lemma GrantKeeps(state: State, t: nat)
    requires Invariant(state) && Enabled(state, Grant(t))
    ensures Invariant(Apply(state, Grant(t)))
  {
    var next := Apply(state, Grant(t));
    EnterKeeps(state.queue, state.tasks[t].slots[|state.tasks[t].slots| - 1]);
    forall u | 0 <= u < |next.tasks| ensures SoundTask(next, u) {
      assert SoundTask(state, u);
    }
  }

  lemma FinishActionKeeps(state: State, t: nat)
    requires Invariant(state) && Enabled(state, FinishAction(t))
    ensures Invariant(Apply(state, FinishAction(t)))
  {
    var next := Apply(state, FinishAction(t));
    forall u | 0 <= u < |next.tasks| ensures SoundTask(next, u) {
      assert SoundTask(state, u);
    }
  }

  lemma ReleaseKeepsTask(state: State, t: nat, u: nat)
    requires Invariant(state) && Enabled(state, Release(t)) && u < |state.tasks|
    ensures SoundTask(Apply(state, Release(t)), u)
  {
    assert SoundTask(state, u) && SoundTask(state, t);
  }

  lemma ReleaseKeepsOwners(state: State, t: nat)
    requires Invariant(state) && Enabled(state, Release(t))
    ensures SoundOwners(Apply(state, Release(t)))
  {
    var task, next := state.tasks[t], Apply(state, Release(t));
    forall i | 0 <= i < |next.owners| && next.queue.sections[i].phase != Closed
      ensures next.owners[i] < |next.tasks| && i in next.tasks[next.owners[i]].slots
    {
      assert i in state.tasks[state.owners[i]].slots;
      if state.owners[i] == t {
        var k :| 0 <= k < |task.slots| && task.slots[k] == i;
        assert task.slots[..|task.slots| - 1][k] == i;
      }
    }
  }

  lemma ReleaseKeeps(state: State, t: nat)
    requires Invariant(state) && Enabled(state, Release(t))
    ensures Invariant(Apply(state, Release(t)))
  {
    assert SoundTask(state, t);
    SettleKeeps(state.queue, state.tasks[t].slots[|state.tasks[t].slots| - 1]);
    forall u | 0 <= u < |state.tasks| ensures SoundTask(Apply(state, Release(t)), u) {
      ReleaseKeepsTask(state, t, u);
    }
    ReleaseKeepsOwners(state, t);
  }

  lemma EventKeeps(state: State, event: Event)
    requires Invariant(state) && Enabled(state, event)
    ensures Invariant(Apply(state, event))
  {
    match event
    case ExclusivelyAll(scopeIds) =>
      SortedScopesAscend(scopeIds);
      BeginKeeps(state, SortedScopes(scopeIds));
    case Nesting(scopes) =>
      WithoutRepeatsHolds(scopes);
      BeginKeeps(state, WithoutRepeats(scopes));
    case Request(t) => RequestKeeps(state, t);
    case Grant(t) => GrantKeeps(state, t);
    case FinishAction(t) => FinishActionKeeps(state, t);
    case Release(t) => ReleaseKeeps(state, t);
  }

  /** An interleaving: states linked by enabled events, from the initial one. */
  ghost predicate Interleaving(states: seq<State>, events: seq<Event>) {
    && |states| == |events| + 1
    && states[0] == INITIAL
    && forall i :: 0 <= i < |events| ==>
         Enabled(states[i], events[i]) && states[i + 1] == Apply(states[i], events[i])
  }

  ghost predicate AllAscending(state: State) {
    forall t :: 0 <= t < |state.tasks| ==> Ascending(state.tasks[t].scopes)
  }

  lemma {:induction false} InterleavingsAreSound(states: seq<State>, events: seq<Event>, n: nat)
    requires Interleaving(states, events) && n < |states|
    ensures Invariant(states[n])
    ensures (forall i :: 0 <= i < n ==> !events[i].Nesting?) ==> AllAscending(states[n])
  {
    if n > 0 {
      InterleavingsAreSound(states, events, n - 1);
      EventKeeps(states[n - 1], events[n - 1]);
      if events[n - 1].ExclusivelyAll? {
        SortedScopesAscend(events[n - 1].scopeIds);
      }
    }
  }

  // ---- Nobody waits in a cycle ----

  /** The task has asked for a section it has not been let into. */
  ghost predicate IsWaiting(state: State, t: nat) {
    && t < |state.tasks| && state.tasks[t].slots != []
    && var last := state.tasks[t].slots[|state.tasks[t].slots| - 1];
    last < |state.queue.sections| && state.queue.sections[last].phase == Waiting
  }

  function Awaited(state: State, t: nat): ScopeId
    requires t < |state.tasks| && 0 < |state.tasks[t].slots| <= |state.tasks[t].scopes|
  {
    state.tasks[t].scopes[|state.tasks[t].slots| - 1]
  }

  ghost predicate CanStep(state: State, t: nat) {
    || Enabled(state, Request(t)) || Enabled(state, Grant(t))
    || Enabled(state, FinishAction(t)) || Enabled(state, Release(t))
  }

  /** A task that waits for nobody can step. */
  lemma NotWaitingCanStep(state: State, t: nat)
    requires Invariant(state) && t < |state.tasks| && !state.tasks[t].Finished() && !IsWaiting(state, t)
    ensures CanStep(state, t)
  {
    assert SoundTask(state, t);
  }

  /** The section a task asked for last. */
  function LastSlot(state: State, t: nat): nat
    requires t < |state.tasks| && state.tasks[t].slots != []
  {
    state.tasks[t].slots[|state.tasks[t].slots| - 1]
  }

  /** `t` waits behind section `i`: it is unsettled, on the scope `t` waits for, and came earlier. */
  ghost predicate WaitsBehind(state: State, t: nat, i: nat) {
    && IsWaiting(state, t)
    && i < LastSlot(state, t)
    && state.queue.sections[i].key == state.queue.sections[LastSlot(state, t)].key
    && state.queue.sections[i].phase != Closed
  }

  /** `t` waits behind a section of `u`. */
  ghost predicate WaitsFor(state: State, t: nat, u: nat) {
    exists i :: 0 <= i < |state.owners| && WaitsBehind(state, t, i) && state.owners[i] == u
  }

  /** A task waits for another exactly while it cannot step, however the tasks take their scopes. */
  lemma StepsUnlessItWaitsFor(state: State, t: nat)
    requires Invariant(state) && t < |state.tasks| && !state.tasks[t].Finished()
    ensures CanStep(state, t) <==> !exists u :: WaitsFor(state, t, u)
  {
    if IsWaiting(state, t) {
      WaitingStepsWhenFirst(state, t);
    } else {
      NotWaitingCanStep(state, t);
    }
  }

  lemma WaitingStepsWhenFirst(state: State, t: nat)
    requires Invariant(state) && IsWaiting(state, t)
    ensures CanStep(state, t) <==> !exists u :: WaitsFor(state, t, u)
  {
    assert SoundTask(state, t);
    SoundLinksBack(state.queue);
    var slot := LastSlot(state, t);
    OpensInArrivalOrder(state.queue, slot);
    if ClosedBefore(state.queue.sections, slot, state.queue.sections[slot].key) {
      assert Enabled(state, Grant(t));
    } else {
      var i :| 0 <= i < slot && state.queue.sections[i].key == state.queue.sections[slot].key
            && state.queue.sections[i].phase != Closed;
      assert WaitsBehind(state, t, i);
      assert WaitsFor(state, t, state.owners[i]);
    }
  }

  /** `u` waits for a higher scope than `t`, or earlier than `t` for the same one. */
  ghost predicate WaitsFurtherOn(state: State, t: nat, u: nat) {
    && IsWaiting(state, t) && |state.tasks[t].slots| <= |state.tasks[t].scopes|
    && IsWaiting(state, u) && |state.tasks[u].slots| <= |state.tasks[u].scopes|
    && (|| Awaited(state, u) > Awaited(state, t)
        || (Awaited(state, u) == Awaited(state, t) && LastSlot(state, u) < LastSlot(state, t)))
  }

  /** Sorting makes the tasks a task waits for wait further on, if they wait at all. */
  lemma WaitedForIsFurtherOn(state: State, t: nat, u: nat)
    requires Invariant(state) && AllAscending(state) && WaitsFor(state, t, u)
    ensures u < |state.tasks| && !state.tasks[u].Finished()
    ensures IsWaiting(state, u) ==> WaitsFurtherOn(state, t, u)
  {
    var i :| 0 <= i < |state.owners| && WaitsBehind(state, t, i) && state.owners[i] == u;
    var task := state.tasks[u];
    assert SoundTask(state, t) && SoundTask(state, u) && i in task.slots;
    var k :| 0 <= k < |task.slots| && task.slots[k] == i;
    assert Ascending(task.scopes);
  }

  /** The task at the head of the queue a waiting task stands in: the waiting task itself, when it can
      step, or a task it waits for, which can step or waits for a higher scope. */
  lemma WaitsForHigherRank(state: State, t: nat) returns (ahead: nat)
    requires Invariant(state) && AllAscending(state) && IsWaiting(state, t)
    ensures ahead < |state.tasks| && !state.tasks[ahead].Finished()
    ensures WaitsFor(state, t, ahead) || (ahead == t && CanStep(state, t))
    ensures CanStep(state, ahead)
         || (IsWaiting(state, ahead)
             && |state.tasks[ahead].slots| <= |state.tasks[ahead].scopes|
             && |state.tasks[t].slots| <= |state.tasks[t].scopes|
             && Awaited(state, ahead) > Awaited(state, t))
  {
    var sections := state.queue.sections;
    SoundLinksBack(state.queue);
    assert SoundTask(state, t);
    var last := LastSlot(state, t);
    var first := FirstUnsettledMoves(state.queue, last);
    ahead := state.owners[first];
    assert first < last ==> WaitsBehind(state, t, first);
    var task := state.tasks[ahead];
    assert SoundTask(state, ahead) && first in task.slots;
    var k :| 0 <= k < |task.slots| && task.slots[k] == first;
    if !IsWaiting(state, ahead) {
      NotWaitingCanStep(state, ahead);
    } else if sections[first].phase == Open {
      assert k < |task.slots| - 1;
      assert Ascending(task.scopes);
    } else {
      assert k == |task.slots| - 1;
      assert Enabled(state, Grant(ahead));
    }
  }

  /** Each task in the chain waits for the next one. */
  ghost predicate IsChain(state: State, chain: seq<nat>) {
    && chain != []
    && forall k :: 0 <= k < |chain| - 1 ==> WaitsFor(state, chain[k], chain[k + 1])
  }

  /** Following the tasks waited for reaches one that can step. */
  lemma {:induction false} SomeTaskAheadCanStep(state: State, t: nat, bound: nat) returns (chain: seq<nat>)
    requires Invariant(state) && AllAscending(state) && IsWaiting(state, t)
    requires forall u :: 0 <= u < |state.tasks| ==>
               forall k :: 0 <= k < |state.tasks[u].scopes| ==> state.tasks[u].scopes[k] <= bound
    ensures IsChain(state, chain) && chain[0] == t
    ensures var runner := chain[|chain| - 1];
            runner < |state.tasks| && !state.tasks[runner].Finished() && CanStep(state, runner)
    decreases bound - (if |state.tasks[t].slots| <= |state.tasks[t].scopes| then Awaited(state, t) else 0)
  {
    assert SoundTask(state, t);
    var ahead := WaitsForHigherRank(state, t);
    if CanStep(state, ahead) {
      chain := if ahead == t then [t] else [t, ahead];
    } else {
      assert SoundTask(state, ahead);
      assert Awaited(state, ahead) <= bound;
      var rest := SomeTaskAheadCanStep(state, ahead, bound);
      chain := [t] + rest;
    }
  }

  /** A chain whose last task waits goes further on all the way. */
  lemma {:induction false} ChainsGoFurtherOn(state: State, chain: seq<nat>)
    requires Invariant(state) && AllAscending(state) && IsChain(state, chain) && |chain| >= 2
    requires IsWaiting(state, chain[|chain| - 1])
    ensures WaitsFurtherOn(state, chain[0], chain[|chain| - 1])
    decreases |chain|
  {
    var rest := chain[1..];
    assert WaitsFor(state, chain[0], chain[1]);
    if |chain| > 2 {
      assert IsChain(state, rest);
      assert WaitsFor(state, chain[1], chain[2]);
      ChainsGoFurtherOn(state, rest);
    }
    WaitedForIsFurtherOn(state, chain[0], chain[1]);
  }

  lemma {:induction false} ScopesAreBounded(scopes: seq<ScopeId>) returns (bound: nat)
    ensures forall k :: 0 <= k < |scopes| ==> scopes[k] <= bound
  {
    bound := 0;
    if scopes != [] {
      bound := ScopesAreBounded(scopes[1..]);
      bound := if scopes[0] > bound then scopes[0] else bound;
      assert forall k :: 0 < k < |scopes| ==> scopes[k] == scopes[1..][k - 1];
    }
  }

  lemma {:induction false} TasksAreBounded(tasks: seq<Task>) returns (bound: nat)
    ensures forall u :: 0 <= u < |tasks| ==> forall k :: 0 <= k < |tasks[u].scopes| ==> tasks[u].scopes[k] <= bound
  {
    bound := 0;
    if tasks != [] {
      var rest := TasksAreBounded(tasks[1..]);
      var first := ScopesAreBounded(tasks[0].scopes);
      bound := if first > rest then first else rest;
      forall u, k | 0 <= u < |tasks| && 0 <= k < |tasks[u].scopes| ensures tasks[u].scopes[k] <= bound {
        assert u > 0 ==> tasks[u] == tasks[1..][u - 1];
      }
    }
  }

  // ---- Main results ----

  /** Tasks that take their scopes only through `exclusivelyAll` never get stuck: in every reachable
      state an unfinished task can step, or the tasks it waits for, one behind the other, lead to one
      that can. */
  lemma NeverStuck(states: seq<State>, events: seq<Event>, n: nat, t: nat) returns (chain: seq<nat>)
    requires Interleaving(states, events) && n < |states|
    requires forall i :: 0 <= i < |events| ==> !events[i].Nesting?
    requires t < |states[n].tasks| && !states[n].tasks[t].Finished()
    ensures IsChain(states[n], chain) && chain[0] == t
    ensures var runner := chain[|chain| - 1];
            runner < |states[n].tasks| && !states[n].tasks[runner].Finished() && CanStep(states[n], runner)
  {
    InterleavingsAreSound(states, events, n);
    if IsWaiting(states[n], t) {
      var bound := TasksAreBounded(states[n].tasks);
      chain := SomeTaskAheadCanStep(states[n], t, bound);
    } else {
      NotWaitingCanStep(states[n], t);
      chain := [t];
    }
  }

  /** Nor do they ever wait in a cycle. */
  lemma NeverInACycle(states: seq<State>, events: seq<Event>, n: nat, chain: seq<nat>)
    requires Interleaving(states, events) && n < |states|
    requires forall i :: 0 <= i < |events| ==> !events[i].Nesting?
    requires IsChain(states[n], chain) && |chain| >= 2
    ensures chain[0] != chain[|chain| - 1]
  {
    InterleavingsAreSound(states, events, n);
    assert WaitsFor(states[n], chain[0], chain[1]);
    if IsWaiting(states[n], chain[|chain| - 1]) {
      ChainsGoFurtherOn(states[n], chain);
    }
  }

  /** In every reachable state, however scopes are taken, a task is held up only by tasks it waits for. */
  lemma HeldUpExactlyByOthers(states: seq<State>, events: seq<Event>, n: nat, t: nat)
    requires Interleaving(states, events) && n < |states|
    requires t < |states[n].tasks| && !states[n].tasks[t].Finished()
    ensures CanStep(states[n], t) <==> !exists u :: WaitsFor(states[n], t, u)
  {
    InterleavingsAreSound(states, events, n);
    StepsUnlessItWaitsFor(states[n], t);
  }

  // ---- Every task finishes ----

  /** The steps a task still has to take: for each scope a request, a grant and a release, and its action. */
  function StepsToGo(state: State, t: nat): int
    requires t < |state.tasks|
  {
    var task := state.tasks[t];
    if task.releasing then |task.slots|
    else 3 * |task.scopes| + 1 - 2 * |task.slots| + if HoldsAllItAsked(state, task) then 0 else 1
  }

  function AllStepsToGo(state: State, n: nat): int
    requires n <= |state.tasks|
  {
    if n == 0 then 0 else AllStepsToGo(state, n - 1) + StepsToGo(state, n - 1)
  }

  /** Whose step it is, unless it begins a task. */
  function TaskOf(event: Event): Option<nat> {
    match event
    case ExclusivelyAll(_) => None
    case Nesting(_) => None
    case Request(t) => Some(t)
    case Grant(t) => Some(t)
    case FinishAction(t) => Some(t)
    case Release(t) => Some(t)
  }

  lemma StepTakesOne(state: State, event: Event, u: nat)
    requires Invariant(state) && Enabled(state, event) && TaskOf(event).Some? && u < |state.tasks|
    ensures |Apply(state, event).tasks| == |state.tasks|
    ensures StepsToGo(Apply(state, event), u) == StepsToGo(state, u) - if TaskOf(event) == Some(u) then 1 else 0
  {
    if TaskOf(event).value == u {
      OwnStepTakesOne(state, event, u);
    } else {
      OthersHaveAsMuchToGo(state, event, u);
    }
  }

  lemma OwnStepTakesOne(state: State, event: Event, t: nat)
    requires Invariant(state) && Enabled(state, event) && TaskOf(event) == Some(t)
    ensures |Apply(state, event).tasks| == |state.tasks|
    ensures StepsToGo(Apply(state, event), t) == StepsToGo(state, t) - 1
  {
    assert SoundTask(state, t);
    match event
    case Request(_) =>
    case Grant(_) =>
    case FinishAction(_) =>
    case Release(_) =>
  }

  lemma OthersHaveAsMuchToGo(state: State, event: Event, u: nat)
    requires Invariant(state) && Enabled(state, event) && TaskOf(event).Some? && u < |state.tasks|
    requires TaskOf(event).value != u
    ensures |Apply(state, event).tasks| == |state.tasks|
    ensures StepsToGo(Apply(state, event), u) == StepsToGo(state, u)
  {
    assert SoundTask(state, TaskOf(event).value) && SoundTask(state, u);
  }

  lemma {:induction false} StepTakesOneInAll(state: State, event: Event, n: nat)
    requires Invariant(state) && Enabled(state, event) && TaskOf(event).Some? && n <= |state.tasks|
    ensures |Apply(state, event).tasks| == |state.tasks|
    ensures AllStepsToGo(Apply(state, event), n)
         == AllStepsToGo(state, n) - if TaskOf(event).value < n then 1 else 0
  {
    if n == 0 {
      assert |Apply(state, event).tasks| == |state.tasks|;
    } else {
      StepTakesOneInAll(state, event, n - 1);
      StepTakesOne(state, event, n - 1);
    }
  }

  lemma NothingToGoIsFinished(state: State, t: nat)
    requires Invariant(state) && t < |state.tasks|
    ensures StepsToGo(state, t) >= 0
    ensures StepsToGo(state, t) == 0 <==> state.tasks[t].Finished()
  {
    assert SoundTask(state, t);
  }

  lemma {:induction false} NothingToGoInAll(state: State, n: nat)
    requires Invariant(state) && n <= |state.tasks|
    ensures AllStepsToGo(state, n) >= 0
    ensures AllStepsToGo(state, n) == 0 <==> forall t :: 0 <= t < n ==> state.tasks[t].Finished()
  {
    if n > 0 {
      NothingToGoInAll(state, n - 1);
      NothingToGoIsFinished(state, n - 1);
    }
  }

  /** A run in which no further task begins. */
  ghost predicate Drains(from: State, events: seq<Event>, to: State)
    decreases |events|
  {
    if events == [] then from == to
    else TaskOf(events[0]).Some? && Enabled(from, events[0]) && Drains(Apply(from, events[0]), events[1..], to)
  }

  lemma {:induction false} DrainsTakeOneStepEach(from: State, events: seq<Event>, to: State)
    requires Invariant(from) && Drains(from, events, to)
    ensures Invariant(to) && |to.tasks| == |from.tasks| && (AllAscending(from) ==> AllAscending(to))
    ensures |events| == AllStepsToGo(from, |from.tasks|) - AllStepsToGo(to, |to.tasks|)
    decreases |events|
  {
    if events != [] {
      StepTakesOneInAll(from, events[0], |from.tasks|);
      EventKeeps(from, events[0]);
      DrainsTakeOneStepEach(Apply(from, events[0]), events[1..], to);
    }
  }

  /** Wherever tasks that take their scopes only through `exclusivelyAll` have got to, if no further task begins,
      a run takes each one's steps and no others, and goes on until all are finished. */
  lemma EveryTaskFinishes(states: seq<State>, history: seq<Event>, n: nat, events: seq<Event>, to: State)
    requires Interleaving(states, history) && n < |states| && Drains(states[n], events, to)
    requires forall i :: 0 <= i < |history| ==> !history[i].Nesting?
    ensures |events| == AllStepsToGo(states[n], |states[n].tasks|) - AllStepsToGo(to, |to.tasks|)
    ensures || (forall t :: 0 <= t < |to.tasks| ==> to.tasks[t].Finished())
            || exists t :: 0 <= t < |to.tasks| && CanStep(to, t)
  {
    InterleavingsAreSound(states, history, n);
    DrainsTakeOneStepEach(states[n], events, to);
    if t :| 0 <= t < |to.tasks| && !to.tasks[t].Finished() {
      if IsWaiting(to, t) {
        var bound := TasksAreBounded(to.tasks);
        var chain := SomeTaskAheadCanStep(to, t, bound);
      } else {
        NotWaitingCanStep(to, t);
      }
    }
  }

  /** The task has been let into its `k`-th scope. */
  ghost predicate HoldsAt(state: State, t: nat, k: nat, scope: ScopeId) {
    && t < |state.tasks| && k < |state.tasks[t].slots| && k < |state.tasks[t].scopes|
    && state.tasks[t].scopes[k] == scope
    && state.tasks[t].slots[k] < |state.queue.sections|
    && state.queue.sections[state.tasks[t].slots[k]].phase == Open
  }

  /** No two tasks hold the same scope, however they take their scopes. */
  lemma ScopesAreExclusive(states: seq<State>, events: seq<Event>, n: nat, t: nat, j: nat, u: nat, k: nat,
                           scope: ScopeId)
    requires Interleaving(states, events) && n < |states|
    requires HoldsAt(states[n], t, j, scope) && HoldsAt(states[n], u, k, scope)
    ensures t == u
  {
    InterleavingsAreSound(states, events, n);
    var state := states[n];
    var a, b := state.tasks[t].slots[j], state.tasks[u].slots[k];
    assert SoundTask(state, t) && SoundTask(state, u);
    if a < b {
      AtMostOneOpen(state.queue, a, b);
    } else if b < a {
      AtMostOneOpen(state.queue, b, a);
    }
  }

  // ---- Sorting is what it takes ----

  /** Two tasks that nest scopes 0 and 1 in opposite orders, at the start. */
  lemma NestingStart() returns (states: seq<State>, events: seq<Event>)
    ensures Interleaving(states, events)
    ensures states[|states| - 1] == State(Queue([], map[]), [], [Task([0, 1], [], false), Task([1, 0], [], false)])
  {
    var one := State(Queue([], map[]), [], [Task([0, 1], [], false)]);
    var two := State(Queue([], map[]), [], [Task([0, 1], [], false), Task([1, 0], [], false)]);
    events := [Nesting([0, 1]), Nesting([1, 0])];
    states := [INITIAL, one, two];
    NoRepeats(0, 1);
    NoRepeats(1, 0);
    assert Apply(INITIAL, Nesting([0, 1])) == one;
    assert Apply(one, Nesting([1, 0])) == two;
  }

  lemma Longer(states: seq<State>, events: seq<Event>, event: Event, next: State)
    requires Interleaving(states, events)
    requires Enabled(states[|states| - 1], event) && next == Apply(states[|states| - 1], event)
    ensures Interleaving(states + [next], events + [event])
  {
    var longer, all := states + [next], events + [event];
    forall i | 0 <= i < |all| ensures Enabled(longer[i], all[i]) && longer[i + 1] == Apply(longer[i], all[i]) {
      if i < |events| {
        assert longer[i] == states[i] && longer[i + 1] == states[i + 1] && all[i] == events[i];
      }
    }
  }

  /** A task joins the free queue of its next scope and is let in. */
  lemma TakeFreeScope(states: seq<State>, events: seq<Event>, t: nat)
    returns (longer: seq<State>, all: seq<Event>)
    requires Interleaving(states, events)
    requires var last := states[|states| - 1];
             && LinksBack(last.queue.sections) && Enabled(last, Request(t))
             && last.tasks[t].scopes[|last.tasks[t].slots|] !in last.queue.tails
    ensures Interleaving(longer, all)
    ensures var last := states[|states| - 1];
            var task, n := last.tasks[t], |last.queue.sections|;
            var scope := task.scopes[|task.slots|];
            var queue := Queue(last.queue.sections + [Section(scope, None, Open)], last.queue.tails[scope := n]);
            longer[|longer| - 1]
            == State(queue, last.owners + [t], last.tasks[t := task.(slots := task.slots + [n])])
  {
    var last := states[|states| - 1];
    var asked := Apply(last, Request(t));
    Longer(states, events, Request(t), asked);
    longer, all := states + [asked], events + [Request(t)];
    var let := Apply(asked, Grant(t));
    Longer(longer, all, Grant(t), let);
    longer, all := longer + [let], all + [Grant(t)];
  }

  /** Each of the two takes the scope it names first. */
  lemma BothHoldOne() returns (states: seq<State>, events: seq<Event>)
    ensures Interleaving(states, events)
    ensures states[|states| - 1]
         == State(Queue([Section(0, None, Open), Section(1, None, Open)], map[0 := 0, 1 := 1]), [0, 1],
                  [Task([0, 1], [0], false), Task([1, 0], [1], false)])
  {
    states, events := NestingStart();
    states, events := TakeFreeScope(states, events, 0);
    UpdatedPair(Task([0, 1], [], false), Task([1, 0], [], false), Task([0, 1], [0], false));
    assert [] + [0] == [0];
    assert states[|states| - 1].tasks == [Task([0, 1], [0], false), Task([1, 0], [], false)];
    states, events := TakeFreeScope(states, events, 1);
    UpdatedPair(Task([0, 1], [0], false), Task([1, 0], [], false), Task([1, 0], [1], false));
    assert [] + [1] == [1];
  }

  /** Two tasks that nest the same two scopes in opposite orders reach a state where each waits for the
      other and neither can ever step again: this is what the sorting prevents. */
  lemma NestingCanDeadlock() returns (states: seq<State>, events: seq<Event>)
    ensures Interleaving(states, events)
    ensures var last := states[|states| - 1];
            && |last.tasks| == 2
            && (forall t :: 0 <= t < 2 ==> !last.tasks[t].Finished() && !CanStep(last, t))
            && WaitsFor(last, 0, 1) && WaitsFor(last, 1, 0)
  {
    states, events := BothHoldOne();
    var first := Apply(states[|states| - 1], Request(0));
    Longer(states, events, Request(0), first);
    states, events := states + [first], events + [Request(0)];
    UpdatedPair(Task([0, 1], [0], false), Task([1, 0], [1], false), Task([0, 1], [0, 2], false));
    assert [0] + [2] == [0, 2];
    assert first.tasks == [Task([0, 1], [0, 2], false), Task([1, 0], [1], false)];
    var second := Apply(first, Request(1));
    Longer(states, events, Request(1), second);
    states, events := states + [second], events + [Request(1)];
    UpdatedPair(Task([0, 1], [0, 2], false), Task([1, 0], [1], false), Task([1, 0], [1, 3], false));
    assert [1] + [3] == [1, 3];
    assert second.tasks == [Task([0, 1], [0, 2], false), Task([1, 0], [1, 3], false)];
    assert second.queue.sections == [Section(0, None, Open), Section(1, None, Open), Section(1, Some(1), Waiting),
                                     Section(0, Some(0), Waiting)];
    assert second.owners == [0, 1, 0, 1];
    CrossedTasksAreStuck(second);
  }

  lemma CrossedTasksAreStuck(state: State)
    requires state.tasks == [Task([0, 1], [0, 2], false), Task([1, 0], [1, 3], false)]
    requires state.queue.sections == [Section(0, None, Open), Section(1, None, Open), Section(1, Some(1), Waiting),
                                      Section(0, Some(0), Waiting)]
    requires state.owners == [0, 1, 0, 1]
    ensures forall t :: 0 <= t < 2 ==> !state.tasks[t].Finished() && !CanStep(state, t)
    ensures WaitsFor(state, 0, 1) && WaitsFor(state, 1, 0)
  {
    assert WaitsBehind(state, 0, 1) && WaitsBehind(state, 1, 0);
  }

  lemma UpdatedPair(a: Task, b: Task, x: Task)
    ensures [a, b][0 := x] == [x, b] && [a, b][1 := x] == [a, x]
  {
  }

  // ---- The class ----

  /** The coordinator object. Each method is one synchronous stretch of a call to `exclusively`. */
  class Coordinator {
    var queues: map<ScopeId, nat>
    var sections: seq<Section<ScopeId>>
    var owners: seq<nat>
    var tasks: seq<Task>

    ghost function Abstract(): State
      reads this
    {
      State(Queue(sections, queues), owners, tasks)
    }

    constructor ()
      ensures Abstract() == INITIAL
    {
      queues, sections, owners, tasks := map[], [], [], [];
    }

    /** The call itself: the scopes without repeats, sorted. */
    method ExclusivelyAll(scopeIds: seq<ScopeId>) returns (t: nat)
      modifies this`tasks
      ensures Abstract() == Apply(old(Abstract()), Event.ExclusivelyAll(scopeIds)) && t == |old(tasks)|
    {
      t := |tasks|;
      tasks := tasks + [Task(SortedScopes(scopeIds), [], false)];
    }

    /** Up to the await: joins the queue of the task's next scope. */
    method Request(t: nat)
      requires Invariant(Abstract()) && Enabled(Abstract(), Event.Request(t))
      modifies this
      ensures Invariant(Abstract()) && Abstract() == Apply(old(Abstract()), Event.Request(t))
    {
      RequestKeeps(Abstract(), t);
      var scopeId := tasks[t].scopes[|tasks[t].slots|];
      var previous := if scopeId in queues then Some(queues[scopeId]) else None;
      var tail := |sections|;
      sections := sections + [Section(scopeId, previous, Waiting)];
      queues := queues[scopeId := tail];
      owners := owners + [t];
      tasks := tasks[t := tasks[t].(slots := tasks[t].slots + [tail])];
    }

    /** The awaited promise has resolved. */
    method Grant(t: nat)
      requires Invariant(Abstract()) && Enabled(Abstract(), Event.Grant(t))
      modifies this`sections
      ensures Invariant(Abstract()) && Abstract() == Apply(old(Abstract()), Event.Grant(t))
    {
      GrantKeeps(Abstract(), t);
      var slot := tasks[t].slots[|tasks[t].slots| - 1];
      sections := sections[slot := sections[slot].(phase := Open)];
    }

    method FinishAction(t: nat)
      requires Invariant(Abstract()) && Enabled(Abstract(), Event.FinishAction(t))
      modifies this`tasks
      ensures Invariant(Abstract()) && Abstract() == Apply(old(Abstract()), Event.FinishAction(t))
    {
      FinishActionKeeps(Abstract(), t);
      tasks := tasks[t := tasks[t].(releasing := true)];
    }

    /** One `finally` block. */
    method Release(t: nat)
      requires Invariant(Abstract()) && Enabled(Abstract(), Event.Release(t))
      modifies this
      ensures Invariant(Abstract()) && Abstract() == Apply(old(Abstract()), Event.Release(t))
    {
      ReleaseKeeps(Abstract(), t);
      var slot := tasks[t].slots[|tasks[t].slots| - 1];
      var scopeId := sections[slot].key;
      sections := sections[slot := sections[slot].(phase := Closed)];
      if scopeId in queues && queues[scopeId] == slot {
        queues := queues - {scopeId};
      }
      tasks := tasks[t := tasks[t].(slots := tasks[t].slots[..|tasks[t].slots| - 1])];
      assert Abstract() == Apply(old(Abstract()), Event.Release(t));
    }
  }
}
