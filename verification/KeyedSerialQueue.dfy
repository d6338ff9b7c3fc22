/** `KeyedSerialQueue.run` as a step machine: one step up to its first await, one when the awaited
    promise has resolved, one when the action settles. Steps of all calls interleave freely. */
module KeyedSerialQueue {
  import opened Wrappers
  import opened SerialSections

  /** The promise chain and, for each section, the sections its call was made in (the async-local
      store), outermost first. */
  datatype QueueState = QueueState(queue: Queue<string>, entered: seq<seq<nat>>)

  const INITIAL := QueueState(Queue([], map[]), [])

  /** A step of the run: a call made from inside the action of section `caller` (or from outside any
      action), the action of a section starting, or settling. */
  datatype Event = Run(caller: Option<nat>, key: string) | Start(section: nat) | Finish(section: nat)

  /** The sections the calling code was started in. */
  function Context(state: QueueState, caller: Option<nat>): seq<nat>
    requires caller.Some? ==> caller.value < |state.entered|
  {
    if caller.None? then [] else state.entered[caller.value] + [caller.value]
  }

  /** Some section the code runs in is open on this key. */
  predicate IsNested(state: QueueState, context: seq<nat>, key: string) {
    exists section | section in context :: IsOpenOn(state.queue.sections, section, key)
  }

  predicate IsOpenOn(sections: seq<Section<string>>, section: nat, key: string) {
    section < |sections| && sections[section].phase == Open && sections[section].key == key
  }

  ghost predicate Enabled(state: QueueState, event: Event) {
    match event
    case Run(caller, _) => caller.Some? ==> HasStarted(state, caller.value)
    case Start(section) => LinksBack(state.queue.sections) && CanOpen(state.queue.sections, section)
    case Finish(section) => section < |state.queue.sections| && state.queue.sections[section].phase == Open
  }

  predicate HasStarted(state: QueueState, section: nat) {
    && section < |state.entered| && section < |state.queue.sections|
    && state.queue.sections[section].phase != Waiting
  }

  /** Contexts name sections that have started, each before the section made in them. */
  ghost predicate SoundContexts(state: QueueState) {
    && |state.entered| == |state.queue.sections|
    && (forall i, k :: 0 <= i < |state.entered| && 0 <= k < |state.entered[i]| ==>
          && state.entered[i][k] < i
          && state.queue.sections[state.entered[i][k]].phase != Waiting)
  }

  /** A section never waits for one it was made in. */
  ghost predicate NeverWaitsForItself(state: QueueState)
    requires |state.entered| == |state.queue.sections|
  {
    forall i, k :: 0 <= i < |state.entered| && 0 <= k < |state.entered[i]|
                && state.entered[i][k] < |state.queue.sections|
                && state.queue.sections[state.entered[i][k]].key == state.queue.sections[i].key
                ==> state.queue.sections[state.entered[i][k]].phase == Closed
  }

  ghost predicate Invariant(state: QueueState) {
    && Sound(state.queue)
    && SoundContexts(state)
    && NeverWaitsForItself(state)
  }

  /** A refused call changes nothing. */
  ghost function Apply(state: QueueState, event: Event): QueueState
    requires Enabled(state, event)
  {
    match event
    case Run(caller, key) =>
      var context := Context(state, caller);
      if IsNested(state, context, key) then state
      else QueueState(Arrive(state.queue, key), state.entered + [context])
    case Start(section) => state.(queue := Enter(state.queue, section))
    case Finish(section) => state.(queue := Settle(state.queue, section))
  }

  lemma ContextIsStarted(state: QueueState, caller: Option<nat>)
    requires Invariant(state) && (caller.Some? ==> HasStarted(state, caller.value))
    ensures forall section :: section in Context(state, caller) ==>
              section < |state.queue.sections| && state.queue.sections[section].phase != Waiting
  {
  }

  lemma RunKeeps(state: QueueState, caller: Option<nat>, key: string)
    requires Invariant(state) && Enabled(state, Run(caller, key))
    ensures Invariant(Apply(state, Run(caller, key)))
  {
    ContextIsStarted(state, caller);
    var context := Context(state, caller);
    if !IsNested(state, context, key) {
      ArriveKeeps(state.queue, key);
      var next := Apply(state, Run(caller, key));
      var n := |state.entered|;
      forall i, k | 0 <= i < |next.entered| && 0 <= k < |next.entered[i]|
        ensures next.entered[i][k] < i
        ensures next.queue.sections[next.entered[i][k]].phase != Waiting
      {
        if i == n {
          assert context[k] in context;
        }
      }
      forall i, k | 0 <= i < |next.entered| && 0 <= k < |next.entered[i]|
                 && next.queue.sections[next.entered[i][k]].key == next.queue.sections[i].key
        ensures next.queue.sections[next.entered[i][k]].phase == Closed
      {
        if i == n {
          assert context[k] in context;
        }
      }
    }
  }

  lemma StartKeeps(state: QueueState, section: nat)
    requires Invariant(state) && Enabled(state, Start(section))
    ensures Invariant(Apply(state, Start(section)))
  {
    EnterKeeps(state.queue, section);
  }

  lemma FinishKeeps(state: QueueState, section: nat)
    requires Invariant(state) && Enabled(state, Finish(section))
    ensures Invariant(Apply(state, Finish(section)))
  {
    SettleKeeps(state.queue, section);
  }

  lemma EventKeeps(state: QueueState, event: Event)
    requires Invariant(state) && Enabled(state, event)
    ensures Invariant(Apply(state, event))
  {
    match event
    case Run(caller, key) => RunKeeps(state, caller, key);
    case Start(section) => StartKeeps(state, section);
    case Finish(section) => FinishKeeps(state, section);
  }

  /** An interleaving: states linked by enabled events, from the initial one. */
  ghost predicate Interleaving(states: seq<QueueState>, events: seq<Event>) {
    && |states| == |events| + 1
    && states[0] == INITIAL
    && forall i :: 0 <= i < |events| ==>
         Enabled(states[i], events[i]) && states[i + 1] == Apply(states[i], events[i])
  }

  lemma {:induction false} InterleavingsAreSound(states: seq<QueueState>, events: seq<Event>, n: nat)
    requires Interleaving(states, events) && n < |states|
    ensures Invariant(states[n])
  {
    if n > 0 {
      InterleavingsAreSound(states, events, n - 1);
      EventKeeps(states[n - 1], events[n - 1]);
    }
  }

  // ---- Main results: every state of every interleaving ----

  /** At most one action per key is open, and a section that has started has seen every earlier one on
      its key close. */
  lemma OneOpenPerKeyInArrivalOrder(states: seq<QueueState>, events: seq<Event>, n: nat, i: nat, j: nat)
    requires Interleaving(states, events) && n < |states|
    requires i < j < |states[n].queue.sections|
    requires states[n].queue.sections[i].key == states[n].queue.sections[j].key
    ensures !(states[n].queue.sections[i].phase == Open && states[n].queue.sections[j].phase == Open)
    ensures states[n].queue.sections[j].phase != Waiting ==> states[n].queue.sections[i].phase == Closed
  {
    InterleavingsAreSound(states, events, n);
    AtMostOneOpen(states[n].queue, i, j);
  }

  /** The tail map holds an entry for a key exactly while some action on it has not settled. */
  lemma TailsHoldNothingSettled(states: seq<QueueState>, events: seq<Event>, n: nat, key: string)
    requires Interleaving(states, events) && n < |states|
    ensures key in states[n].queue.tails
       <==> exists i :: 0 <= i < |states[n].queue.sections| && states[n].queue.sections[i].key == key
                     && states[n].queue.sections[i].phase != Closed
  {
    InterleavingsAreSound(states, events, n);
    TailsAreUnsettledKeys(states[n].queue, key);
  }

  /** The queue if the call were let in, wherever it is made. */
  function Joined(state: QueueState, caller: Option<nat>, key: string): QueueState
    requires caller.Some? ==> caller.value < |state.entered|
  {
    QueueState(Arrive(state.queue, key), state.entered + [Context(state, caller)])
  }

  /** No section ever waits for one it was made in, and a call is refused exactly when letting it in
      would make its section wait so. */
  lemma ReentryIsRefused(states: seq<QueueState>, events: seq<Event>, n: nat, caller: Option<nat>, key: string)
    requires Interleaving(states, events) && n < |states| && Enabled(states[n], Run(caller, key))
    ensures SoundContexts(states[n]) && NeverWaitsForItself(states[n])
    ensures Apply(states[n], Run(caller, key)) == states[n] <==> !NeverWaitsForItself(Joined(states[n], caller, key))
  {
    InterleavingsAreSound(states, events, n);
    var state, context := states[n], Context(states[n], caller);
    var next := Joined(state, caller, key);
    RunKeeps(state, caller, key);
    if IsNested(state, context, key) {
      var k :| 0 <= k < |context| && IsOpenOn(state.queue.sections, context[k], key);
      assert next.entered[|state.entered|][k] == context[k];
    } else {
      assert |next.entered| == |state.entered| + 1;
    }
  }

  /** Nothing waits without reason: while a section on a key is unsettled, one on that key that arrived
      no later is open or can start now. */
  lemma WaitingHasReason(states: seq<QueueState>, events: seq<Event>, n: nat, i: nat) returns (first: nat)
    requires Interleaving(states, events) && n < |states|
    requires i < |states[n].queue.sections| && states[n].queue.sections[i].phase != Closed
    ensures first <= i && states[n].queue.sections[first].key == states[n].queue.sections[i].key
    ensures Enabled(states[n], Start(first)) || Enabled(states[n], Finish(first))
  {
    InterleavingsAreSound(states, events, n);
    SoundLinksBack(states[n].queue);
    first := FirstUnsettledMoves(states[n].queue, i);
  }

  // ---- Everything settles ----

  /** A run in which no further call is made. */
  ghost predicate Drains(from: QueueState, events: seq<Event>, to: QueueState)
    decreases |events|
  {
    if events == [] then from == to
    else !events[0].Run? && Enabled(from, events[0]) && Drains(Apply(from, events[0]), events[1..], to)
  }

  lemma StepTakesOne(state: QueueState, event: Event)
    requires Invariant(state) && Enabled(state, event) && !event.Run?
    ensures Work(Apply(state, event).queue.sections) == Work(state.queue.sections) - 1
    ensures |Apply(state, event).queue.sections| == |state.queue.sections|
  {
    match event
    case Start(section) => WorkAfterStep(state.queue.sections, section, Open);
    case Finish(section) => WorkAfterStep(state.queue.sections, section, Closed);
  }

  /** Without further calls every section starts once and settles once: such a run is as long as the work it
      does, so it cannot go on for ever. */
  lemma {:induction false} DrainsTakeOneStepEach(from: QueueState, events: seq<Event>, to: QueueState)
    requires Invariant(from) && Drains(from, events, to)
    ensures Invariant(to) && |events| == Work(from.queue.sections) - Work(to.queue.sections)
    ensures |to.queue.sections| == |from.queue.sections|
    decreases |events|
  {
    if events != [] {
      StepTakesOne(from, events[0]);
      EventKeeps(from, events[0]);
      DrainsTakeOneStepEach(Apply(from, events[0]), events[1..], to);
    }
  }

  ghost predicate AllSettled(state: QueueState) {
    && (forall i :: 0 <= i < |state.queue.sections| ==> state.queue.sections[i].phase == Closed)
    && state.queue.tails == map[]
  }

  /** Wherever a queue has got to, if no further call is made, a run goes on until every section has settled and
      no tail is left: it can be continued, or all that is done. */
  lemma EverythingSettles(states: seq<QueueState>, history: seq<Event>, n: nat, events: seq<Event>, to: QueueState)
    requires Interleaving(states, history) && n < |states| && Drains(states[n], events, to)
    ensures |events| == Work(states[n].queue.sections) - Work(to.queue.sections)
    ensures AllSettled(to) || exists event: Event :: !event.Run? && Enabled(to, event)
  {
    InterleavingsAreSound(states, history, n);
    DrainsTakeOneStepEach(states[n], events, to);
    if Work(to.queue.sections) > 0 {
      var event := StepIsPossible(to);
    } else {
      NoWorkIsSettled(to.queue.sections);
      forall key ensures key !in to.queue.tails {
        TailsAreUnsettledKeys(to.queue, key);
      }
    }
  }

  lemma StepIsPossible(state: QueueState) returns (event: Event)
    requires Invariant(state) && Work(state.queue.sections) > 0
    ensures !event.Run? && Enabled(state, event)
  {
    var i := WorkIsUnsettled(state.queue.sections);
    SoundLinksBack(state.queue);
    var first := FirstUnsettledMoves(state.queue, i);
    event := if state.queue.sections[first].phase == Open then Finish(first) else Start(first);
  }

  // ---- The class ----

  /** The queue object. Each method is one synchronous stretch of `run`. */
  class SerialQueue {
    var tails: map<string, nat>
    var sections: seq<Section<string>>
    var enteredSections: seq<seq<nat>>

    ghost function State(): QueueState
      reads this
    {
      QueueState(Queue(sections, tails), enteredSections)
    }

    constructor ()
      ensures State() == INITIAL
    {
      tails, sections, enteredSections := map[], [], [];
    }

    /** Up to the first await; `None` is the nested-section error. */
    method Run(caller: Option<nat>, key: string) returns (section: Option<nat>)
      requires Invariant(State()) && Enabled(State(), Event.Run(caller, key))
      modifies this
      ensures Invariant(State()) && State() == Apply(old(State()), Event.Run(caller, key))
      ensures section.None? <==> State() == old(State())
      ensures section.Some? ==> section.value == |old(sections)|
    {
      RunKeeps(State(), caller, key);
      ContextIsStarted(State(), caller);
      var entered := if caller.None? then [] else enteredSections[caller.value] + [caller.value];
      if exists id | id in entered :: IsOpenOn(sections, id, key) {
        return None;
      }
      var previous := if key in tails then Some(tails[key]) else None;
      var id := |sections|;
      sections := sections + [Section(key, previous, Waiting)];
      enteredSections := enteredSections + [entered];
      tails := tails[key := id];
      return Some(id);
    }

    /** The awaited promise has resolved: the action starts. */
    method Start(section: nat)
      requires Invariant(State()) && Enabled(State(), Event.Start(section))
      modifies this`sections
      ensures Invariant(State()) && State() == Apply(old(State()), Event.Start(section))
    {
      StartKeeps(State(), section);
      SoundLinksBack(State().queue);
      sections := sections[section := sections[section].(phase := Open)];
    }

    /** The action has settled: the `finally` block. */
    method Finish(section: nat)
      requires Invariant(State()) && Enabled(State(), Event.Finish(section))
      modifies this`sections, this`tails
      ensures Invariant(State()) && State() == Apply(old(State()), Event.Finish(section))
    {
      FinishKeeps(State(), section);
      var key := sections[section].key;
      sections := sections[section := sections[section].(phase := Closed)];
      if key in tails && tails[key] == section {
        tails := tails - {key};
      }
    }
  }
}
