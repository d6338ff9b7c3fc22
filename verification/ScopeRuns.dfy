/** Whole runs of a scope, from `pin` on, over any calls in any order. */
module ScopeRuns {
  import opened Sequences
  import opened Wrappers
  import opened PrivateControlOperation
  import opened PrivateAuthorizationCheckpoint
  import opened OperationLog
  import opened ScopeState
  import opened ScopeInvariant
  import opened ScopeSteps
  import opened ScopeDecisions
  import opened ScopeAcceptances
  import PrivateOperationDependencyGraph
  import CodeUnitOrder

  datatype Call =
    | Assessing(operation: Operation, expectedKind: string)
    | Proposing(operation: Operation)
    | Committing(operation: Operation, candidate: Checkpoint)
    | Revoking(operation: Operation, candidate: Checkpoint)
    | PinningGenesis(checkpoint: Checkpoint, genesisHash: string)
    | Quarantining
    | Reloading

  ghost function Apply(state: State, call: Call): Step {
    match call
    case Assessing(operation, expectedKind) => Assess(state, operation, expectedKind)
    case Proposing(operation) => AcceptProposal(state, operation)
    case Committing(operation, candidate) => CommitTransition(state, operation, candidate)
    case Revoking(operation, candidate) => RevokeDevice(state, operation, candidate)
    case PinningGenesis(checkpoint, genesisHash) => PinGenesis(state, checkpoint, genesisHash)
    case Quarantining => Quarantine(state)
    case Reloading => Reload(state)
  }

  /** The operation a call offers for acceptance. */
  function Offered(call: Call): Option<Operation> {
    match call
    case Proposing(operation) => Some(operation)
    case Committing(operation, _) => Some(operation)
    case Revoking(operation, _) => Some(operation)
    case _ => None
  }

  datatype Acceptance = Acceptance(id: string, revision: int)

  /** A state with the acceptances that led to it and every checkpoint it has been at, oldest first. */
  datatype History = History(state: State, acceptances: seq<Acceptance>, checkpoints: seq<Checkpoint>)

  ghost function Extend(history: History, call: Call): History {
    var step := Apply(history.state, call);
    var offered := Offered(call);
    History(step.state,
            if step.outcome == Accepted && offered.Some?
            then history.acceptances + [Acceptance(offered.value.id, offered.value.authorizationRevision)]
            else history.acceptances,
            if step.state.checkpoint == history.state.checkpoint then history.checkpoints
            else history.checkpoints + [step.state.checkpoint])
  }

  /** A scope as `pin` makes it. */
  ghost predicate JustPinned(history: History) {
    && history == History(history.state, [], [history.state.checkpoint])
    && exists checkpoint, genesisHash, ownerDeviceKey ::
         Pin(checkpoint, genesisHash, ownerDeviceKey) == Success(history.state)
  }

  ghost predicate Follows(histories: seq<History>, calls: seq<Call>, i: nat) {
    i < |calls| && i + 1 < |histories| && histories[i + 1] == Extend(histories[i], calls[i])
  }

  /** A run: the histories from a freshly pinned scope on, one call after another. */
  ghost predicate IsRun(histories: seq<History>, calls: seq<Call>) {
    && |histories| == |calls| + 1
    && JustPinned(histories[0])
    && forall i :: 0 <= i < |calls| ==> Follows(histories, calls, i)
  }

  // ---- One call ----

  lemma PinnedIsSound(pinned: History)
    requires JustPinned(pinned)
    ensures SoundHistory(pinned)
  {
    var empty: seq<Operation> := [];
    assert forall author :: Filter(ByAuthor(author), empty) == [];
    var rank: map<string, nat> := map[];
    assert PrivateOperationDependencyGraph.TopologicalRank(PrivateOperationDependencyGraph.EdgesOf(empty), rank);
  }

  /** Every call keeps the invariant; only an acceptance changes the log other than by compaction,
      and only an accepted transition moves the checkpoint, to a successor. A refused call leaves
      both alone, and a frozen scope accepts nothing and stays frozen. */
  lemma CallKeeps(state: State, call: Call)
    requires Invariant(state)
    ensures var step := Apply(state, call);
            && Invariant(step.state)
            && (step.outcome == Accepted ==>
                  && Offered(call).Some?
                  && Accepts(state, Offered(call).value, step.state)
                  && (|| step.state.checkpoint == state.checkpoint
                      || IsSuccessor(state.checkpoint, step.state.checkpoint)))
            && (step.outcome != Accepted ==>
                  && step.state.checkpoint == state.checkpoint
                  && (call != Reloading ==> step.state.accepted == state.accepted))
            && (state.status == Frozen ==> step.state.status == Frozen && step.outcome != Accepted)
  {
    match call
    case Assessing(operation, expectedKind) => AssessKeeps(state, operation, expectedKind);
    case Proposing(operation) => AcceptProposalCompletes(state, operation);
    case Committing(operation, candidate) => CommitTransitionCompletes(state, operation, candidate);
    case Revoking(operation, candidate) => RevokeDeviceCompletes(state, operation, candidate);
    case PinningGenesis(_, _) =>
    case Quarantining =>
    case Reloading => SoundScopeCompacts(state);
  }

  /** An accepted operation of the current revision is never forgotten while the checkpoint stays,
      and an accepted dependency of a queued operation is never forgotten while it is queued. */
  lemma CallForgetsNothingNeeded(state: State, call: Call, accepted: Operation)
    requires Invariant(state) && accepted in state.accepted
    ensures var after := Apply(state, call).state;
            && (accepted.authorizationRevision == after.checkpoint.revision ==> accepted in after.accepted)
            && (forall queued | queued in state.pending && queued in after.pending ::
                  accepted.id in queued.Dependencies() ==> accepted in after.accepted)
  {
    CallKeeps(state, call);
    var step := Apply(state, call);
    if step.outcome == Accepted {
      assert accepted in state.accepted + [Offered(call).value];
    } else if call == Reloading {
      SoundScopeCompacts(state);
      CompactionKeeps(state.accepted, state.pending, state.checkpoint);
    }
  }

  // ---- Runs ----

  /** Every acceptance of the current revision is still in the log. */
  ghost predicate Remembers(state: State, acceptance: Acceptance) {
    exists accepted :: accepted in state.accepted
                    && accepted.id == acceptance.id && accepted.authorizationRevision == acceptance.revision
  }

  ghost predicate Chained(checkpoints: seq<Checkpoint>) {
    forall i :: 0 <= i < |checkpoints| - 1 ==> IsSuccessor(checkpoints[i], checkpoints[i + 1])
  }

  ghost predicate SoundAcceptance(state: State, acceptance: Acceptance) {
    && acceptance.revision <= state.checkpoint.revision
    && (acceptance.revision == state.checkpoint.revision ==> Remembers(state, acceptance))
  }

  ghost predicate SoundAcceptances(state: State, acceptances: seq<Acceptance>) {
    && (forall acceptance :: acceptance in acceptances ==> SoundAcceptance(state, acceptance))
    && Distinct(acceptances)
  }

  ghost predicate SoundChain(state: State, checkpoints: seq<Checkpoint>) {
    && checkpoints != []
    && checkpoints[|checkpoints| - 1] == state.checkpoint
    && Chained(checkpoints)
  }

  ghost predicate SoundHistory(history: History) {
    && Invariant(history.state)
    && SoundAcceptances(history.state, history.acceptances)
    && SoundChain(history.state, history.checkpoints)
  }

  /** What the history needs to know of one call. */
  ghost predicate Moves(before: State, accepted: Option<Operation>, after: State) {
    && Invariant(before) && Invariant(after)
    && (after.checkpoint == before.checkpoint || IsSuccessor(before.checkpoint, after.checkpoint))
    && (accepted.Some? ==> Accepts(before, accepted.value, after))
    && (forall operation ::
          operation in before.accepted && operation.authorizationRevision == after.checkpoint.revision ==>
            operation in after.accepted)
  }

  lemma CallMoves(state: State, call: Call)
    requires Invariant(state)
    ensures var step := Apply(state, call);
            && (step.outcome == Accepted ==> Offered(call).Some?)
            && Moves(state, if step.outcome == Accepted then Offered(call) else None, step.state)
  {
    CallKeeps(state, call);
    forall operation | operation in state.accepted
                    && operation.authorizationRevision == Apply(state, call).state.checkpoint.revision
      ensures operation in Apply(state, call).state.accepted
    {
      CallForgetsNothingNeeded(state, call, operation);
    }
  }

  lemma StillRemembered(before: State, accepted: Option<Operation>, after: State, acceptance: Acceptance)
    requires Moves(before, accepted, after) && SoundAcceptance(before, acceptance)
    ensures SoundAcceptance(after, acceptance)
  {
  }

  /** A new acceptance is remembered, and was not in the log before. */
  lemma NewlyAccepted(before: State, operation: Operation, after: State)
    requires Moves(before, Some(operation), after)
    ensures var newest := Acceptance(operation.id, operation.authorizationRevision);
            SoundAcceptance(after, newest) && !SoundAcceptance(before, newest)
  {
    assert operation in before.accepted + [operation];
    IdsMembers(before.accepted);
  }

  lemma AcceptancesKept(before: State, accepted: Option<Operation>, after: State, acceptances: seq<Acceptance>)
    requires Moves(before, accepted, after) && SoundAcceptances(before, acceptances)
    ensures SoundAcceptances(after, acceptances)
  {
    forall acceptance | acceptance in acceptances ensures SoundAcceptance(after, acceptance) {
      StillRemembered(before, accepted, after, acceptance);
    }
  }

  lemma AcceptanceAdded(state: State, acceptances: seq<Acceptance>, newest: Acceptance, after: State)
    requires SoundAcceptances(state, acceptances) && SoundAcceptances(after, acceptances)
    requires SoundAcceptance(after, newest) && !SoundAcceptance(state, newest)
    ensures SoundAcceptances(after, acceptances + [newest])
  {
  }

  lemma ExtendKeeps(history: History, call: Call)
    requires SoundHistory(history)
    ensures SoundHistory(Extend(history, call))
    ensures Extend(history, call).checkpoints[0] == history.checkpoints[0]
  {
    var step := Apply(history.state, call);
    var accepted := if step.outcome == Accepted then Offered(call) else None;
    CallMoves(history.state, call);
    AcceptancesKept(history.state, accepted, step.state, history.acceptances);
    if accepted.Some? {
      var operation := accepted.value;
      NewlyAccepted(history.state, operation, step.state);
      AcceptanceAdded(history.state, history.acceptances,
                      Acceptance(operation.id, operation.authorizationRevision), step.state);
    }
    ChainGrows(history.checkpoints, history.state, step.state);
  }

  lemma ChainGrows(checkpoints: seq<Checkpoint>, before: State, after: State)
    requires SoundChain(before, checkpoints)
    requires after.checkpoint == before.checkpoint || IsSuccessor(before.checkpoint, after.checkpoint)
    ensures SoundChain(after, if after.checkpoint == before.checkpoint then checkpoints
                              else checkpoints + [after.checkpoint])
  {
    if after.checkpoint != before.checkpoint {
      ChainedOn(checkpoints, after.checkpoint);
    }
  }

  lemma ChainedOn(checkpoints: seq<Checkpoint>, next: Checkpoint)
    requires Chained(checkpoints) && checkpoints != [] && IsSuccessor(checkpoints[|checkpoints| - 1], next)
    ensures Chained(checkpoints + [next])
  {
    var longer := checkpoints + [next];
    forall i | 0 <= i < |longer| - 1 ensures IsSuccessor(longer[i], longer[i + 1]) {
      assert longer[i] == checkpoints[i];
      assert i < |checkpoints| - 1 ==> longer[i + 1] == checkpoints[i + 1];
    }
  }

  /** A sound history that started at this checkpoint. */
  ghost predicate SoundSince(history: History, start: Checkpoint) {
    SoundHistory(history) && history.checkpoints[0] == start
  }

  lemma StartsSound(histories: seq<History>, calls: seq<Call>)
    requires IsRun(histories, calls)
    ensures SoundSince(histories[0], histories[0].state.checkpoint)
  {
    PinnedIsSound(histories[0]);
  }

  lemma StaysSound(histories: seq<History>, calls: seq<Call>, i: nat, start: Checkpoint)
    requires Follows(histories, calls, i) && SoundSince(histories[i], start)
    ensures SoundSince(histories[i + 1], start)
  {
    ExtendKeeps(histories[i], calls[i]);
  }

  lemma {:induction false} SoundFromStart(histories: seq<History>, calls: seq<Call>, n: nat, start: Checkpoint)
    requires IsRun(histories, calls) && n <= |calls| && SoundSince(histories[0], start)
    ensures SoundSince(histories[n], start)
  {
    if n > 0 {
      SoundFromStart(histories, calls, n - 1, start);
      StaysSoundInRun(histories, calls, n - 1, start);
    }
  }

  lemma StaysSoundInRun(histories: seq<History>, calls: seq<Call>, i: nat, start: Checkpoint)
    requires IsRun(histories, calls) && i < |calls| && SoundSince(histories[i], start)
    ensures SoundSince(histories[i + 1], start)
  {
    assert Follows(histories, calls, i);
    StaysSound(histories, calls, i, start);
  }

  lemma RunIsSound(histories: seq<History>, calls: seq<Call>, n: nat)
    requires IsRun(histories, calls) && n <= |calls|
    ensures SoundSince(histories[n], histories[0].state.checkpoint)
  {
    StartsSound(histories, calls);
    SoundFromStart(histories, calls, n, histories[0].state.checkpoint);
  }

  // ---- Main results ----

  /** Over any run no operation (same id, same authorization revision) is accepted twice, although
      compaction forgets operations. */
  lemma NeverAcceptedTwice(histories: seq<History>, calls: seq<Call>, n: nat)
    requires IsRun(histories, calls) && n <= |calls|
    ensures Distinct(histories[n].acceptances)
  {
    RunIsSound(histories, calls, n);
  }

  /** The checkpoints of a run form one hash-linked chain from the pinned one: same scope, the
      revision grows by exactly one at a time, each names its parent's head. */
  lemma CheckpointsFormOneChain(histories: seq<History>, calls: seq<Call>, n: nat)
    requires IsRun(histories, calls) && n <= |calls|
    ensures var checkpoints := histories[n].checkpoints;
            && Chained(checkpoints)
            && checkpoints != []
            && checkpoints[0] == histories[0].state.checkpoint
            && checkpoints[|checkpoints| - 1] == histories[n].state.checkpoint
            && histories[n].state.checkpoint.revision == checkpoints[0].revision + |checkpoints| - 1
  {
    RunIsSound(histories, calls, n);
    ChainLength(histories[n].checkpoints);
  }

  lemma {:induction false} ChainLength(checkpoints: seq<Checkpoint>)
    requires Chained(checkpoints) && checkpoints != []
    ensures checkpoints[|checkpoints| - 1].revision == checkpoints[0].revision + |checkpoints| - 1
  {
    if |checkpoints| > 1 {
      var front := checkpoints[..|checkpoints| - 1];
      assert Chained(front);
      ChainLength(front);
      assert IsSuccessor(checkpoints[|checkpoints| - 2], checkpoints[|checkpoints| - 1]);
    }
  }

  /** Every reachable scope stays within every bound, and its queue is acyclic. */
  lemma RunsStayWithinBounds(histories: seq<History>, calls: seq<Call>, n: nat, author: string)
    requires IsRun(histories, calls) && n <= |calls|
    ensures var state := histories[n].state;
            var current := Filter(AtRevision(state.checkpoint.revision), state.accepted);
            && Within(state.accepted, 128, 4 * 1024 * 1024)
            && Within(Filter(ByAuthor(author), current), 8, 512 * 1024)
            && Within(Filter(ByOthersThan(state.checkpoint.authorityKeys), current), 96, 3 * 1024 * 1024)
            && Within(state.pending, 128, 1024 * 1024)
            && Within(Filter(ByAuthor(author), state.pending), 96, 768 * 1024)
            && Within(Select(state.accepted, DependencyIds(state.pending)), 96, 3 * 1024 * 1024)
            && PrivateOperationDependencyGraph.AcyclicQueue(state.pending)
            && Ids(state.pending) !! Ids(state.accepted)
  {
    RunIsSound(histories, calls, n);
  }

  /** In every reachable active scope `retryable` lists exactly the queued operations that assessing
      would find ready, each once, in strictly ascending code-unit order of id. */
  lemma RetryAgreesWithAssess(histories: seq<History>, calls: seq<Call>, n: nat, operation: Operation)
    requires IsRun(histories, calls) && n <= |calls|
    ensures var state := histories[n].state;
            && (state.status == Active ==> (operation in Retryable(state) <==> IsQueuedAndReady(state, operation)))
            && AscendingIds(Retryable(state))
  {
    RunIsSound(histories, calls, n);
    var state := histories[n].state;
    RetryableIsOrdered(state);
    if state.status == Active {
      RetryableIsReady(state, operation);
    }
  }

  ghost predicate IsQueuedAndReady(state: State, operation: Operation) {
    operation in state.pending && Assess(state, operation, operation.kind).outcome == Ready
  }

  ghost predicate AscendingIds(operations: seq<Operation>) {
    forall i, j :: 0 <= i < j < |operations| ==> CodeUnitOrder.Less(operations[i].id, operations[j].id)
  }

  /** No reachable scope accepts half-way: a call that does not answer `Accepted` leaves the accepted
      log and the checkpoint as they were, and storing and rebuilding the scope always works. */
  lemma NoHalfDoneAcceptance(histories: seq<History>, calls: seq<Call>, n: nat, call: Call)
    requires IsRun(histories, calls) && n <= |calls|
    ensures var state := histories[n].state;
            var step := Apply(state, call);
            && (step.outcome != Accepted && call != Reloading ==>
                  step.state.accepted == state.accepted && step.state.checkpoint == state.checkpoint)
            && Reload(state).outcome == Done
  {
    RunIsSound(histories, calls, n);
    var state := histories[n].state;
    CallKeeps(state, call);
    SoundScopeCompacts(state);
  }

  // ---- When a scope freezes ----

  /** The operation a call brings, whether to be assessed only or to be accepted. */
  function Brought(call: Call): Option<Operation> {
    if call.Assessing? then Some(call.operation) else Offered(call)
  }

  /** An active scope freezes exactly when it is quarantined, when it is pinned to another genesis or checkpoint,
      or when it is brought an operation that contradicts one it holds. */
  lemma FreezesExactlyOnConflict(state: State, call: Call)
    requires Invariant(state) && state.status == Active
    ensures Apply(state, call).state.status == Frozen <==>
              || call.Quarantining?
              || (&& call.PinningGenesis?
                  && !(call.genesisHash == state.genesisHash && call.checkpoint == state.checkpoint))
              || (Brought(call).Some? && Contradicts(state, Brought(call).value))
  {
    match call
    case Assessing(operation, expectedKind) => AssessFreezesOnConflict(state, operation, expectedKind);
    case Proposing(operation) => ProposalFreezesOnConflict(state, operation);
    case Committing(operation, candidate) => CommitFreezesOnConflict(state, operation, candidate);
    case Revoking(operation, candidate) => RevocationFreezesOnConflict(state, operation, candidate);
    case PinningGenesis(_, _) =>
    case Quarantining =>
    case Reloading => SoundScopeCompacts(state);
  }
}
