/** Each call on the scope keeps the invariant, and what each call promises. */
module ScopeSteps {
  import opened Sequences
  import opened Wrappers
  import opened PrivateControlOperation
  import opened PrivateAuthorizationCheckpoint
  import opened PrivateOperationDependencyGraph
  import opened OperationLog
  import opened StableSort
  import opened ScopeState
  import opened ScopeInvariant
  import CodeUnitOrder

  // ---- Assessing ----

  /** Removing a queued operation by its id. */
  lemma DequeueKeeps(state: State, id: string)
    requires Invariant(state) && id in Ids(state.pending)
    ensures var dequeued := state.(pending := SpliceOne(state.pending, FindIndex(state.pending, id)));
            Invariant(dequeued) && id !in Ids(dequeued.pending)
            && dequeued.pending == Filter(HasOtherId(id), state.pending)
  {
    SpliceIsFilter(state.pending, id);
    FilterMembers(HasOtherId(id), state.pending);
    FilteredQueue(state.pending, state.checkpoint, HasOtherId(id), state.checkpoint);
    FewerDependencies(state.accepted, DependencyIds(Filter(HasOtherId(id), state.pending)),
                      DependencyIds(state.pending));
  }

  lemma PushKeeps(state: State, operation: Operation)
    requires Invariant(state)
    requires operation.id !in Ids(state.accepted)
    requires WellFormed(operation, state.checkpoint) && !PermanentlyInvalid(operation, state.checkpoint)
    requires AcyclicQueue(state.pending + [operation])
    requires !ExceedsDependencyRetention(state.accepted, DependencyIds(state.pending + [operation]))
    requires !ExceedsPendingCapacity(state.pending, operation)
    ensures Invariant(state.(pending := state.pending + [operation]))
  {
    EnqueueKeepsQueue(state.pending, state.checkpoint, operation);
    forall id | id in Ids(state.pending + [operation]) ensures id !in Ids(state.accepted) {
      var queued :| queued in state.pending + [operation] && queued.id == id;
      if queued in state.pending {
        assert id in Ids(state.pending);
      }
    }
  }

  lemma EnqueueKeeps(state: State, operation: Operation)
    requires Invariant(state)
    requires operation.id !in Ids(state.accepted) && operation.id !in Ids(state.pending)
    requires WellFormed(operation, state.checkpoint) && !PermanentlyInvalid(operation, state.checkpoint)
    ensures var step := Enqueue(state, operation);
            && Invariant(step.state)
            && (step.outcome == Pending ==> step.state == state.(pending := state.pending + [operation]))
            && (step.outcome != Pending ==> step.state == state)
            && (|| step.outcome == Pending || step.outcome == Invalid
                || step.outcome == AcceptedCapacityExceeded || step.outcome == PendingCapacityExceeded)
  {
    FindFinds(state.pending, operation.id);
    var longer := state.pending + [operation];
    if AcyclicQueue(longer)
       && !ExceedsDependencyRetention(state.accepted, DependencyIds(longer))
       && !ExceedsPendingCapacity(state.pending, operation) {
      PushKeeps(state, operation);
    }
  }

  predicate ClashesWithQueued(state: State, operation: Operation) {
    var queued := Find(state.pending, operation.id);
    queued.Some? && queued.value.digest != operation.digest
  }

  /** An id the scope already holds: its digest decides. */
  lemma AssessKnown(state: State, operation: Operation, expectedKind: string)
    requires Invariant(state)
    requires operation.id in Ids(state.accepted) || ClashesWithQueued(state, operation) || state.status != Active
    ensures var step := Assess(state, operation, expectedKind);
            && (step == Freeze(state) || step == Step(state, Duplicate) || step == Step(state, Invalid)
                || step == Step(state, Conflict))
            && (step.outcome == Duplicate <==>
                  && Find(state.accepted, operation.id).Some?
                  && Find(state.accepted, operation.id).value.digest == operation.digest)
  {
    FindFinds(state.accepted, operation.id);
    FindFinds(state.pending, operation.id);
  }

  /** An operation the scope has already queued becomes ready once nothing holds it back. */
  lemma AssessQueued(state: State, operation: Operation, expectedKind: string)
    requires Invariant(state) && state.status == Active
    requires operation.id in Ids(state.pending) && !ClashesWithQueued(state, operation)
    ensures var step := Assess(state, operation, expectedKind);
            if !ValidOperation(operation, state.checkpoint, expectedKind) then step == Step(state, Invalid)
            else if IsPending(state, operation) then step == Step(state, Pending)
            else step == Step(state.(pending := Filter(HasOtherId(operation.id), state.pending)), Ready)
  {
    FindFinds(state.accepted, operation.id);
    FindFinds(state.pending, operation.id);
    QueueIsSettled(state.pending, state.checkpoint);
    assert Prune(state) == state;
    DequeueKeeps(state, operation.id);
  }

  /** An operation the scope does not hold. */
  lemma AssessNew(state: State, operation: Operation, expectedKind: string)
    requires Invariant(state) && state.status == Active
    requires operation.id !in Ids(state.accepted) && operation.id !in Ids(state.pending)
    ensures var step := Assess(state, operation, expectedKind);
            && (if !ValidOperation(operation, state.checkpoint, expectedKind) then step == Step(state, Invalid)
                else if IsPending(state, operation) then step == Enqueue(state, operation)
                else step == Step(state, Ready))
            && Filter(HasOtherId(operation.id), state.pending) == state.pending
  {
    FindFinds(state.accepted, operation.id);
    FindFinds(state.pending, operation.id);
    QueueIsSettled(state.pending, state.checkpoint);
    assert Prune(state) == state;
    assert forall queued :: queued in state.pending ==> HasOtherId(operation.id)(queued);
    FilterAll(HasOtherId(operation.id), state.pending);
  }

  /** What a ready operation has been found to be. */
  ghost predicate FoundReady(before: State, operation: Operation, expectedKind: string, after: State) {
    && before.status == Active
    && ValidOperation(operation, before.checkpoint, expectedKind)
    && operation.authorizationRevision == before.checkpoint.revision
    && operation.id !in Ids(before.accepted)
    && operation.id !in Ids(after.pending)
    && after == before.(pending := Filter(HasOtherId(operation.id), before.pending))
    && (forall id :: id in operation.previousOperationIds ==> id in Ids(before.accepted))
  }

  /** In a sound state assessing never touches the log or the checkpoint; an operation it finds
      ready is valid now, of the current revision, not yet accepted and no longer queued. */
  lemma AssessKeeps(state: State, operation: Operation, expectedKind: string)
    requires Invariant(state)
    ensures var step := Assess(state, operation, expectedKind);
            && Invariant(step.state)
            && step.outcome != Accepted && step.outcome != Done
            && step.state == state.(pending := step.state.pending, status := step.state.status)
            && (step.outcome != Conflict ==> step.state.status == state.status)
            && (state.status == Frozen ==> step.state.status == Frozen)
            && (step.outcome == Ready ==> FoundReady(state, operation, expectedKind, step.state))
  {
    if operation.id in Ids(state.accepted) || state.status != Active {
      AssessKnown(state, operation, expectedKind);
    } else if operation.id !in Ids(state.pending) {
      AssessNew(state, operation, expectedKind);
      if ValidOperation(operation, state.checkpoint, expectedKind) {
        EnqueueKeeps(state, operation);
      }
    } else if ClashesWithQueued(state, operation) {
      AssessKnown(state, operation, expectedKind);
    } else {
      AssessQueued(state, operation, expectedKind);
      DequeueKeeps(state, operation.id);
      FindFinds(state.pending, operation.id);
    }
  }

  // ---- Compacting and accepting ----

  lemma CompactedLog(accepted: seq<Operation>, pending: seq<Operation>, checkpoint: Checkpoint)
    requires UniqueIds(accepted) && NonNegative(accepted)
    requires forall operation :: operation in accepted ==> operation.authorizationRevision <= checkpoint.revision
    requires CurrentRevisionInvariant(accepted, checkpoint)
    requires RetainedAccepted(accepted, pending, checkpoint).Success?
    ensures var retained := RetainedAccepted(accepted, pending, checkpoint).value;
            && LogInvariant(retained, checkpoint)
            && !ExceedsDependencyRetention(retained, DependencyIds(pending))
            && Ids(retained) <= Ids(accepted)
  {
    var dependencies := DependencyIds(pending);
    var requiredIds := RequiredIds(accepted, dependencies, checkpoint.revision);
    var bytes := Bytes(Select(accepted, requiredIds));
    var chosen := Greedy(accepted, requiredIds, bytes, 0);
    CompactionKeeps(accepted, pending, checkpoint);
    GreedyGrows(accepted, requiredIds, bytes, 0);
    SelectedLog(accepted, checkpoint, HasIdIn(chosen));
    FilterMembers(HasIdIn(chosen), accepted);
    NeededAgain(accepted, dependencies, checkpoint.revision, chosen);
    SelectWithin(accepted, chosen, dependencies);
  }

  /** A sound scope can always be compacted, so building it again from storage never fails. */
  lemma SoundScopeCompacts(state: State)
    requires Invariant(state)
    ensures RetainedAccepted(state.accepted, state.pending, state.checkpoint).Success?
    ensures Filter(StillValid(state.checkpoint), state.pending) == state.pending
    ensures Reload(state).outcome == Done && Invariant(Reload(state).state)
    ensures Reload(state).state == state.(accepted := Reload(state).state.accepted)
  {
    var dependencies := DependencyIds(state.pending);
    var requiredIds := RequiredIds(state.accepted, dependencies, state.checkpoint.revision);
    FilterIsPart(HasIdIn(requiredIds), state.accepted);
    QueueIsSettled(state.pending, state.checkpoint);
    CompactedLog(state.accepted, state.pending, state.checkpoint);
  }

  lemma SnocLog(accepted: seq<Operation>, operation: Operation)
    requires UniqueIds(accepted) && operation.id !in Ids(accepted)
    ensures UniqueIds(accepted + [operation])
    ensures Ids(accepted + [operation]) == Ids(accepted) + {operation.id}
  {
    assert forall i :: 0 <= i < |accepted| ==> accepted[i] in accepted;
  }

  /** The queue that the capacity check foresees is the queue the acceptance leaves. */
  lemma ForeseenQueue(pending: seq<Operation>, id: string, checkpoint: Checkpoint)
    requires id !in Ids(pending)
    ensures Filter(LeftBy(id, checkpoint), pending) == Filter(StillValid(checkpoint), pending)
    ensures Filter(StillValid(checkpoint), Filter(StillValid(checkpoint), pending))
         == Filter(StillValid(checkpoint), pending)
  {
    forall operation | operation in pending ensures operation.id != id {
      assert operation.id in Ids(pending);
    }
    FilterAgrees(LeftBy(id, checkpoint), StillValid(checkpoint), pending);
    FilterTwice(StillValid(checkpoint), StillValid(checkpoint), StillValid(checkpoint), pending);
  }

  /** What pushing a ready operation and pruning make of the state, before it is compacted. */
  lemma PushedAndPruned(state: State, operation: Operation, checkpoint: Checkpoint)
    requires operation.id !in Ids(state.pending)
    ensures Prune(AcceptNow(state, operation).(checkpoint := checkpoint))
         == state.(checkpoint := checkpoint, accepted := state.accepted + [operation],
                   pending := Filter(StillValid(checkpoint), state.pending))
  {
    FindFinds(state.pending, operation.id);
  }

  /** Accepting a ready operation under `checkpoint` once the capacity check let it through: the
      compaction that follows succeeds, and the result is sound. */
  lemma AcceptanceCompletes(state: State, operation: Operation, checkpoint: Checkpoint)
    requires Invariant(state)
    requires operation.id !in Ids(state.accepted) && operation.id !in Ids(state.pending)
    requires 0 <= operation.byteSize && operation.authorizationRevision <= state.checkpoint.revision
    requires checkpoint == state.checkpoint || IsSuccessor(state.checkpoint, checkpoint)
    requires !ExceedsAcceptedCapacity(state, operation, checkpoint)
    ensures var step := Compact(Prune(AcceptNow(state, operation).(checkpoint := checkpoint)), Accepted);
            && step.outcome == Accepted
            && Invariant(step.state)
            && step.state.pending == Filter(StillValid(checkpoint), state.pending)
            && RetainedAccepted(state.accepted + [operation], step.state.pending, checkpoint)
               == Success(step.state.accepted)
            && step.state == state.(checkpoint := checkpoint, accepted := step.state.accepted,
                                    pending := step.state.pending)
  {
    var longer := state.accepted + [operation];
    var left := Filter(StillValid(checkpoint), state.pending);
    PushedAndPruned(state, operation, checkpoint);
    ForeseenQueue(state.pending, operation.id, checkpoint);
    SnocLog(state.accepted, operation);
    assert NonNegative(longer);
    if checkpoint == state.checkpoint {
      AcceptanceKeepsCurrent(state.accepted, checkpoint, operation);
    } else {
      NewRevisionIsEmpty(longer, state.checkpoint.revision, checkpoint);
    }
    CompactedLog(longer, left, checkpoint);
    FilteredQueue(state.pending, state.checkpoint, StillValid(checkpoint), checkpoint);
  }

  /** Without a new checkpoint nothing is pruned. */
  lemma AcceptProposalCompletes(state: State, operation: Operation)
    requires Invariant(state)
    ensures var step := AcceptProposal(state, operation);
            && Invariant(step.state)
            && step.state.checkpoint == state.checkpoint
            && (step.outcome != Accepted ==> step.state.accepted == state.accepted)
            && (step.outcome == Accepted ==> Accepts(state, operation, step.state))
            && step.outcome !in {Ready, Done}
            && (state.status == Frozen ==> step.state.status == Frozen && step.outcome != Accepted)
  {
    AssessKeeps(state, operation, PROPOSE);
    var assessed := Assess(state, operation, PROPOSE);
    if assessed.outcome == Ready && !ExceedsAcceptedCapacity(assessed.state, operation, state.checkpoint) {
      AcceptanceCompletes(assessed.state, operation, state.checkpoint);
      QueueIsSettled(assessed.state.pending, state.checkpoint);
      FindFinds(assessed.state.pending, operation.id);
      var next := AcceptNow(assessed.state, operation);
      assert Prune(next.(checkpoint := state.checkpoint)) == next;
      AcceptedFacts(state, assessed.state, operation, state.checkpoint);
    }
  }

  /** What an acceptance does to the log: the operation is new to it and of the current revision,
      it is the last entry of the log unless it was forgotten at once, the rest of the log is part
      of the old one in the old order, and nothing of the current revision and no dependency of a
      still queued operation is forgotten. */
  ghost predicate Accepts(before: State, operation: Operation, after: State) {
    && before.status == Active && after.status == Active
    && operation.authorizationRevision == before.checkpoint.revision
    && operation.id !in Ids(before.accepted)
    && before.checkpoint.Admits(operation.authorDeviceKey)
    && operation.authorDeviceKey !in before.checkpoint.revokedDeviceKeys
    && (forall id :: id in operation.previousOperationIds ==> id in Ids(before.accepted))
    && (exists ids :: after.accepted == Select(before.accepted + [operation], ids))
    && (forall kept :: kept in before.accepted + [operation]
          && (kept.authorizationRevision == after.checkpoint.revision || kept.id in DependencyIds(after.pending))
          ==> kept in after.accepted)
    && after.pending == Filter(LeftBy(operation.id, after.checkpoint), before.pending)
  }

  lemma AcceptedFacts(before: State, assessed: State, operation: Operation, checkpoint: Checkpoint)
    requires Invariant(before) && Invariant(assessed)
    requires assessed == before.(pending := Filter(HasOtherId(operation.id), before.pending))
    requires operation.id !in Ids(before.accepted) && operation.byteSize >= 0
    requires var left := Filter(StillValid(checkpoint), assessed.pending);
             RetainedAccepted(before.accepted + [operation], left, checkpoint).Success?
    ensures var left := Filter(StillValid(checkpoint), assessed.pending);
            var retained := RetainedAccepted(before.accepted + [operation], left, checkpoint).value;
            && left == Filter(LeftBy(operation.id, checkpoint), before.pending)
            && (exists ids :: retained == Select(before.accepted + [operation], ids))
            && (forall kept :: kept in before.accepted + [operation]
                  && (kept.authorizationRevision == checkpoint.revision || kept.id in DependencyIds(left))
                  ==> kept in retained)
  {
    var longer := before.accepted + [operation];
    SnocLog(before.accepted, operation);
    assert NonNegative(longer);
    FilterTwice(StillValid(checkpoint), HasOtherId(operation.id), LeftBy(operation.id, checkpoint), before.pending);
    CompactionKeeps(longer, Filter(StillValid(checkpoint), assessed.pending), checkpoint);
  }

  lemma TransitionCompletes(before: State, state: State, operation: Operation, candidate: Checkpoint)
    requires Invariant(before) && Invariant(state) && before.status == Active
    requires state == before.(pending := Filter(HasOtherId(operation.id), before.pending))
    requires operation.id !in Ids(state.accepted) && operation.id !in Ids(state.pending)
    requires operation.authorizationRevision == state.checkpoint.revision && operation.byteSize >= 0
    requires state.checkpoint.Admits(operation.authorDeviceKey)
    requires operation.authorDeviceKey !in state.checkpoint.revokedDeviceKeys
    requires forall id :: id in operation.previousOperationIds ==> id in Ids(state.accepted)
    ensures var step := Transition(state, operation, candidate);
            && Invariant(step.state)
            && step.outcome in {Accepted, Invalid, AcceptedCapacityExceeded}
            && (step.outcome != Accepted ==> step.state == state)
            && (step.outcome == Accepted ==>
                  && Accepts(before, operation, step.state)
                  && IsSuccessor(state.checkpoint, candidate)
                  && step.state.checkpoint == candidate)
  {
    if IsSuccessor(state.checkpoint, candidate) && !ExceedsAcceptedCapacity(state, operation, candidate) {
      AcceptanceCompletes(state, operation, candidate);
      AcceptedFacts(before, state, operation, candidate);
    }
  }

  lemma CommitTransitionCompletes(state: State, operation: Operation, candidate: Checkpoint)
    requires Invariant(state)
    ensures var step := CommitTransition(state, operation, candidate);
            && Invariant(step.state)
            && (step.outcome != Accepted ==>
                  step.state.accepted == state.accepted && step.state.checkpoint == state.checkpoint)
            && (step.outcome == Accepted ==>
                  && Accepts(state, operation, step.state)
                  && CommitsProposal(state.accepted, operation)
                  && IsSuccessor(state.checkpoint, candidate)
                  && step.state.checkpoint == candidate)
            && step.outcome !in {Ready, Done}
            && (state.status == Frozen ==> step.state.status == Frozen && step.outcome != Accepted)
  {
    AssessKeeps(state, operation, COMMIT);
    var assessed := Assess(state, operation, COMMIT);
    if assessed.outcome == Ready {
      TransitionCompletes(state, assessed.state, operation, candidate);
    }
  }

  lemma RevokeDeviceCompletes(state: State, operation: Operation, candidate: Checkpoint)
    requires Invariant(state)
    ensures var step := RevokeDevice(state, operation, candidate);
            && Invariant(step.state)
            && (step.outcome != Accepted ==>
                  step.state.accepted == state.accepted && step.state.checkpoint == state.checkpoint)
            && (step.outcome == Accepted ==>
                  && Accepts(state, operation, step.state)
                  && RevokesAdmitted(state.checkpoint, operation, candidate)
                  && IsSuccessor(state.checkpoint, candidate)
                  && step.state.checkpoint == candidate)
            && step.outcome !in {Ready, Done}
            && (state.status == Frozen ==> step.state.status == Frozen && step.outcome != Accepted)
  {
    AssessKeeps(state, operation, REVOKE);
    var assessed := Assess(state, operation, REVOKE);
    if assessed.outcome == Ready {
      TransitionCompletes(state, assessed.state, operation, candidate);
    }
  }

  /** A transition is refused for capacity exactly when the operations the surviving queue depends
      on, this one included, exceed the retention bounds. So the authority is never blocked by the
      log itself, nor by the current revision's bounds. */
  lemma TransitionIsRefusedOnlyForDependencies(state: State, operation: Operation, candidate: Checkpoint)
    requires Invariant(state) && IsSuccessor(state.checkpoint, candidate)
    requires operation.id !in Ids(state.accepted) && operation.byteSize >= 0
    requires operation.authorizationRevision == state.checkpoint.revision
    ensures ExceedsAcceptedCapacity(state, operation, candidate)
       <==> ExceedsDependencyRetention(state.accepted + [operation],
                                       DependencyIds(Filter(LeftBy(operation.id, candidate), state.pending)))
    ensures operation.id !in DependencyIds(Filter(LeftBy(operation.id, candidate), state.pending))
            ==> !ExceedsAcceptedCapacity(state, operation, candidate)
  {
    var left := Filter(LeftBy(operation.id, candidate), state.pending);
    SnocLog(state.accepted, operation);
    OnlyDependenciesAreRetained(state.accepted + [operation], left, candidate);
    FilterMembers(LeftBy(operation.id, candidate), state.pending);
    if operation.id !in DependencyIds(left) {
      UnneededAddsNothing(state, operation, left);
    }
  }

  /** In a log of older revisions compaction is refused only for the dependencies it must retain. */
  lemma OnlyDependenciesAreRetained(log: seq<Operation>, pending: seq<Operation>, checkpoint: Checkpoint)
    requires UniqueIds(log)
    requires forall operation :: operation in log ==> operation.authorizationRevision < checkpoint.revision
    ensures RetainedAccepted(log, pending, checkpoint).Failure?
       <==> ExceedsDependencyRetention(log, DependencyIds(pending))
  {
    var dependencies := DependencyIds(pending);
    RequiredSelection(log, dependencies, checkpoint.revision);
    FilterAgrees(Required(checkpoint.revision, dependencies), HasIdIn(dependencies), log);
  }

  /** An operation nothing queued depends on leaves the retained dependencies within their bounds. */
  lemma UnneededAddsNothing(state: State, operation: Operation, left: seq<Operation>)
    requires Invariant(state) && forall queued :: queued in left ==> queued in state.pending
    requires operation.id !in DependencyIds(left)
    ensures !ExceedsDependencyRetention(state.accepted + [operation], DependencyIds(left))
  {
    var dependencies := DependencyIds(left);
    FilterLast(HasIdIn(dependencies), state.accepted, operation);
    assert Select(state.accepted + [operation], dependencies) == Select(state.accepted, dependencies);
    SubsetDependencies(left, state.pending);
    FewerDependencies(state.accepted, dependencies, DependencyIds(state.pending));
  }

  // ---- Retrying ----

  /** `retryable` names exactly the queued operations that assessing would find ready. */
  lemma RetryableIsReady(state: State, operation: Operation)
    requires Invariant(state) && state.status == Active
    ensures operation in Retryable(state)
       <==> operation in state.pending && Assess(state, operation, operation.kind).outcome == Ready
  {
    RetryableMembers(state);
    if operation in state.pending {
      assert operation.id in Ids(state.pending);
      FindFinds(state.pending, operation.id);
      assert Find(state.pending, operation.id).value == operation;
      AssessQueued(state, operation, operation.kind);
    }
  }

  lemma IdOrder()
    ensures TotalPreorder(IdAtMost())
  {
    CodeUnitOrder.LessIsStrictTotalOrder();
  }

  /** The queued operations of this revision, by a device that is admitted and not revoked, whose predecessors are
      all in the log, and no others. */
  lemma RetryableMembers(state: State)
    ensures forall operation :: operation in Retryable(state) <==>
              && operation in state.pending
              && operation.authorizationRevision == state.checkpoint.revision
              && operation.authorDeviceKey in state.checkpoint.admittedDeviceKeys
              && operation.authorDeviceKey !in state.checkpoint.revokedDeviceKeys
              && (forall id :: id in operation.previousOperationIds ==>
                    exists accepted :: accepted in state.accepted && accepted.id == id)
  {
    FilterMembers(RetryableNow(state), state.pending);
    SortIsPermutation(IdAtMost(), Filter(RetryableNow(state), state.pending));
  }

  /** It names each of them once, in strictly ascending code-unit order of id. */
  lemma RetryableIsOrdered(state: State)
    requires UniqueIds(state.pending)
    ensures var ready := Retryable(state);
            forall i, j :: 0 <= i < j < |ready| ==> CodeUnitOrder.Less(ready[i].id, ready[j].id)
  {
    var chosen := Filter(RetryableNow(state), state.pending);
    var ready := Retryable(state);
    IdOrder();
    SortIsSorted(IdAtMost(), chosen);
    SortIsPermutation(IdAtMost(), chosen);
    FilterKeepsUniqueIds(RetryableNow(state), state.pending);
    forall i, j | 0 <= i < j < |ready| ensures CodeUnitOrder.Less(ready[i].id, ready[j].id) {
      assert IdAtMost()(ready[i], ready[j]);
      CodeUnitOrder.LessIsTotal(ready[i].id, ready[j].id);
      if ready[i].id == ready[j].id {
        SharedIdIsRepeat(chosen, ready, i, j);
      }
    }
  }

  /** A rearrangement of a list with distinct ids has distinct ids. */
  lemma SharedIdIsRepeat(operations: seq<Operation>, permuted: seq<Operation>, i: nat, j: nat)
    requires UniqueIds(operations) && |permuted| == |operations|
    requires forall operation :: operation in permuted <==> operation in operations
    requires i < j < |permuted|
    ensures permuted[i].id != permuted[j].id
  {
    assert (set x | x in permuted) == (set x | x in operations);
    assert Distinct(operations);
    DistinctSetSize(operations);
    DistinctSetSize(permuted);
    assert permuted[i] in operations && permuted[j] in operations;
  }
}
