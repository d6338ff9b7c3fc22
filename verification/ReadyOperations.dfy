/** What becomes of a queued operation that is found ready: it leaves the queue whatever the call answers,
    and is lost to the scope unless the guards after the assessment let it into the log. */
module ReadyOperations {
  import opened Sequences
  import opened Wrappers
  import opened PrivateControlOperation
  import opened PrivateAuthorizationCheckpoint
  import opened OperationLog
  import opened ScopeState
  import opened ScopeInvariant
  import opened ScopeSteps
  import opened ScopeDecisions
  import opened ScopeAcceptances

  /** Taking the operation out of the queue first changes nothing for the capacity check. */
  lemma CapacityIgnoresItsOwnEntry(state: State, operation: Operation, checkpoint: Checkpoint)
    ensures var dequeued := state.(pending := Filter(HasOtherId(operation.id), state.pending));
            ExceedsAcceptedCapacity(dequeued, operation, checkpoint) <==>
            ExceedsAcceptedCapacity(state, operation, checkpoint)
  {
    FilterTwice(LeftBy(operation.id, checkpoint), HasOtherId(operation.id), LeftBy(operation.id, checkpoint),
                state.pending);
  }

  /** The operation is out of the queue, and in the log exactly when the call accepted it. */
  ghost predicate LeavesTheQueue(operation: Operation, step: Step) {
    && operation.id !in Ids(step.state.pending)
    && (operation in step.state.accepted <==> step.outcome == Accepted)
  }

  lemma QueuedIsNotAccepted(state: State, operation: Operation)
    requires Invariant(state) && operation in state.pending
    ensures operation !in state.accepted
    ensures operation.id !in Ids(Others(state, operation))
  {
    IdsMembers(state.pending);
    IdsMembers(state.accepted);
    FilterMembers(OtherThan(operation.id), state.pending);
  }

  /** A queued proposal found ready enters the log exactly when its author has a share left and what must be
      kept fits. */
  lemma ReadyProposalLeavesTheQueue(state: State, operation: Operation)
    requires Invariant(state) && operation in state.pending
    requires Assess(state, operation, PROPOSE).outcome == Ready
    ensures LeavesTheQueue(operation, AcceptProposal(state, operation))
    ensures operation in AcceptProposal(state, operation).state.accepted
       <==> && AuthorHasShare(state, operation)
            && RequiredFits(state.accepted + [operation], Others(state, operation), state.checkpoint.revision)
  {
    ReadyExactlyWhenItCanAct(state, operation, PROPOSE);
    ProposalIsAcceptedExactly(state, operation);
    QueuedIsNotAccepted(state, operation);
  }

  /** A queued commit found ready enters the log exactly when it commits an accepted proposal, the candidate
      comes next, and what the queue then depends on fits. */
  lemma ReadyCommitLeavesTheQueue(state: State, operation: Operation, candidate: Checkpoint)
    requires Invariant(state) && operation in state.pending
    requires Assess(state, operation, COMMIT).outcome == Ready
    ensures LeavesTheQueue(operation, CommitTransition(state, operation, candidate))
    ensures operation in CommitTransition(state, operation, candidate).state.accepted
       <==> && CommitsAnAccepted(state, operation)
            && ComesNext(state.checkpoint, candidate)
            && AwaitedFits(state.accepted + [operation], LeftQueued(state, operation, candidate))
  {
    ReadyExactlyWhenItCanAct(state, operation, COMMIT);
    CommitIsAcceptedExactly(state, operation, candidate);
    QueuedTransitionSettles(state, operation, candidate, CommitsAnAccepted(state, operation),
                            CommitTransition(state, operation, candidate));
  }

  /** A queued revocation found ready enters the log exactly when it revokes an admitted device as the candidate
      says, the candidate comes next, and what the queue then depends on fits. */
  lemma ReadyRevocationLeavesTheQueue(state: State, operation: Operation, candidate: Checkpoint)
    requires Invariant(state) && operation in state.pending
    requires Assess(state, operation, REVOKE).outcome == Ready
    ensures LeavesTheQueue(operation, RevokeDevice(state, operation, candidate))
    ensures operation in RevokeDevice(state, operation, candidate).state.accepted
       <==> && RevokesAnAdmitted(state, operation, candidate)
            && ComesNext(state.checkpoint, candidate)
            && AwaitedFits(state.accepted + [operation], LeftQueued(state, operation, candidate))
  {
    ReadyExactlyWhenItCanAct(state, operation, REVOKE);
    RevocationIsAcceptedExactly(state, operation, candidate);
    QueuedTransitionSettles(state, operation, candidate, RevokesAnAdmitted(state, operation, candidate),
                            RevokeDevice(state, operation, candidate));
  }

  // ---- A transition that was queued stays in the log ----

  /** What was queued is small. */
  lemma {:induction false} QueuedIsSmall(pending: seq<Operation>, operation: Operation)
    requires NonNegative(pending) && operation in pending
    ensures 0 <= operation.byteSize <= Bytes(pending)
  {
    if operation == pending[0] {
      FilterIsPart((other: Operation) => true, pending[1..]);
      FilterAll((other: Operation) => true, pending[1..]);
    } else {
      QueuedIsSmall(pending[1..], operation);
    }
  }

  /** An accepted transition that was queued stays in the log: it is small enough to be kept, although its
      revision is past by then. */
  lemma AcceptedIsRetained(state: State, operation: Operation, candidate: Checkpoint, after: State)
    requires Invariant(state) && operation in state.pending
    requires AwaitedFits(state.accepted + [operation], LeftQueued(state, operation, candidate))
    requires MovesOn(state, operation, candidate, after)
    ensures operation in after.accepted && operation.id !in Ids(after.pending)
  {
    QueuedIsSmall(state.pending, operation);
    FilterMembers(StaysQueued(operation.id, candidate), state.pending);
  }

  lemma QueuedTransitionSettles(state: State, operation: Operation, candidate: Checkpoint, matches: bool, step: Step)
    requires Invariant(state) && operation in state.pending
    requires TransitionAnswers(state, operation, candidate, matches, step)
    ensures LeavesTheQueue(operation, step)
    ensures operation in step.state.accepted
       <==> && matches && ComesNext(state.checkpoint, candidate)
            && AwaitedFits(state.accepted + [operation], LeftQueued(state, operation, candidate))
  {
    QueuedIsNotAccepted(state, operation);
    if step.outcome == Accepted {
      AcceptedIsRetained(state, operation, candidate, step.state);
    }
  }
}
