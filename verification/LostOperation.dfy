/** A run that loses a queued operation: it is found ready, refused for its author's bytes, and gone. */
module LostOperation {
  import opened Sequences
  import opened Wrappers
  import opened PrivateControlOperation
  import opened PrivateAuthorizationCheckpoint
  import opened PrivateOperationDependencyGraph
  import opened OperationLog
  import opened ScopeState
  import opened ScopeInvariant
  import opened ScopeSteps
  import opened ScopeRuns
  import opened ReadyOperations
  import opened StableSort

  /** Device `k` is admitted, device `m` is the authority. */
  const CHECKPOINT: Checkpoint :=
    CheckpointRecord("s", 0, "h", None, ["k", "m"], ["m"], [], "m", "{}",
                     [DeviceIdentity("k", "i"), DeviceIdentity("m", "j")])

  function Proposal(id: string, author: string, byteSize: int, previous: seq<string>): Operation {
    Operation(id, "d", author, "s", PROPOSE, 0, byteSize, Some("h"), Mutation("{}", None), previous, None)
  }

  /** The waiting proposal, the one that fills its author's bytes, and the one it waits for. */
  const WAITING := Proposal("x", "k", 1, ["p"])
  const FILLING := Proposal("a", "k", MAX_ACCEPTED_BYTES_PER_AUTHOR, [])
  const AWAITED := Proposal("p", "m", 0, [])

  function Holding(accepted: seq<Operation>, pending: seq<Operation>): State {
    State(CHECKPOINT, "g", "m", Active, accepted, pending)
  }

  lemma FilterOfOne<T>(keep: T -> bool, x: T)
    ensures Filter(keep, [x]) == if keep(x) then [x] else []
  {
  }

  lemma FilterOfTwo<T>(keep: T -> bool, x: T, y: T)
    ensures Filter(keep, [x, y]) == (if keep(x) then [x] else []) + (if keep(y) then [y] else [])
  {
    assert [x, y][1..] == [y];
    FilterOfOne(keep, y);
  }

  /** An empty queue is sound, and so is a queue of one proposal that waits for another. */
  lemma OneProposalIsAcyclic(operation: Operation)
    requires operation.id !in operation.Dependencies()
    ensures AcyclicQueue([operation])
  {
    var rank := map[operation.id := 0];
    EdgesOfOperations([operation]);
    assert TopologicalRank(EdgesOf([operation]), rank);
  }

  lemma ProposalsAreValid(id: string, author: string, byteSize: int, previous: seq<string>)
    requires id != "" && author in {"k", "m"} && 0 <= byteSize <= MAX_ACCEPTED_BYTES_PER_AUTHOR
    ensures ValidOperation(Proposal(id, author, byteSize, previous), CHECKPOINT, PROPOSE)
  {
    assert CHECKPOINT.admittedDeviceKeys == ["k", "m"] && CHECKPOINT.revokedDeviceKeys == [];
  }

  /** A log of the current revision alone is retained whole. */
  lemma CurrentLogIsRetained(log: seq<Operation>, pending: seq<Operation>, checkpoint: Checkpoint)
    requires UniqueIds(log) && NonNegative(log) && RetainedAccepted(log, pending, checkpoint).Success?
    requires forall operation :: operation in log ==> operation.authorizationRevision == checkpoint.revision
    ensures RetainedAccepted(log, pending, checkpoint).value == log
  {
    CompactionKeeps(log, pending, checkpoint);
    var retained := RetainedAccepted(log, pending, checkpoint).value;
    var ids :| retained == Select(log, ids);
    FilterMembers(HasIdIn(ids), log);
    FilterAll(HasIdIn(ids), log);
  }

  /** The queue and the log a proposal that fits leaves are those it found, with the proposal appended. */
  lemma AcceptingAtHead(state: State, operation: Operation)
    requires Invariant(state)
    requires operation.id !in Ids(state.accepted) && operation.id !in Ids(state.pending) && operation.byteSize >= 0
    requires operation.authorizationRevision == state.checkpoint.revision
    requires !ExceedsAcceptedCapacity(state, operation, state.checkpoint)
    requires forall other :: other in state.accepted ==> other.authorizationRevision == state.checkpoint.revision
    ensures Compact(AcceptNow(state, operation), Accepted)
         == Step(state.(accepted := state.accepted + [operation]), Accepted)
  {
    AcceptanceCompletes(state, operation, state.checkpoint);
    QueueIsSettled(state.pending, state.checkpoint);
    FindFinds(state.pending, operation.id);
    var next := AcceptNow(state, operation);
    assert next == state.(accepted := state.accepted + [operation]);
    assert Prune(next.(checkpoint := state.checkpoint)) == next;
    SnocLog(state.accepted, operation);
    CurrentLogIsRetained(state.accepted + [operation], state.pending, state.checkpoint);
  }

  /** A proposal new to the scope that waits for nothing and fits is appended to the log. */
  lemma ProposingFits(state: State, operation: Operation)
    requires Invariant(state) && state.status == Active && ValidOperation(operation, state.checkpoint, PROPOSE)
    requires operation.id !in Ids(state.accepted) && operation.id !in Ids(state.pending)
    requires !IsPending(state, operation)
    requires !ExceedsAcceptedCapacity(state, operation, state.checkpoint)
    requires forall other :: other in state.accepted ==> other.authorizationRevision == state.checkpoint.revision
    ensures AcceptProposal(state, operation) == Step(state.(accepted := state.accepted + [operation]), Accepted)
  {
    AssessNew(state, operation, PROPOSE);
    AcceptingAtHead(state, operation);
  }

  /** One that waits is queued or refused as `enqueue` says. */
  lemma ProposingWaits(state: State, operation: Operation)
    requires Invariant(state) && state.status == Active && ValidOperation(operation, state.checkpoint, PROPOSE)
    requires operation.id !in Ids(state.accepted) && operation.id !in Ids(state.pending)
    requires IsPending(state, operation)
    ensures AcceptProposal(state, operation) == Enqueue(state, operation)
  {
    AssessNew(state, operation, PROPOSE);
    EnqueueKeeps(state, operation);
  }

  // ---- The four calls ----

  /** A log within the dependency bounds can always be retained. */
  lemma SmallLogIsRetained(log: seq<Operation>, pending: seq<Operation>, checkpoint: Checkpoint)
    requires NonNegative(log)
    requires Within(log, MAX_DEPENDENCY_RETAINED_OPERATIONS, MAX_DEPENDENCY_RETAINED_BYTES)
    ensures RetainedAccepted(log, pending, checkpoint).Success?
    ensures !ExceedsDependencyRetention(log, DependencyIds(pending))
  {
    var dependencies := DependencyIds(pending);
    FilterIsPart(HasIdIn(dependencies), log);
    FilterIsPart(HasIdIn(RequiredIds(log, dependencies, checkpoint.revision)), log);
  }

  /** An empty scope queues whatever does not wait for itself. */
  lemma EmptyScopeQueues(state: State, operation: Operation)
    requires state.accepted == [] && state.pending == []
    requires operation.id !in operation.Dependencies() && operation.byteSize <= MAX_PENDING_BYTES_PER_AUTHOR
    ensures Enqueue(state, operation) == Step(state.(pending := [operation]), Pending)
  {
    var longer, none: seq<Operation> := state.pending + [operation], [];
    assert longer == [operation];
    OneProposalIsAcyclic(operation);
    SmallLogIsRetained(none, longer, state.checkpoint);
    assert Filter(ByAuthor(operation.authorDeviceKey), none) == [];
  }

  /** The waiting proposal is queued: the one it names is not in the log. */
  lemma WaitingIsQueued()
    requires Invariant(Holding([], []))
    ensures AcceptProposal(Holding([], []), WAITING) == Step(Holding([], [WAITING]), Pending)
  {
    ProposalsAreValid("x", "k", 1, ["p"]);
    assert "p" in WAITING.previousOperationIds;
    EmptyScopeQueues(Holding([], []), WAITING);
    ProposingWaits(Holding([], []), WAITING);
  }

  /** The filling proposal fits exactly: its author has accepted nothing yet. */
  lemma FillingIsAccepted()
    requires Invariant(Holding([], [WAITING]))
    ensures AcceptProposal(Holding([], [WAITING]), FILLING) == Step(Holding([FILLING], [WAITING]), Accepted)
  {
    var before := Holding([], [WAITING]);
    var none: seq<Operation> := [];
    ProposalsAreValid("a", "k", MAX_ACCEPTED_BYTES_PER_AUTHOR, []);
    assert Filter(AtRevision(0), none) == [];
    assert Filter(ByAuthor("k"), none) == [];
    assert Filter(ByOthersThan(["m"]), none) == [];
    assert none + [FILLING] == [FILLING];
    SmallLogIsRetained([FILLING], Filter(LeftBy("a", CHECKPOINT), [WAITING]), CHECKPOINT);
    ProposingFits(before, FILLING);
  }

  /** Beside another device's operation an authority has its whole share left. */
  lemma RoomBeside(first: Operation, operation: Operation, checkpoint: Checkpoint)
    requires first.authorizationRevision == checkpoint.revision && first.authorDeviceKey != operation.authorDeviceKey
    requires operation.authorDeviceKey in checkpoint.authorityKeys
    requires operation.byteSize <= MAX_ACCEPTED_BYTES_PER_AUTHOR
    ensures !ExceedsCurrentRevision([first], operation, checkpoint)
  {
    FilterOfOne(AtRevision(checkpoint.revision), first);
    FilterOfOne(ByAuthor(operation.authorDeviceKey), first);
  }

  /** An author's bytes of the current revision count, whatever others accepted. */
  lemma NoRoomBeside(first: Operation, second: Operation, operation: Operation, checkpoint: Checkpoint)
    requires first.authorizationRevision == checkpoint.revision == second.authorizationRevision
    requires first.authorDeviceKey == operation.authorDeviceKey != second.authorDeviceKey
    requires first.byteSize + operation.byteSize > MAX_ACCEPTED_BYTES_PER_AUTHOR
    ensures ExceedsCurrentRevision([first, second], operation, checkpoint)
  {
    FilterOfTwo(AtRevision(checkpoint.revision), first, second);
    FilterOfTwo(ByAuthor(operation.authorDeviceKey), first, second);
    assert [first] + [second] == [first, second];
    assert Bytes([first]) == first.byteSize;
  }

  /** The awaited proposal is the other device's, so it fits. */
  lemma AwaitedIsAccepted()
    requires Invariant(Holding([FILLING], [WAITING]))
    ensures AcceptProposal(Holding([FILLING], [WAITING]), AWAITED)
         == Step(Holding([FILLING, AWAITED], [WAITING]), Accepted)
  {
    ProposalsAreValid("p", "m", 0, []);
    assert "m" == AWAITED.authorDeviceKey && "k" == FILLING.authorDeviceKey && "m" != "k";
    RoomBeside(FILLING, AWAITED, CHECKPOINT);
    assert [FILLING] + [AWAITED] == [FILLING, AWAITED];
    BytesSnoc([FILLING], AWAITED);
    assert Bytes([FILLING]) == FILLING.byteSize;
    SmallLogIsRetained([FILLING, AWAITED], Filter(LeftBy("p", CHECKPOINT), [WAITING]), CHECKPOINT);
    ProposingFits(Holding([FILLING], [WAITING]), AWAITED);
  }

  /** A queued proposal that waits for nothing any more and does not fit leaves the queue all the same. */
  lemma OnlyQueuedIsLost(state: State, operation: Operation)
    requires Invariant(state) && state.status == Active && state.pending == [operation]
    requires ValidOperation(operation, state.checkpoint, PROPOSE) && !IsPending(state, operation)
    requires ExceedsAcceptedCapacity(state, operation, state.checkpoint)
    ensures AcceptProposal(state, operation) == Step(state.(pending := []), AcceptedCapacityExceeded)
    ensures operation in Retryable(state)
  {
    FindFinds(state.pending, operation.id);
    AssessQueued(state, operation, PROPOSE);
    FilterOfOne(HasOtherId(operation.id), operation);
    CapacityIgnoresItsOwnEntry(state, operation, state.checkpoint);
    RetryableIsReady(state, operation);
  }

  /** Now the waiting proposal is ready, does not fit, and is in neither list. */
  lemma WaitingIsLost()
    requires Invariant(Holding([FILLING, AWAITED], [WAITING]))
    ensures WAITING in Retryable(Holding([FILLING, AWAITED], [WAITING]))
    ensures AcceptProposal(Holding([FILLING, AWAITED], [WAITING]), WAITING)
         == Step(Holding([FILLING, AWAITED], []), AcceptedCapacityExceeded)
  {
    ProposalsAreValid("x", "k", 1, ["p"]);
    assert [FILLING, AWAITED][1] == AWAITED && AWAITED.id == "p";
    assert "m" == AWAITED.authorDeviceKey && "k" == FILLING.authorDeviceKey && "m" != "k";
    NoRoomBeside(FILLING, AWAITED, WAITING, CHECKPOINT);
    OnlyQueuedIsLost(Holding([FILLING, AWAITED], [WAITING]), WAITING);
  }

  /** One call more. */
  lemma RunGrows(histories: seq<History>, calls: seq<Call>, call: Call, next: History)
    requires IsRun(histories, calls) && next == Extend(histories[|calls|], call)
    ensures IsRun(histories + [next], calls + [call])
  {
    var longer, longerCalls := histories + [next], calls + [call];
    forall i | 0 <= i < |longerCalls| ensures Follows(longer, longerCalls, i) {
      if i < |calls| {
        assert Follows(histories, calls, i);
      }
    }
  }

  /** The run ends in a sound state with this log and queue. */
  ghost predicate Reaches(histories: seq<History>, calls: seq<Call>, state: State) {
    IsRun(histories, calls) && histories[|calls|].state == state && Invariant(state)
  }

  /** What a proposal answers on a state the run has reached. */
  ghost predicate Answers(state: State, operation: Operation, step: Step) {
    Apply(state, Proposing(operation)) == step
  }

  lemma Proposed(histories: seq<History>, calls: seq<Call>, state: State, operation: Operation, step: Step)
    returns (longer: seq<History>)
    requires Reaches(histories, calls, state) && AcceptProposal(state, operation) == step
    ensures |longer| == |histories| + 1 && longer[..|histories|] == histories
    ensures Reaches(longer, calls + [Proposing(operation)], step.state)
    ensures Answers(state, operation, step)
  {
    AcceptProposalCompletes(state, operation);
    var next := Extend(histories[|calls|], Proposing(operation));
    RunGrows(histories, calls, Proposing(operation), next);
    longer := histories + [next];
  }

  lemma Pinned() returns (histories: seq<History>)
    ensures |histories| == 1 && Reaches(histories, [], Holding([], []))
  {
    var start := History(Holding([], []), [], [CHECKPOINT]);
    assert Pin(CHECKPOINT, "g", "m") == Success(start.state);
    PinnedIsSound(start);
    histories := [start];
  }

  lemma AfterOneCall() returns (histories: seq<History>)
    ensures |histories| == 2 && Reaches(histories, [Proposing(WAITING)], Holding([], [WAITING]))
  {
    var start := Pinned();
    WaitingIsQueued();
    histories := Proposed(start, [], Holding([], []), WAITING, Step(Holding([], [WAITING]), Pending));
    assert [] + [Proposing(WAITING)] == [Proposing(WAITING)];
  }

  lemma AfterTwoCalls() returns (histories: seq<History>)
    ensures |histories| == 3
    ensures Reaches(histories, [Proposing(WAITING), Proposing(FILLING)], Holding([FILLING], [WAITING]))
  {
    var shorter := AfterOneCall();
    FillingIsAccepted();
    histories := Proposed(shorter, [Proposing(WAITING)], Holding([], [WAITING]), FILLING,
                          Step(Holding([FILLING], [WAITING]), Accepted));
    assert [Proposing(WAITING)] + [Proposing(FILLING)] == [Proposing(WAITING), Proposing(FILLING)];
  }

  lemma AfterThreeCalls() returns (histories: seq<History>)
    ensures |histories| == 4
    ensures Reaches(histories, [Proposing(WAITING), Proposing(FILLING), Proposing(AWAITED)],
                    Holding([FILLING, AWAITED], [WAITING]))
  {
    var shorter := AfterTwoCalls();
    AwaitedIsAccepted();
    histories := Proposed(shorter, [Proposing(WAITING), Proposing(FILLING)], Holding([FILLING], [WAITING]), AWAITED,
                          Step(Holding([FILLING, AWAITED], [WAITING]), Accepted));
    assert [Proposing(WAITING), Proposing(FILLING)] + [Proposing(AWAITED)]
        == [Proposing(WAITING), Proposing(FILLING), Proposing(AWAITED)];
  }

  /** A run from `pin` whose last call answers that the log is full, for an operation `retryable` named,
      and leaves the scope without that operation. */
  lemma RunThatLosesAnOperation() returns (histories: seq<History>, calls: seq<Call>)
    ensures calls == [Proposing(WAITING), Proposing(FILLING), Proposing(AWAITED), Proposing(WAITING)]
    ensures |histories| == 5 && Reaches(histories, calls, Holding([FILLING, AWAITED], []))
    ensures histories[3].state == Holding([FILLING, AWAITED], [WAITING])
    ensures WAITING in Retryable(histories[3].state)
    ensures Answers(histories[3].state, WAITING, Step(Holding([FILLING, AWAITED], []), AcceptedCapacityExceeded))
  {
    var shorter := AfterThreeCalls();
    WaitingIsLost();
    histories := Proposed(shorter, [Proposing(WAITING), Proposing(FILLING), Proposing(AWAITED)],
                          Holding([FILLING, AWAITED], [WAITING]), WAITING,
                          Step(Holding([FILLING, AWAITED], []), AcceptedCapacityExceeded));
    calls := [Proposing(WAITING), Proposing(FILLING), Proposing(AWAITED)] + [Proposing(WAITING)];
    assert histories[3] == shorter[3];
  }
}
