/** Which operations a scope lets in, said of the fields of the operation and of the scope it meets. The
    conditions here are written out on their own, apart from the checks the calls make. */
module ScopeDecisions {
  import opened Sequences
  import opened Wrappers
  import opened PrivateControlOperation
  import opened PrivateAuthorizationCheckpoint
  import opened PrivateOperationDependencyGraph
  import opened OperationLog
  import opened ScopeState
  import opened ScopeInvariant
  import opened ScopeSteps

  // ---- What an operation must have ----

  /** No operation of the list has this id. */
  ghost predicate Unheld(operations: seq<Operation>, id: string) {
    forall operation :: operation in operations ==> operation.id != id
  }

  /** The operation is one of its kind, for this scope, not of the past, by a device in good standing; a
      proposal of this revision names the head as its parent. */
  ghost predicate Qualifies(checkpoint: Checkpoint, operation: Operation, kind: string) {
    && operation.id != "" && operation.digest != "" && operation.authorDeviceKey != ""
    && operation.scopeId == checkpoint.scopeId
    && operation.kind == kind
    && checkpoint.revision <= operation.authorizationRevision <= 9_007_199_254_740_991
    && 0 <= operation.byteSize <= 9_007_199_254_740_991
    && operation.authorDeviceKey in checkpoint.admittedDeviceKeys
    && operation.authorDeviceKey !in checkpoint.revokedDeviceKeys
    && (operation.kind == "membership.propose" && operation.authorizationRevision == checkpoint.revision ==>
          operation.parentHeadHash == Some(checkpoint.headHash))
  }

  /** It is of a later revision, or names a predecessor that is not in the log. */
  ghost predicate Waits(state: State, operation: Operation) {
    || operation.authorizationRevision > state.checkpoint.revision
    || exists id :: id in operation.previousOperationIds && Unheld(state.accepted, id)
  }

  /** It names the id as a predecessor or as its proposal. */
  predicate DependsOn(operation: Operation, id: string) {
    id in operation.previousOperationIds || (id != "" && operation.proposalOperationId == Some(id))
  }

  /** A numbering puts every operation after those of the list it depends on. */
  ghost predicate Orders(rank: map<string, nat>, operations: seq<Operation>) {
    && (forall operation :: operation in operations ==> operation.id in rank)
    && (forall operation, other :: operation in operations && other in operations && DependsOn(operation, other.id) ==>
          rank[other.id] < rank[operation.id])
  }

  ghost predicate CanBeOrdered(operations: seq<Operation>) {
    exists rank :: Orders(rank, operations)
  }

  lemma EdgesAreDependencies(operations: seq<Operation>, operation: Operation, other: Operation)
    requires UniqueIds(operations) && operation in operations && other in operations
    ensures operation.id in EdgesOf(operations) && other.id in EdgesOf(operations)
    ensures other.id in EdgesOf(operations)[operation.id] <==> DependsOn(operation, other.id)
  {
    EdgesOfOperations(operations);
  }

  lemma RankOrders(operations: seq<Operation>, rank: map<string, nat>)
    requires UniqueIds(operations) && TopologicalRank(EdgesOf(operations), rank)
    ensures Orders(rank, operations)
  {
    EdgesOfOperations(operations);
    forall operation, other | operation in operations && other in operations && DependsOn(operation, other.id)
      ensures rank[other.id] < rank[operation.id]
    {
      EdgesAreDependencies(operations, operation, other);
    }
  }

  lemma OrderRanks(operations: seq<Operation>, rank: map<string, nat>)
    requires UniqueIds(operations) && Orders(rank, operations)
    ensures HasTopologicalOrder(EdgesOf(operations))
  {
    var edges := EdgesOf(operations);
    EdgesOfOperations(operations);
    forall id | id in edges ensures id in rank && exists operation :: operation in operations && operation.id == id {
      var operation :| operation in operations && operation.id == id;
      assert operation.id in rank;
    }
    var restricted := map id | id in edges :: rank[id];
    forall id, dependency | id in edges && dependency in edges[id] && dependency in edges
      ensures restricted[dependency] < restricted[id]
    {
      var operation :| operation in operations && operation.id == id;
      var other :| other in operations && other.id == dependency;
      EdgesAreDependencies(operations, operation, other);
    }
    assert TopologicalRank(edges, restricted);
  }

  lemma OrderableIsAcyclic(operations: seq<Operation>)
    requires UniqueIds(operations)
    ensures AcyclicQueue(operations) <==> CanBeOrdered(operations)
  {
    if AcyclicQueue(operations) {
      var rank :| TopologicalRank(EdgesOf(operations), rank);
      RankOrders(operations, rank);
    }
    if CanBeOrdered(operations) {
      var rank :| Orders(rank, operations);
      OrderRanks(operations, rank);
    }
  }

  // ---- The bounds ----

  /** What some operation of the queue depends on. */
  ghost function AwaitedBy(queue: seq<Operation>): Operation -> bool {
    (operation: Operation) => exists waiting :: waiting in queue && DependsOn(waiting, operation.id)
  }

  /** What the queue depends on in the log stays within 96 operations and 3 MiB. */
  ghost predicate AwaitedFits(log: seq<Operation>, queue: seq<Operation>) {
    var awaited := Filter(AwaitedBy(queue), log);
    |awaited| <= 96 && Bytes(awaited) <= 3_145_728
  }

  function WrittenBy(deviceKey: string): Operation -> bool {
    (operation: Operation) => operation.authorDeviceKey == deviceKey
  }

  /** The queue has fewer than 128 operations and 1 MiB, fewer than 96 and 768 KiB of this author. */
  ghost predicate QueueHasRoom(queue: seq<Operation>, operation: Operation) {
    var own := Filter(WrittenBy(operation.authorDeviceKey), queue);
    && |queue| < 128 && Bytes(queue) + operation.byteSize <= 1_048_576
    && |own| < 96 && Bytes(own) + operation.byteSize <= 786_432
  }

  lemma AwaitedHasDependencyId(queue: seq<Operation>, operation: Operation)
    ensures AwaitedBy(queue)(operation) <==> operation.id in DependencyIds(queue)
  {
    if waiting :| waiting in queue && DependsOn(waiting, operation.id) {
      assert operation.id in waiting.Dependencies();
    }
    if operation.id in DependencyIds(queue) {
      var waiting :| waiting in queue && operation.id in waiting.Dependencies();
      assert DependsOn(waiting, operation.id);
    }
  }

  lemma AwaitedIsSelected(log: seq<Operation>, queue: seq<Operation>)
    ensures Filter(AwaitedBy(queue), log) == Select(log, DependencyIds(queue))
    ensures AwaitedFits(log, queue) <==> !ExceedsDependencyRetention(log, DependencyIds(queue))
  {
    forall operation | operation in log
      ensures AwaitedBy(queue)(operation) == HasIdIn(DependencyIds(queue))(operation)
    {
      AwaitedHasDependencyId(queue, operation);
    }
    FilterAgrees(AwaitedBy(queue), HasIdIn(DependencyIds(queue)), log);
  }

  lemma RoomIsPendingCapacity(queue: seq<Operation>, operation: Operation)
    ensures QueueHasRoom(queue, operation) <==> !ExceedsPendingCapacity(queue, operation)
  {
    FilterAgrees(WrittenBy(operation.authorDeviceKey), ByAuthor(operation.authorDeviceKey), queue);
  }

  lemma UnheldIds(operations: seq<Operation>, id: string)
    ensures Unheld(operations, id) <==> id !in Ids(operations)
  {
  }

  lemma QualifyingIsValid(checkpoint: Checkpoint, operation: Operation, kind: string)
    ensures Qualifies(checkpoint, operation, kind) <==> ValidOperation(operation, checkpoint, kind)
  {
    assert checkpoint.revision >= 0;
  }

  lemma WaitingIsPending(state: State, operation: Operation)
    ensures Waits(state, operation) <==> IsPending(state, operation)
  {
    forall id | id in operation.previousOperationIds
      ensures Unheld(state.accepted, id) <==> id !in Ids(state.accepted)
    {
      UnheldIds(state.accepted, id);
    }
  }

  // ---- What assessing answers ----

  /** An operation the scope does not hold: ready when it qualifies and waits for nothing; queued when it waits,
      brings no cycle, and neither what the queue then depends on nor the queue itself is too large; refused
      otherwise, and a refusal changes nothing. */
  lemma AssessAnswersNew(state: State, operation: Operation, kind: string)
    requires Invariant(state) && state.status == Active
    requires Unheld(state.accepted, operation.id) && Unheld(state.pending, operation.id)
    ensures var step, longer := Assess(state, operation, kind), state.pending + [operation];
            if !Qualifies(state.checkpoint, operation, kind) then step == Step(state, Invalid)
            else if !Waits(state, operation) then step == Step(state, Ready)
            else if !CanBeOrdered(longer) then step == Step(state, Invalid)
            else if !AwaitedFits(state.accepted, longer) then step == Step(state, AcceptedCapacityExceeded)
            else if !QueueHasRoom(state.pending, operation) then step == Step(state, PendingCapacityExceeded)
            else step == Step(state.(pending := longer), Pending)
  {
    UnheldIds(state.accepted, operation.id);
    UnheldIds(state.pending, operation.id);
    AssessNew(state, operation, kind);
    QualifyingIsValid(state.checkpoint, operation, kind);
    WaitingIsPending(state, operation);
    EnqueueAnswers(state, operation);
  }

  lemma EnqueueAnswers(state: State, operation: Operation)
    requires Invariant(state) && Unheld(state.pending, operation.id)
    ensures var step, longer := Enqueue(state, operation), state.pending + [operation];
            if !CanBeOrdered(longer) then step == Step(state, Invalid)
            else if !AwaitedFits(state.accepted, longer) then step == Step(state, AcceptedCapacityExceeded)
            else if !QueueHasRoom(state.pending, operation) then step == Step(state, PendingCapacityExceeded)
            else step == Step(state.(pending := longer), Pending)
  {
    var longer := state.pending + [operation];
    UnheldIds(state.pending, operation.id);
    FindFinds(state.pending, operation.id);
    SnocLog(state.pending, operation);
    OrderableIsAcyclic(longer);
    AwaitedIsSelected(state.accepted, longer);
    RoomIsPendingCapacity(state.pending, operation);
  }

  function OtherThan(id: string): Operation -> bool {
    (operation: Operation) => operation.id != id
  }

  /** An operation the scope has queued under this digest: still pending while it waits, else ready and out of
      the queue, which keeps the rest in order. */
  lemma AssessAnswersQueued(state: State, queued: Operation, operation: Operation, kind: string)
    requires Invariant(state) && state.status == Active
    requires queued in state.pending && queued.id == operation.id && queued.digest == operation.digest
    ensures var step := Assess(state, operation, kind);
            if !Qualifies(state.checkpoint, operation, kind) then step == Step(state, Invalid)
            else if Waits(state, operation) then step == Step(state, Pending)
            else step == Step(state.(pending := Filter(OtherThan(operation.id), state.pending)), Ready)
  {
    FoundIsTheOne(state.pending, queued);
    AssessQueued(state, operation, kind);
    QualifyingIsValid(state.checkpoint, operation, kind);
    WaitingIsPending(state, operation);
    FilterAgrees(OtherThan(operation.id), HasOtherId(operation.id), state.pending);
  }

  lemma FoundIsTheOne(operations: seq<Operation>, operation: Operation)
    requires UniqueIds(operations) && operation in operations
    ensures operation.id in Ids(operations) && Find(operations, operation.id) == Some(operation)
  {
    assert operation.id in Ids(operations);
    FindFinds(operations, operation.id);
  }

  /** An id the log holds is a duplicate under its digest and a conflict under any other; a queued id under
      another digest is a conflict when its author repeats it, and refused when another device does. A conflict
      freezes the scope; nothing else changes it. */
  lemma AssessAnswersHeld(state: State, held: Operation, operation: Operation, kind: string)
    requires Invariant(state) && held.id == operation.id
    requires held in state.accepted || (held in state.pending && held.digest != operation.digest)
    ensures Assess(state, operation, kind)
         == if held in state.accepted && held.digest == operation.digest then Step(state, Duplicate)
            else if held in state.accepted || held.authorDeviceKey == operation.authorDeviceKey
            then Step(state.(status := Frozen), Conflict)
            else Step(state, Invalid)
  {
    if held in state.accepted {
      FoundIsTheOne(state.accepted, held);
    } else {
      FoundIsTheOne(state.pending, held);
      FindFinds(state.accepted, operation.id);
    }
  }

  /** Whatever else is offered to a frozen scope is refused. */
  lemma AssessAnswersFrozen(state: State, operation: Operation, kind: string)
    requires Invariant(state) && state.status == Frozen && Unheld(state.accepted, operation.id)
    requires forall queued :: queued in state.pending && queued.id == operation.id ==> queued.digest == operation.digest
    ensures Assess(state, operation, kind) == Step(state, Conflict)
  {
    FindFinds(state.accepted, operation.id);
    FindFinds(state.pending, operation.id);
  }

  /** The scope is active and does not hold the operation otherwise than queued under its digest; it qualifies
      and waits for nothing. */
  ghost predicate CanAct(state: State, operation: Operation, kind: string) {
    && state.status == Active
    && Unheld(state.accepted, operation.id)
    && (forall queued :: queued in state.pending && queued.id == operation.id ==> queued.digest == operation.digest)
    && Qualifies(state.checkpoint, operation, kind)
    && !Waits(state, operation)
  }

  /** Those are exactly the operations assessing finds ready, and it takes them out of the queue. */
  lemma ReadyExactlyWhenItCanAct(state: State, operation: Operation, kind: string)
    requires Invariant(state)
    ensures Assess(state, operation, kind).outcome == Ready <==> CanAct(state, operation, kind)
    ensures CanAct(state, operation, kind) ==>
              Assess(state, operation, kind).state
              == state.(pending := Filter(OtherThan(operation.id), state.pending))
  {
    if held :| held in state.accepted && held.id == operation.id {
      AssessAnswersHeld(state, held, operation, kind);
    } else if queued :| queued in state.pending && queued.id == operation.id && queued.digest != operation.digest {
      AssessAnswersHeld(state, queued, operation, kind);
    } else if state.status == Frozen {
      AssessAnswersFrozen(state, operation, kind);
    } else if queued :| queued in state.pending && queued.id == operation.id {
      AssessAnswersQueued(state, queued, operation, kind);
    } else {
      AssessAnswersNew(state, operation, kind);
      FilterAll(OtherThan(operation.id), state.pending);
    }
  }

  // ---- When assessing freezes the scope ----

  /** The log holds the operation's id under another digest, or the queue does by the same author. */
  ghost predicate Contradicts(state: State, operation: Operation) {
    exists held: Operation ::
      && held.id == operation.id && held.digest != operation.digest
      && (|| held in state.accepted
          || (held in state.pending && held.authorDeviceKey == operation.authorDeviceKey))
  }

  lemma OneOfAnId(operations: seq<Operation>, held: Operation, other: Operation)
    requires UniqueIds(operations) && held in operations && other in operations && held.id == other.id
    ensures held == other
  {
  }

  lemma HeldContradicts(state: State, held: Operation, operation: Operation)
    requires Invariant(state) && held.id == operation.id
    requires held in state.accepted || held in state.pending
    ensures Contradicts(state, operation) <==>
              && held.digest != operation.digest
              && (held in state.accepted || held.authorDeviceKey == operation.authorDeviceKey)
  {
    if Contradicts(state, operation) {
      var other: Operation :| && other.id == operation.id && other.digest != operation.digest
                   && (|| other in state.accepted
                       || (other in state.pending && other.authorDeviceKey == operation.authorDeviceKey));
      assert held in state.accepted ==> held.id in Ids(state.accepted);
      assert held in state.pending ==> held.id in Ids(state.pending);
      assert other in state.accepted ==> other.id in Ids(state.accepted);
      OneOfAnId(if held in state.accepted then state.accepted else state.pending, held, other);
    }
  }

  /** Assessing freezes an active scope exactly when the operation contradicts one it holds. */
  lemma AssessFreezesOnConflict(state: State, operation: Operation, kind: string)
    requires Invariant(state) && state.status == Active
    ensures Assess(state, operation, kind).state.status == Frozen <==> Contradicts(state, operation)
  {
    if held :| held in state.accepted && held.id == operation.id {
      AssessAnswersHeld(state, held, operation, kind);
      HeldContradicts(state, held, operation);
    } else if held :| held in state.pending && held.id == operation.id {
      HeldContradicts(state, held, operation);
      if held.digest == operation.digest {
        AssessAnswersQueued(state, held, operation, kind);
      } else {
        AssessAnswersHeld(state, held, operation, kind);
      }
    } else {
      AssessAnswersNew(state, operation, kind);
    }
  }
}
