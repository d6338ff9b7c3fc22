/** The aggregate as the program keeps it: fields updated in place by pushes, splices and loops.
    Every method is proved to do exactly what its function in `ScopeState` says. */
module PrivateAuthorizationScope {
  import opened Sequences
  import opened Wrappers
  import opened PrivateControlOperation
  import opened PrivateAuthorizationCheckpoint
  import opened OperationLog
  import opened StableSort
  import ScopeState
  import ScopeSteps
  import CodeUnitOrder
  import Graph = PrivateOperationDependencyGraph

  type Outcome = ScopeState.Outcome

  method OperationBytes(operations: seq<Operation>) returns (bytes: int)
    ensures bytes == Bytes(operations)
  {
    bytes := 0;
    for i := 0 to |operations|
      invariant bytes == Bytes(operations[..i])
    {
      assert operations[..i + 1] == operations[..i] + [operations[i]];
      BytesAppend(operations[..i], [operations[i]]);
      bytes := bytes + operations[i].byteSize;
    }
    assert operations[..|operations|] == operations;
  }

  method CollectDependencyIds(pendingOperations: seq<Operation>) returns (dependencyIds: set<string>)
    ensures dependencyIds == DependencyIds(pendingOperations)
  {
    dependencyIds := {};
    for i := 0 to |pendingOperations|
      invariant dependencyIds == DependencyIds(pendingOperations[..i])
    {
      var value := pendingOperations[i];
      ghost var before := dependencyIds;
      for j := 0 to |value.previousOperationIds|
        invariant dependencyIds == before + set id | id in value.previousOperationIds[..j]
      {
        dependencyIds := dependencyIds + {value.previousOperationIds[j]};
      }
      if value.HasProposal() {
        dependencyIds := dependencyIds + {value.proposalOperationId.value};
      }
      assert dependencyIds == before + value.Dependencies();
      assert pendingOperations[..i + 1] == pendingOperations[..i] + [value];
      assert DependencyIds(pendingOperations[..i + 1]) == before + value.Dependencies();
    }
    assert pendingOperations[..|pendingOperations|] == pendingOperations;
  }

  /** `assertDependencyRetentionCapacity`, as an answer. */
  method WithinDependencyRetention(acceptedOperations: seq<Operation>, dependencyIds: set<string>) returns (ok: bool)
    ensures ok <==> !ScopeState.ExceedsDependencyRetention(acceptedOperations, dependencyIds)
  {
    var retained := Filter(HasIdIn(dependencyIds), acceptedOperations);
    var bytes := OperationBytes(retained);
    ok := |retained| <= ScopeState.MAX_DEPENDENCY_RETAINED_OPERATIONS
       && bytes <= ScopeState.MAX_DEPENDENCY_RETAINED_BYTES;
  }

  method Retain(acceptedOperations: seq<Operation>, pendingOperations: seq<Operation>, checkpoint: Checkpoint)
    returns (result: Result<seq<Operation>, Outcome>)
    ensures result == ScopeState.RetainedAccepted(acceptedOperations, pendingOperations, checkpoint)
  {
    var dependencyIds := CollectDependencyIds(pendingOperations);
    var fits := WithinDependencyRetention(acceptedOperations, dependencyIds);
    if !fits {
      return Failure(ScopeState.AcceptedCapacityExceeded);
    }
    var requiredIds := Ids(Filter(ScopeState.Required(checkpoint.revision, dependencyIds), acceptedOperations));
    var required := Filter(HasIdIn(requiredIds), acceptedOperations);
    var requiredBytes := OperationBytes(required);
    if |required| > MAX_ACCEPTED_OPERATIONS || requiredBytes > MAX_ACCEPTED_BYTES {
      return Failure(ScopeState.AcceptedCapacityExceeded);
    }
    var retainedIds := RetainedIds(acceptedOperations, requiredIds, requiredBytes);
    return Success(Filter(HasIdIn(retainedIds), acceptedOperations));
  }

  /** Newest first, as many older operations as the bounds leave room for. */
  method RetainedIds(acceptedOperations: seq<Operation>, requiredIds: set<string>, requiredBytes: int)
    returns (retainedIds: set<string>)
    ensures retainedIds == Greedy(acceptedOperations, requiredIds, requiredBytes, 0)
  {
    retainedIds := requiredIds;
    var retainedBytes := requiredBytes;
    var historicalCount := 0;
    var index := |acceptedOperations| - 1;
    assert acceptedOperations[..index + 1] == acceptedOperations;
    while index >= 0
      invariant -1 <= index < |acceptedOperations|
      invariant 0 <= historicalCount
      invariant Greedy(acceptedOperations[..index + 1], retainedIds, retainedBytes, historicalCount)
             == Greedy(acceptedOperations, requiredIds, requiredBytes, 0)
    {
      var value := acceptedOperations[index];
      assert acceptedOperations[..index + 1] == acceptedOperations[..index] + [value];
      GreedyStep(acceptedOperations[..index], value, retainedIds, retainedBytes, historicalCount);
      index := index - 1;
      if value.id in retainedIds {
        continue;
      }
      if historicalCount >= MAX_HISTORICAL_OPERATIONS
         || |retainedIds| >= MAX_ACCEPTED_OPERATIONS
         || retainedBytes + value.byteSize > MAX_ACCEPTED_BYTES {
        continue;
      }
      retainedIds := retainedIds + {value.id};
      retainedBytes := retainedBytes + value.byteSize;
      historicalCount := historicalCount + 1;
    }
  }

  /** `assertAcyclic` on a freshly built graph, as an answer. */
  method IsAcyclic(operations: seq<Operation>) returns (ok: bool)
    ensures ok <==> Graph.AcyclicQueue(operations)
  {
    var graph := Graph.DependencyGraph.Of(operations);
    if graph.Failure? {
      return false;
    }
    ok := graph.value.AssertAcyclic();
  }

  class Scope {
    var checkpoint: Checkpoint
    const genesisHash: string
    const ownerDeviceKey: string
    var status: ScopeState.Status
    var acceptedOperations: seq<Operation>
    var pendingOperations: seq<Operation>

    ghost function State(): ScopeState.State
      reads this
    {
      ScopeState.State(checkpoint, genesisHash, ownerDeviceKey, status, acceptedOperations, pendingOperations)
    }

    constructor (state: ScopeState.State)
      ensures State() == state
    {
      checkpoint := state.checkpoint;
      genesisHash := state.genesisHash;
      ownerDeviceKey := state.ownerDeviceKey;
      status := state.status;
      acceptedOperations := state.accepted;
      pendingOperations := state.pending;
    }

    /** Builds a scope from what was stored; refuses a cyclic queue and a log that cannot be compacted. */
    static method FromPrimitives(state: ScopeState.State) returns (result: Result<Scope, Outcome>)
      ensures result.Success? <==> ScopeState.Reload(state).outcome == ScopeState.Done
      ensures result.Success? ==> fresh(result.value) && result.value.State() == ScopeState.Reload(state).state
      ensures result.Failure? ==> result.error == ScopeState.Reload(state).outcome
    {
      var scope := new Scope(state);
      var acyclic := IsAcyclic(state.pending);
      if !acyclic {
        return Failure(ScopeState.Invalid);
      }
      var outcome := scope.CompactAccepted(ScopeState.Done);
      if outcome != ScopeState.Done {
        return Failure(outcome);
      }
      return Success(scope);
    }

    static method Pin(checkpoint: Checkpoint, genesisHash: string, ownerDeviceKey: string)
      returns (result: Result<Scope, Outcome>)
      ensures var pinned := ScopeState.Pin(checkpoint, genesisHash, ownerDeviceKey);
              && (result.Success? <==> pinned.Success?)
              && (result.Success? ==> fresh(result.value) && result.value.State() == pinned.value)
              && (result.Failure? ==> result.error == pinned.error)
    {
      if !checkpoint.Authorizes(ownerDeviceKey) {
        return Failure(ScopeState.Invalid);
      }
      var scope := new Scope(ScopeState.State(checkpoint, genesisHash, ownerDeviceKey, ScopeState.Active, [], []));
      return Success(scope);
    }

    /** Compacts the log in place; answers `done`, or the refusal that left the log alone. */
    method CompactAccepted(done: Outcome) returns (outcome: Outcome)
      modifies this`acceptedOperations
      ensures ScopeState.Step(State(), outcome) == ScopeState.Compact(old(State()), done)
    {
      var pending := Filter(ScopeState.StillValid(checkpoint), pendingOperations);
      var retained := Retain(acceptedOperations, pending, checkpoint);
      if retained.Failure? {
        return retained.error;
      }
      acceptedOperations := retained.value;
      return done;
    }

    /** `assertAcceptedCapacity`, as an answer. */
    method HasAcceptedCapacity(operation: Operation, candidate: Checkpoint) returns (ok: bool)
      ensures ok <==> !ScopeState.ExceedsAcceptedCapacity(State(), operation, candidate)
    {
      var pending := Filter(ScopeState.LeftBy(operation.id, candidate), pendingOperations);
      if operation.authorizationRevision == candidate.revision {
        var current := Filter(ScopeState.AtRevision(candidate.revision), acceptedOperations);
        var byAuthor := Filter(ScopeState.ByAuthor(operation.authorDeviceKey), current);
        var authorBytes := OperationBytes(byAuthor);
        if |byAuthor| >= ScopeState.MAX_ACCEPTED_OPERATIONS_PER_AUTHOR
           || authorBytes + operation.byteSize > ScopeState.MAX_ACCEPTED_BYTES_PER_AUTHOR {
          return false;
        }
        if operation.authorDeviceKey !in candidate.authorityKeys {
          var nonAuthority := Filter(ScopeState.ByOthersThan(candidate.authorityKeys), current);
          var nonAuthorityBytes := OperationBytes(nonAuthority);
          if |nonAuthority| >= ScopeState.MAX_NON_AUTHORITY_ACCEPTED_OPERATIONS
             || nonAuthorityBytes + operation.byteSize > ScopeState.MAX_NON_AUTHORITY_ACCEPTED_BYTES {
            return false;
          }
        }
      }
      var retained := Retain(acceptedOperations + [operation], pending, candidate);
      return retained.Success?;
    }

    method PrunePending()
      modifies this`pendingOperations
      ensures State() == ScopeState.Prune(old(State()))
    {
      var valid := ScopeState.StillValid(checkpoint);
      ghost var before := pendingOperations;
      var index := |pendingOperations| - 1;
      while index >= 0
        invariant -1 <= index < |before|
        invariant pendingOperations == before[..index + 1] + Filter(valid, before[index + 1..])
      {
        assert pendingOperations[index] == before[index];
        assert before[index..] == [before[index]] + before[index + 1..];
        if !valid(pendingOperations[index]) {
          pendingOperations := SpliceOne(pendingOperations, index);
        }
        index := index - 1;
      }
      assert before[0..] == before;
    }

    method Enqueue(operation: Operation) returns (outcome: Outcome)
      modifies this`status, this`pendingOperations
      ensures ScopeState.Step(State(), outcome) == ScopeState.Enqueue(old(State()), operation)
    {
      var duplicate := Find(pendingOperations, operation.id);
      if duplicate.Some? {
        if duplicate.value.digest != operation.digest {
          status := ScopeState.Frozen;
          return ScopeState.Conflict;
        }
        return ScopeState.Pending;
      }
      var acyclic := IsAcyclic(pendingOperations + [operation]);
      if !acyclic {
        return ScopeState.Invalid;
      }
      var byAuthor := Filter(ScopeState.ByAuthor(operation.authorDeviceKey), pendingOperations);
      var bytes := OperationBytes(pendingOperations);
      var authorBytes := OperationBytes(byAuthor);
      var withinGlobalCapacity :=
        && |pendingOperations| < ScopeState.MAX_PENDING_OPERATIONS
        && bytes + operation.byteSize <= ScopeState.MAX_PENDING_BYTES;
      var withinAuthorCapacity :=
        && |byAuthor| < ScopeState.MAX_PENDING_OPERATIONS_PER_AUTHOR
        && authorBytes + operation.byteSize <= ScopeState.MAX_PENDING_BYTES_PER_AUTHOR;
      var dependencyIds := CollectDependencyIds(pendingOperations + [operation]);
      var retainable := WithinDependencyRetention(acceptedOperations, dependencyIds);
      if !retainable {
        return ScopeState.AcceptedCapacityExceeded;
      }
      if !(withinGlobalCapacity && withinAuthorCapacity) {
        return ScopeState.PendingCapacityExceeded;
      }
      pendingOperations := pendingOperations + [operation];
      return ScopeState.Pending;
    }

    method AcceptNow(operation: Operation)
      modifies this`acceptedOperations, this`pendingOperations
      ensures State() == ScopeState.AcceptNow(old(State()), operation)
    {
      var pendingIndex := FindIndex(pendingOperations, operation.id);
      if pendingIndex >= 0 {
        pendingOperations := SpliceOne(pendingOperations, pendingIndex);
      }
      acceptedOperations := acceptedOperations + [operation];
    }

    method Assess(operation: Operation, expectedKind: string) returns (outcome: Outcome)
      modifies this`status, this`pendingOperations
      ensures ScopeState.Step(State(), outcome) == ScopeState.Assess(old(State()), operation, expectedKind)
    {
      var settled := Find(acceptedOperations, operation.id);
      var queued := Find(pendingOperations, operation.id);
      if settled.Some? {
        if settled.value.digest != operation.digest {
          status := ScopeState.Frozen;
          return ScopeState.Conflict;
        }
        return ScopeState.Duplicate;
      }
      if queued.Some? && queued.value.digest != operation.digest {
        if queued.value.authorDeviceKey != operation.authorDeviceKey {
          return ScopeState.Invalid;
        }
        status := ScopeState.Frozen;
        return ScopeState.Conflict;
      }
      if status != ScopeState.Active {
        return ScopeState.Conflict;
      }
      PrunePending();
      if !ScopeState.ValidOperation(operation, checkpoint, expectedKind) {
        return ScopeState.Invalid;
      }
      var isPending := IsPending(operation);
      if queued.Some? && !isPending {
        var pendingIndex := FindIndex(pendingOperations, operation.id);
        pendingOperations := SpliceOne(pendingOperations, pendingIndex);
      } else if queued.Some? {
        return ScopeState.Pending;
      }
      if isPending {
        outcome := Enqueue(operation);
        return;
      }
      return ScopeState.Ready;
    }

    method IsPending(operation: Operation) returns (pending: bool)
      ensures pending == ScopeState.IsPending(State(), operation)
    {
      var acceptedIds := Ids(acceptedOperations);
      pending := operation.authorizationRevision > checkpoint.revision
              || exists id | id in operation.previousOperationIds :: id !in acceptedIds;
    }

    method AcceptProposal(operation: Operation) returns (outcome: Outcome)
      modifies this
      ensures ScopeState.Step(State(), outcome) == ScopeState.AcceptProposal(old(State()), operation)
    {
      outcome := Assess(operation, ScopeState.PROPOSE);
      if outcome != ScopeState.Ready {
        return;
      }
      var fits := HasAcceptedCapacity(operation, checkpoint);
      if !fits {
        return ScopeState.AcceptedCapacityExceeded;
      }
      AcceptNow(operation);
      outcome := CompactAccepted(ScopeState.Accepted);
    }

    /** The part `commitTransition` and `revokeDevice` share. */
    method Transition(operation: Operation, candidate: Checkpoint) returns (outcome: Outcome)
      modifies this
      ensures ScopeState.Step(State(), outcome) == ScopeState.Transition(old(State()), operation, candidate)
    {
      if !ScopeState.IsSuccessor(checkpoint, candidate) {
        return ScopeState.Invalid;
      }
      var fits := HasAcceptedCapacity(operation, candidate);
      if !fits {
        return ScopeState.AcceptedCapacityExceeded;
      }
      AcceptNow(operation);
      checkpoint := candidate;
      PrunePending();
      outcome := CompactAccepted(ScopeState.Accepted);
    }

    method CommitTransition(operation: Operation, candidate: Checkpoint) returns (outcome: Outcome)
      modifies this
      ensures ScopeState.Step(State(), outcome) == ScopeState.CommitTransition(old(State()), operation, candidate)
    {
      outcome := Assess(operation, ScopeState.COMMIT);
      if outcome != ScopeState.Ready {
        return;
      }
      if !ScopeState.CommitsProposal(acceptedOperations, operation) {
        return ScopeState.Invalid;
      }
      outcome := Transition(operation, candidate);
    }

    method RevokeDevice(operation: Operation, candidate: Checkpoint) returns (outcome: Outcome)
      modifies this
      ensures ScopeState.Step(State(), outcome) == ScopeState.RevokeDevice(old(State()), operation, candidate)
    {
      outcome := Assess(operation, ScopeState.REVOKE);
      if outcome != ScopeState.Ready {
        return;
      }
      if !ScopeState.RevokesAdmitted(checkpoint, operation, candidate) {
        return ScopeState.Invalid;
      }
      outcome := Transition(operation, candidate);
    }

    method PinGenesis(candidate: Checkpoint, genesisHash: string) returns (outcome: Outcome)
      modifies this`status
      ensures ScopeState.Step(State(), outcome) == ScopeState.PinGenesis(old(State()), candidate, genesisHash)
    {
      if this.genesisHash != genesisHash || checkpoint != candidate {
        status := ScopeState.Frozen;
        return ScopeState.Conflict;
      }
      return ScopeState.Done;
    }

    method Quarantine()
      modifies this`status
      ensures State() == ScopeState.Quarantine(old(State())).state
    {
      if status == ScopeState.Frozen {
        return;
      }
      status := ScopeState.Frozen;
    }

    /** The queued operations that wait for nothing any more, each once, by ascending id. */
    method Retryable() returns (ready: seq<Operation>)
      ensures ready == ScopeState.Retryable(State())
      ensures forall operation ::
                operation in ready <==> operation in pendingOperations && ScopeState.RetryableNow(State())(operation)
      ensures UniqueIds(pendingOperations) ==>
                forall i, j :: 0 <= i < j < |ready| ==> CodeUnitOrder.Less(ready[i].id, ready[j].id)
    {
      var state := ScopeState.State(checkpoint, genesisHash, ownerDeviceKey, status, acceptedOperations,
                                    pendingOperations);
      ready := Sort(ScopeState.IdAtMost(), Filter(ScopeState.RetryableNow(state), pendingOperations));
      ScopeSteps.RetryableMembers(state);
      if UniqueIds(pendingOperations) {
        ScopeSteps.RetryableIsOrdered(state);
      }
    }
  }
}
