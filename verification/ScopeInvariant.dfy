/** What every operation of the scope keeps. */
module ScopeInvariant {
  import opened Sequences
  import opened Wrappers
  import opened PrivateControlOperation
  import opened PrivateAuthorizationCheckpoint
  import opened PrivateOperationDependencyGraph
  import opened OperationLog
  import opened ScopeState

  /** The accepted log: distinct ids, no operation from the future, within every bound. */
  ghost predicate LogInvariant(accepted: seq<Operation>, checkpoint: Checkpoint) {
    && UniqueIds(accepted)
    && NonNegative(accepted)
    && (forall operation :: operation in accepted ==> operation.authorizationRevision <= checkpoint.revision)
    && Within(accepted, MAX_ACCEPTED_OPERATIONS, MAX_ACCEPTED_BYTES)
    && CurrentRevisionInvariant(accepted, checkpoint)
  }

  /** The bounds on what was accepted at the current revision. */
  ghost predicate CurrentRevisionInvariant(accepted: seq<Operation>, checkpoint: Checkpoint) {
    var current := Filter(AtRevision(checkpoint.revision), accepted);
    && (forall author ::
          Within(Filter(ByAuthor(author), current),
                 MAX_ACCEPTED_OPERATIONS_PER_AUTHOR, MAX_ACCEPTED_BYTES_PER_AUTHOR))
    && Within(Filter(ByOthersThan(checkpoint.authorityKeys), current),
              MAX_NON_AUTHORITY_ACCEPTED_OPERATIONS, MAX_NON_AUTHORITY_ACCEPTED_BYTES)
  }

  /** The queue: acyclic with distinct ids, every operation still valid, within every bound. */
  ghost predicate QueueInvariant(pending: seq<Operation>, checkpoint: Checkpoint) {
    && AcyclicQueue(pending)
    && (forall operation :: operation in pending ==>
          WellFormed(operation, checkpoint) && !PermanentlyInvalid(operation, checkpoint))
    && Within(pending, MAX_PENDING_OPERATIONS, MAX_PENDING_BYTES)
    && AuthorsWithin(pending)
  }

  ghost predicate Invariant(state: State) {
    && LogInvariant(state.accepted, state.checkpoint)
    && QueueInvariant(state.pending, state.checkpoint)
    && Ids(state.accepted) !! Ids(state.pending)
    && !ExceedsDependencyRetention(state.accepted, DependencyIds(state.pending))
  }

  // ---- Pruning and shrinking the queue ----

  lemma IdsMembers(operations: seq<Operation>)
    ensures forall operation :: operation in operations ==> operation.id in Ids(operations)
  {
  }

  lemma QueueIsSettled(pending: seq<Operation>, checkpoint: Checkpoint)
    requires QueueInvariant(pending, checkpoint)
    ensures Filter(StillValid(checkpoint), pending) == pending
  {
    FilterAll(StillValid(checkpoint), pending);
  }

  lemma FewerDependencies(accepted: seq<Operation>, fewer: set<string>, more: set<string>)
    requires NonNegative(accepted)
    requires forall operation :: operation in accepted && operation.id in fewer ==> operation.id in more
    requires !ExceedsDependencyRetention(accepted, more)
    ensures !ExceedsDependencyRetention(accepted, fewer)
  {
    FilterWithin(HasIdIn(fewer), HasIdIn(more), accepted);
  }

  lemma SubsetDependencies(kept: seq<Operation>, pending: seq<Operation>)
    requires forall operation :: operation in kept ==> operation in pending
    ensures DependencyIds(kept) <= DependencyIds(pending)
    ensures Ids(kept) <= Ids(pending)
  {
  }

  /** A part of the queue that is valid at a checkpoint is a queue for it. */
  lemma FilteredQueue(pending: seq<Operation>, checkpoint: Checkpoint, keep: Operation -> bool, next: Checkpoint)
    requires QueueInvariant(pending, checkpoint) && next.scopeId == checkpoint.scopeId
    requires forall operation :: operation in pending && keep(operation) ==> !PermanentlyInvalid(operation, next)
    ensures QueueInvariant(Filter(keep, pending), next)
    ensures Ids(Filter(keep, pending)) <= Ids(pending)
    ensures DependencyIds(Filter(keep, pending)) <= DependencyIds(pending)
  {
    var kept := Filter(keep, pending);
    FilterMembers(keep, pending);
    FilterKeepsUniqueIds(keep, pending);
    AcyclicSubqueue(pending, kept);
    SubsetDependencies(kept, pending);
    FilterIsPart(keep, pending);
    AuthorsStayWithin(pending, keep);
  }

  ghost predicate AuthorsWithin(pending: seq<Operation>) {
    forall author ::
      Within(Filter(ByAuthor(author), pending), MAX_PENDING_OPERATIONS_PER_AUTHOR, MAX_PENDING_BYTES_PER_AUTHOR)
  }

  lemma AuthorsStayWithin(pending: seq<Operation>, keep: Operation -> bool)
    requires NonNegative(pending) && AuthorsWithin(pending)
    ensures AuthorsWithin(Filter(keep, pending))
  {
    forall author
      ensures Within(Filter(ByAuthor(author), Filter(keep, pending)),
                     MAX_PENDING_OPERATIONS_PER_AUTHOR, MAX_PENDING_BYTES_PER_AUTHOR)
    {
      AuthorsPartWithin(pending, keep, author);
    }
  }

  lemma AuthorsPartWithin(pending: seq<Operation>, keep: Operation -> bool, author: string)
    requires NonNegative(pending)
    requires Within(Filter(ByAuthor(author), pending),
                    MAX_PENDING_OPERATIONS_PER_AUTHOR, MAX_PENDING_BYTES_PER_AUTHOR)
    ensures Within(Filter(ByAuthor(author), Filter(keep, pending)),
                   MAX_PENDING_OPERATIONS_PER_AUTHOR, MAX_PENDING_BYTES_PER_AUTHOR)
  {
    var both := (operation: Operation) => keep(operation) && ByAuthor(author)(operation);
    FilterTwice(ByAuthor(author), keep, both, pending);
    FilterWithin(both, ByAuthor(author), pending);
  }

  // ---- Growing the queue ----

  lemma BytesSnoc(operations: seq<Operation>, operation: Operation)
    ensures Bytes(operations + [operation]) == Bytes(operations) + operation.byteSize
  {
    BytesAppend(operations, [operation]);
    assert Bytes([operation]) == operation.byteSize;
  }

  lemma SnocWithin(keep: Operation -> bool, operations: seq<Operation>, operation: Operation, count: nat, bytes: int)
    requires Within(Filter(keep, operations), count, bytes)
    requires keep(operation) ==>
               |Filter(keep, operations)| < count && Bytes(Filter(keep, operations)) + operation.byteSize <= bytes
    ensures Within(Filter(keep, operations + [operation]), count, bytes)
  {
    FilterLast(keep, operations, operation);
    BytesSnoc(Filter(keep, operations), operation);
    if !keep(operation) {
      assert Filter(keep, operations) + [] == Filter(keep, operations);
    }
  }

  lemma EnqueueKeepsQueue(pending: seq<Operation>, checkpoint: Checkpoint, operation: Operation)
    requires QueueInvariant(pending, checkpoint)
    requires WellFormed(operation, checkpoint) && !PermanentlyInvalid(operation, checkpoint)
    requires AcyclicQueue(pending + [operation])
    requires !ExceedsPendingCapacity(pending, operation)
    ensures QueueInvariant(pending + [operation], checkpoint)
  {
    BytesSnoc(pending, operation);
    forall author
      ensures Within(Filter(ByAuthor(author), pending + [operation]),
                     MAX_PENDING_OPERATIONS_PER_AUTHOR, MAX_PENDING_BYTES_PER_AUTHOR)
    {
      assert Within(Filter(ByAuthor(author), pending),
                    MAX_PENDING_OPERATIONS_PER_AUTHOR, MAX_PENDING_BYTES_PER_AUTHOR);
      if author == operation.authorDeviceKey {
        FilterAgrees(ByAuthor(author), ByAuthor(operation.authorDeviceKey), pending);
      }
      SnocWithin(ByAuthor(author), pending, operation,
                 MAX_PENDING_OPERATIONS_PER_AUTHOR, MAX_PENDING_BYTES_PER_AUTHOR);
    }
  }

  // ---- Compaction ----

  /** What a compaction keeps: a part of the log, in order, holding every operation of the current
      revision and every operation the queue depends on, within the log's bounds. */
  lemma CompactionKeeps(accepted: seq<Operation>, pending: seq<Operation>, checkpoint: Checkpoint)
    requires UniqueIds(accepted) && NonNegative(accepted)
    requires RetainedAccepted(accepted, pending, checkpoint).Success?
    ensures var retained := RetainedAccepted(accepted, pending, checkpoint).value;
            && (exists ids :: retained == Select(accepted, ids))
            && Within(retained, MAX_ACCEPTED_OPERATIONS, MAX_ACCEPTED_BYTES)
            && forall operation :: operation in accepted
                 && (operation.authorizationRevision == checkpoint.revision || operation.id in DependencyIds(pending))
                 ==> operation in retained
  {
    var dependencies := DependencyIds(pending);
    var requiredIds := RequiredIds(accepted, dependencies, checkpoint.revision);
    var required := Select(accepted, requiredIds);
    var chosen := Greedy(accepted, requiredIds, Bytes(required), 0);
    RequiredSelection(accepted, dependencies, checkpoint.revision);
    GreedyFits(accepted, requiredIds, Bytes(required), 0);
    GreedyGrows(accepted, requiredIds, Bytes(required), 0);
    UniqueSelectionSize(accepted, chosen);
    SplitBytes(HasIdIn(chosen), HasIdIn(requiredIds), AddedTo(chosen, requiredIds), accepted);
    FilterMembers(HasIdIn(chosen), accepted);
    FilterMembers(Required(checkpoint.revision, dependencies), accepted);
    IdsMembers(Filter(Required(checkpoint.revision, dependencies), accepted));
  }

  /** With distinct ids the required operations are exactly the ones of the current revision and
      the queue's dependencies, and there are as many of them as required ids. */
  lemma RequiredSelection(accepted: seq<Operation>, dependencies: set<string>, revision: int)
    requires UniqueIds(accepted)
    ensures var ids := RequiredIds(accepted, dependencies, revision);
            && Select(accepted, ids) == Filter(Required(revision, dependencies), accepted)
            && |ids| == |Select(accepted, ids)|
            && ids <= Ids(accepted)
  {
    var needed := Required(revision, dependencies);
    var ids := RequiredIds(accepted, dependencies, revision);
    FilterMembers(needed, accepted);
    IdsMembers(Filter(needed, accepted));
    forall operation | operation in accepted ensures HasIdIn(ids)(operation) == needed(operation) {
      if operation.id in ids {
        var other :| other in Filter(needed, accepted) && other.id == operation.id;
        assert other == operation;
      }
    }
    FilterAgrees(HasIdIn(ids), needed, accepted);
    FilterKeepsUniqueIds(needed, accepted);
    IdCount(Filter(needed, accepted));
  }

  lemma {:induction false} IdCount(operations: seq<Operation>)
    requires UniqueIds(operations)
    ensures |Ids(operations)| == |operations|
  {
    if operations != [] {
      var rest := operations[1..];
      IdCount(rest);
      assert operations == [operations[0]] + rest;
      assert Ids(operations) == {operations[0].id} + Ids(rest);
      assert operations[0].id !in Ids(rest);
    }
  }

  /** Selecting a wider set of ids first changes no selection. */
  lemma SelectWithin(accepted: seq<Operation>, wider: set<string>, ids: set<string>)
    requires forall operation :: operation in accepted && operation.id in ids ==> operation.id in wider
    ensures Select(Select(accepted, wider), ids) == Select(accepted, ids)
  {
    FilterTwice(HasIdIn(ids), HasIdIn(wider), HasIdIn(ids), accepted);
  }

  lemma NeededAgain(accepted: seq<Operation>, dependencies: set<string>, revision: int, wider: set<string>)
    requires RequiredIds(accepted, dependencies, revision) <= wider
    ensures RequiredIds(Select(accepted, wider), dependencies, revision)
         == RequiredIds(accepted, dependencies, revision)
    ensures forall operation :: operation in accepted && operation.id in dependencies ==> operation.id in wider
  {
    var needed := Required(revision, dependencies);
    FilterMembers(needed, accepted);
    forall operation | operation in accepted && needed(operation) ensures operation.id in wider {
      assert operation in Filter(needed, accepted);
    }
    FilterTwice(needed, HasIdIn(wider), needed, accepted);
  }

  /** The log left by one selection needs, and selects, the same. */
  lemma ChosenAgain(accepted: seq<Operation>, dependencies: set<string>, revision: int, requiredIds: set<string>,
                    bytes: int, chosen: set<string>, retained: seq<Operation>)
    requires UniqueIds(accepted) && requiredIds == RequiredIds(accepted, dependencies, revision)
    requires chosen == Greedy(accepted, requiredIds, bytes, 0) && retained == Select(accepted, chosen)
    ensures RequiredIds(retained, dependencies, revision) == requiredIds
    ensures Select(retained, requiredIds) == Select(accepted, requiredIds)
    ensures Select(retained, dependencies) == Select(accepted, dependencies)
    ensures Greedy(retained, requiredIds, bytes, 0) == chosen && Select(retained, chosen) == retained
  {
    GreedyGrows(accepted, requiredIds, bytes, 0);
    GreedyAgain(accepted, requiredIds, bytes, 0);
    NeededAgain(accepted, dependencies, revision, chosen);
    SelectWithin(accepted, chosen, requiredIds);
    SelectWithin(accepted, chosen, dependencies);
    SelectWithin(accepted, chosen, chosen);
  }

  /** The choice a compaction makes, taken apart: what it requires, and what it chooses. */
  ghost predicate Retains(log: seq<Operation>, dependencies: set<string>, requiredIds: set<string>,
                          required: seq<Operation>, chosen: set<string>) {
    && !ExceedsDependencyRetention(log, dependencies)
    && required == Select(log, requiredIds) && Within(required, MAX_ACCEPTED_OPERATIONS, MAX_ACCEPTED_BYTES)
    && chosen == Greedy(log, requiredIds, Bytes(required), 0)
  }

  lemma RetainedApart(log: seq<Operation>, pending: seq<Operation>, checkpoint: Checkpoint)
    returns (required: seq<Operation>, chosen: set<string>)
    requires RetainedAccepted(log, pending, checkpoint).Success?
    ensures var dependencies := DependencyIds(pending);
            Retains(log, dependencies, RequiredIds(log, dependencies, checkpoint.revision), required, chosen)
    ensures RetainedAccepted(log, pending, checkpoint).value == Select(log, chosen)
  {
    var requiredIds := RequiredIds(log, DependencyIds(pending), checkpoint.revision);
    required := Select(log, requiredIds);
    chosen := Greedy(log, requiredIds, Bytes(required), 0);
  }

  lemma RetainedTogether(log: seq<Operation>, pending: seq<Operation>, checkpoint: Checkpoint,
                         required: seq<Operation>, chosen: set<string>)
    requires var dependencies := DependencyIds(pending);
             Retains(log, dependencies, RequiredIds(log, dependencies, checkpoint.revision), required, chosen)
    ensures RetainedAccepted(log, pending, checkpoint) == Success(Select(log, chosen))
  {
  }

  /** Compacting an already compacted log changes nothing. */
  lemma CompactionIsIdempotent(accepted: seq<Operation>, pending: seq<Operation>, checkpoint: Checkpoint)
    requires UniqueIds(accepted)
    requires RetainedAccepted(accepted, pending, checkpoint).Success?
    ensures var retained := RetainedAccepted(accepted, pending, checkpoint).value;
            RetainedAccepted(retained, pending, checkpoint) == Success(retained)
  {
    var required, chosen := RetainedApart(accepted, pending, checkpoint);
    RetainsAgain(accepted, DependencyIds(pending), checkpoint.revision, required, chosen);
    RetainedTogether(Select(accepted, chosen), pending, checkpoint, required, chosen);
  }

  lemma RetainsAgain(accepted: seq<Operation>, dependencies: set<string>, revision: int, required: seq<Operation>,
                     chosen: set<string>)
    requires UniqueIds(accepted)
    requires Retains(accepted, dependencies, RequiredIds(accepted, dependencies, revision), required, chosen)
    ensures var retained := Select(accepted, chosen);
            && Retains(retained, dependencies, RequiredIds(retained, dependencies, revision), required, chosen)
            && Select(retained, chosen) == retained
  {
    ChosenAgain(accepted, dependencies, revision, RequiredIds(accepted, dependencies, revision), Bytes(required),
                chosen, Select(accepted, chosen));
  }

  /** Keeping a part of the log keeps its bounds. */
  lemma SelectedLog(accepted: seq<Operation>, checkpoint: Checkpoint, keep: Operation -> bool)
    requires UniqueIds(accepted) && NonNegative(accepted)
    requires forall operation :: operation in accepted ==> operation.authorizationRevision <= checkpoint.revision
    requires CurrentRevisionInvariant(accepted, checkpoint)
    requires Within(Filter(keep, accepted), MAX_ACCEPTED_OPERATIONS, MAX_ACCEPTED_BYTES)
    ensures LogInvariant(Filter(keep, accepted), checkpoint)
  {
    var kept := Filter(keep, accepted);
    FilterMembers(keep, accepted);
    FilterKeepsUniqueIds(keep, accepted);
    forall author
      ensures Within(Filter(ByAuthor(author), Filter(AtRevision(checkpoint.revision), kept)),
                     MAX_ACCEPTED_OPERATIONS_PER_AUTHOR, MAX_ACCEPTED_BYTES_PER_AUTHOR)
    {
      CurrentPart(accepted, checkpoint.revision, keep, ByAuthor(author));
      assert Within(Filter(ByAuthor(author), Filter(AtRevision(checkpoint.revision), accepted)),
                    MAX_ACCEPTED_OPERATIONS_PER_AUTHOR, MAX_ACCEPTED_BYTES_PER_AUTHOR);
    }
    CurrentPart(accepted, checkpoint.revision, keep, ByOthersThan(checkpoint.authorityKeys));
  }

  lemma CurrentPart(accepted: seq<Operation>, revision: int, keep: Operation -> bool, group: Operation -> bool)
    requires NonNegative(accepted)
    ensures var part := Filter(group, Filter(AtRevision(revision), Filter(keep, accepted)));
            var whole := Filter(group, Filter(AtRevision(revision), accepted));
            |part| <= |whole| && Bytes(part) <= Bytes(whole)
  {
    var now := AtRevision(revision);
    var keptNow := (operation: Operation) => keep(operation) && now(operation);
    var keptGroup := (operation: Operation) => keptNow(operation) && group(operation);
    var groupNow := (operation: Operation) => now(operation) && group(operation);
    FilterTwice(now, keep, keptNow, accepted);
    FilterTwice(group, keptNow, keptGroup, accepted);
    FilterTwice(group, now, groupNow, accepted);
    FilterWithin(keptGroup, groupNow, accepted);
  }

  /** Adding an operation the capacity check lets through keeps the current-revision bounds. */
  lemma AcceptanceKeepsCurrent(accepted: seq<Operation>, checkpoint: Checkpoint, operation: Operation)
    requires CurrentRevisionInvariant(accepted, checkpoint)
    requires operation.authorizationRevision == checkpoint.revision ==>
               !ExceedsCurrentRevision(accepted, operation, checkpoint)
    ensures CurrentRevisionInvariant(accepted + [operation], checkpoint)
  {
    var now := AtRevision(checkpoint.revision);
    var current := Filter(now, accepted);
    FilterLast(now, accepted, operation);
    if !now(operation) {
      assert current + [] == current;
    } else {
      forall author
        ensures Within(Filter(ByAuthor(author), current + [operation]),
                       MAX_ACCEPTED_OPERATIONS_PER_AUTHOR, MAX_ACCEPTED_BYTES_PER_AUTHOR)
      {
        assert Within(Filter(ByAuthor(author), current),
                      MAX_ACCEPTED_OPERATIONS_PER_AUTHOR, MAX_ACCEPTED_BYTES_PER_AUTHOR);
        FilterAgrees(ByAuthor(operation.authorDeviceKey), ByAuthor(operation.authorDeviceKey), current);
        if author == operation.authorDeviceKey {
          FilterAgrees(ByAuthor(author), ByAuthor(operation.authorDeviceKey), current);
        }
        SnocWithin(ByAuthor(author), current, operation,
                   MAX_ACCEPTED_OPERATIONS_PER_AUTHOR, MAX_ACCEPTED_BYTES_PER_AUTHOR);
      }
      SnocWithin(ByOthersThan(checkpoint.authorityKeys), current, operation,
                 MAX_NON_AUTHORITY_ACCEPTED_OPERATIONS, MAX_NON_AUTHORITY_ACCEPTED_BYTES);
    }
  }

  /** A new revision starts with nothing accepted at it. */
  lemma NewRevisionIsEmpty(accepted: seq<Operation>, revision: int, next: Checkpoint)
    requires forall operation :: operation in accepted ==> operation.authorizationRevision <= revision
    requires next.revision == revision + 1
    ensures CurrentRevisionInvariant(accepted, next)
  {
    FilterNone(AtRevision(next.revision), accepted);
  }
}
