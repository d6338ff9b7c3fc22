/** What a scope accepts and what an acceptance leaves in the log and in the queue, said of the fields of the
    operation, the scope and the checkpoint it moves to. */
module ScopeAcceptances {
  import opened Sequences
  import opened Wrappers
  import opened PrivateControlOperation
  import opened PrivateAuthorizationCheckpoint
  import opened OperationLog
  import opened ScopeState
  import opened ScopeInvariant
  import opened ScopeSteps
  import opened ScopeDecisions

  // ---- What a compaction keeps ----

  /** Accepted at this revision, or depended on by the queue. */
  ghost function RequiredBy(queue: seq<Operation>, revision: int): Operation -> bool {
    (operation: Operation) => operation.authorizationRevision == revision || AwaitedBy(queue)(operation)
  }

  /** What must be kept stays within every bound: 96 operations and 3 MiB the queue depends on, 128 operations
      and 4 MiB in all. */
  ghost predicate RequiredFits(log: seq<Operation>, queue: seq<Operation>, revision: int) {
    var required := Filter(RequiredBy(queue, revision), log);
    AwaitedFits(log, queue) && |required| <= 128 && Bytes(required) <= 4_194_304
  }

  ghost function KeptFor(after: seq<Operation>, queue: seq<Operation>, revision: int): Operation -> bool {
    (operation: Operation) => operation in after && !RequiredBy(queue, revision)(operation)
  }

  /** The operation is required, or fits beside what is required and the newer ones kept with it. */
  ghost predicate BelongsInLog(log: seq<Operation>, i: nat, after: seq<Operation>, queue: seq<Operation>, revision: int)
    requires i < |log|
  {
    var required := Filter(RequiredBy(queue, revision), log);
    || RequiredBy(queue, revision)(log[i])
    || FitsBeside(Filter(KeptFor(after, queue, revision), log[i + 1..]), log[i], |required|, Bytes(required), 0)
  }

  function IsIn(after: seq<Operation>): Operation -> bool {
    (operation: Operation) => operation in after
  }

  /** What stays of the log, in its order: what is required and, newest first, all else that fits. */
  ghost predicate KeepsWhatBelongs(log: seq<Operation>, after: seq<Operation>, queue: seq<Operation>, revision: int) {
    && after == Filter(IsIn(after), log)
    && forall i :: 0 <= i < |log| ==> (log[i] in after <==> BelongsInLog(log, i, after, queue, revision))
  }

  /** A log is compacted exactly when what must be kept fits, and then to what belongs in it. */
  lemma CompactionKeepsWhatBelongs(log: seq<Operation>, queue: seq<Operation>, checkpoint: Checkpoint)
    requires UniqueIds(log)
    ensures var result := RetainedAccepted(log, queue, checkpoint);
            if RequiredFits(log, queue, checkpoint.revision)
            then result.Success? && KeepsWhatBelongs(log, result.value, queue, checkpoint.revision)
            else result == Failure(AcceptedCapacityExceeded)
  {
    var revision, dependencies := checkpoint.revision, DependencyIds(queue);
    AwaitedIsSelected(log, queue);
    RequiredIsSelected(log, queue, revision);
    if RequiredFits(log, queue, revision) {
      var requiredIds := RequiredIds(log, dependencies, revision);
      var chosen := Greedy(log, requiredIds, Bytes(Filter(RequiredBy(queue, revision), log)), 0);
      SelectionIsItsMembers(log, chosen);
      forall i | 0 <= i < |log|
        ensures log[i] in Select(log, chosen) <==> BelongsInLog(log, i, Select(log, chosen), queue, revision)
      {
        BelongsWhenChosen(log, queue, revision, i);
      }
    }
  }

  lemma SelectionIsItsMembers(log: seq<Operation>, ids: set<string>)
    ensures Select(log, ids) == Filter(IsIn(Select(log, ids)), log)
  {
    FilterMembers(HasIdIn(ids), log);
    FilterAgrees(HasIdIn(ids), IsIn(Select(log, ids)), log);
  }

  /** The required operations are those with a required id. */
  lemma RequiredIsSelected(log: seq<Operation>, queue: seq<Operation>, revision: int)
    requires UniqueIds(log)
    ensures var ids := RequiredIds(log, DependencyIds(queue), revision);
            && Select(log, ids) == Filter(RequiredBy(queue, revision), log)
            && |ids| == |Filter(RequiredBy(queue, revision), log)|
            && forall operation :: operation in log ==>
                 (operation.id in ids <==> RequiredBy(queue, revision)(operation))
  {
    var dependencies := DependencyIds(queue);
    var ids := RequiredIds(log, dependencies, revision);
    RequiredSelection(log, dependencies, revision);
    forall operation | operation in log
      ensures RequiredBy(queue, revision)(operation) == Required(revision, dependencies)(operation)
    {
      AwaitedHasDependencyId(queue, operation);
    }
    FilterAgrees(RequiredBy(queue, revision), Required(revision, dependencies), log);
    FilterMembers(HasIdIn(ids), log);
    FilterMembers(RequiredBy(queue, revision), log);
  }

  lemma BelongsWhenChosen(log: seq<Operation>, queue: seq<Operation>, revision: int, i: nat)
    requires UniqueIds(log) && i < |log|
    ensures var requiredIds := RequiredIds(log, DependencyIds(queue), revision);
            var chosen := Greedy(log, requiredIds, Bytes(Filter(RequiredBy(queue, revision), log)), 0);
            log[i] in Select(log, chosen) <==> BelongsInLog(log, i, Select(log, chosen), queue, revision)
  {
    var requiredIds := RequiredIds(log, DependencyIds(queue), revision);
    var bytes := Bytes(Filter(RequiredBy(queue, revision), log));
    var chosen := Greedy(log, requiredIds, bytes, 0);
    RequiredIsSelected(log, queue, revision);
    FilterMembers(HasIdIn(chosen), log);
    GreedyGrows(log, requiredIds, bytes, 0);
    assert log[i] in log;
    if log[i].id !in requiredIds {
      GreedyTakesWhatFits(log, requiredIds, bytes, 0, i);
      NewerAreKept(log, queue, revision, requiredIds, chosen, i);
    }
  }

  lemma NewerAreKept(log: seq<Operation>, queue: seq<Operation>, revision: int, requiredIds: set<string>,
                     chosen: set<string>, i: nat)
    requires i < |log|
    requires forall operation :: operation in log ==>
               (operation.id in requiredIds <==> RequiredBy(queue, revision)(operation))
    ensures Filter(AddedTo(chosen, requiredIds), log[i + 1..])
         == Filter(KeptFor(Select(log, chosen), queue, revision), log[i + 1..])
  {
    FilterMembers(HasIdIn(chosen), log);
    forall operation | operation in log[i + 1..]
      ensures AddedTo(chosen, requiredIds)(operation) == KeptFor(Select(log, chosen), queue, revision)(operation)
    {
      assert operation in log;
    }
    FilterAgrees(AddedTo(chosen, requiredIds), KeptFor(Select(log, chosen), queue, revision), log[i + 1..]);
  }

  // ---- Proposals ----

  function OfRevision(revision: int): Operation -> bool {
    (operation: Operation) => operation.authorizationRevision == revision
  }

  function WrittenByNone(deviceKeys: seq<string>): Operation -> bool {
    (operation: Operation) => operation.authorDeviceKey !in deviceKeys
  }

  /** Of what was accepted at this revision fewer than 8 operations and 512 KiB are its author's, and, unless
      the author is an authority, fewer than 96 operations and 3 MiB are of devices that are none. */
  ghost predicate AuthorHasShare(state: State, operation: Operation) {
    var current := Filter(OfRevision(state.checkpoint.revision), state.accepted);
    var own := Filter(WrittenBy(operation.authorDeviceKey), current);
    var others := Filter(WrittenByNone(state.checkpoint.authorityKeys), current);
    && |own| < 8 && Bytes(own) + operation.byteSize <= 524_288
    && (|| operation.authorDeviceKey in state.checkpoint.authorityKeys
        || (|others| < 96 && Bytes(others) + operation.byteSize <= 3_145_728))
  }

  lemma ShareIsCurrentCapacity(state: State, operation: Operation)
    ensures AuthorHasShare(state, operation)
       <==> !ExceedsCurrentRevision(state.accepted, operation, state.checkpoint)
  {
    var current := Filter(OfRevision(state.checkpoint.revision), state.accepted);
    FilterAgrees(OfRevision(state.checkpoint.revision), AtRevision(state.checkpoint.revision), state.accepted);
    FilterAgrees(WrittenBy(operation.authorDeviceKey), ByAuthor(operation.authorDeviceKey), current);
    FilterAgrees(WrittenByNone(state.checkpoint.authorityKeys), ByOthersThan(state.checkpoint.authorityKeys), current);
  }

  /** The queue without the operation. */
  function Others(state: State, operation: Operation): seq<Operation> {
    Filter(OtherThan(operation.id), state.pending)
  }

  lemma ProposalCapacity(state: State, operation: Operation)
    requires Invariant(state) && operation.authorizationRevision == state.checkpoint.revision
    requires operation.id !in Ids(state.accepted)
    ensures !ExceedsAcceptedCapacity(state, operation, state.checkpoint)
       <==> && AuthorHasShare(state, operation)
            && RequiredFits(state.accepted + [operation], Others(state, operation), state.checkpoint.revision)
  {
    ShareIsCurrentCapacity(state, operation);
    FilterAgrees(LeftBy(operation.id, state.checkpoint), OtherThan(operation.id), state.pending);
    SnocLog(state.accepted, operation);
    CompactionKeepsWhatBelongs(state.accepted + [operation], Others(state, operation), state.checkpoint);
  }

  /** A proposal that can act is accepted exactly when its author has a share left and what must be kept fits.
      It then stands in the log; the queue loses it and nothing else. */
  lemma ProposalIsAcceptedExactly(state: State, operation: Operation)
    requires Invariant(state)
    ensures var step, log := AcceptProposal(state, operation), state.accepted + [operation];
            var left, revision := Others(state, operation), state.checkpoint.revision;
            if !CanAct(state, operation, "membership.propose")
            then step == Assess(state, operation, "membership.propose") && step.outcome !in {Accepted, Ready}
            else if !AuthorHasShare(state, operation) || !RequiredFits(log, left, revision)
            then step == Step(state.(pending := left), AcceptedCapacityExceeded)
            else && step == Step(state.(accepted := step.state.accepted, pending := left), Accepted)
                 && KeepsWhatBelongs(log, step.state.accepted, left, revision)
                 && operation in step.state.accepted
  {
    AssessKeeps(state, operation, PROPOSE);
    ReadyExactlyWhenItCanAct(state, operation, PROPOSE);
    if CanAct(state, operation, PROPOSE) {
      var left := Others(state, operation);
      var assessed := state.(pending := left);
      UnheldIds(state.accepted, operation.id);
      WithoutItIsSettled(state, operation);
      ProposalCapacity(assessed, operation);
      if !ExceedsAcceptedCapacity(assessed, operation, state.checkpoint) {
        AcceptedProposalStands(assessed, operation);
      }
    }
  }

  lemma WithoutItIsSettled(state: State, operation: Operation)
    ensures Unheld(Others(state, operation), operation.id)
    ensures Others(state.(pending := Others(state, operation)), operation) == Others(state, operation)
  {
    FilterMembers(OtherThan(operation.id), state.pending);
    FilterAll(OtherThan(operation.id), Others(state, operation));
  }

  lemma AcceptedProposalStands(state: State, operation: Operation)
    requires Invariant(state) && operation.id !in Ids(state.accepted) && Unheld(state.pending, operation.id)
    requires operation.authorizationRevision == state.checkpoint.revision && operation.byteSize >= 0
    requires !ExceedsAcceptedCapacity(state, operation, state.checkpoint)
    ensures var step := Compact(AcceptNow(state, operation), Accepted);
            && step == Step(state.(accepted := step.state.accepted), Accepted)
            && KeepsWhatBelongs(state.accepted + [operation], step.state.accepted, state.pending,
                                state.checkpoint.revision)
            && operation in step.state.accepted
  {
    UnheldIds(state.pending, operation.id);
    AcceptanceCompletes(state, operation, state.checkpoint);
    QueueIsSettled(state.pending, state.checkpoint);
    PushedAndPruned(state, operation, state.checkpoint);
    FindFinds(state.pending, operation.id);
    SnocLog(state.accepted, operation);
    var log := state.accepted + [operation];
    CompactionKeepsWhatBelongs(log, state.pending, state.checkpoint);
    assert log[|state.accepted|] == operation;
    assert BelongsInLog(log, |state.accepted|, Compact(AcceptNow(state, operation), Accepted).state.accepted,
                        state.pending, state.checkpoint.revision);
  }

  // ---- Commits and revocations ----

  /** The candidate is of the scope, one revision on, and names the head as its parent. */
  ghost predicate ComesNext(current: Checkpoint, candidate: Checkpoint) {
    && candidate.scopeId == current.scopeId
    && candidate.revision == current.revision + 1
    && candidate.parentHeadHash == Some(current.headHash)
  }

  /** Another operation, neither past under the checkpoint, nor by a device it does not admit or has revoked,
      nor a proposal of its revision on another parent. */
  ghost function StaysQueued(id: string, checkpoint: Checkpoint): Operation -> bool {
    (operation: Operation) =>
      && operation.id != id
      && operation.authorizationRevision >= checkpoint.revision
      && operation.authorDeviceKey in checkpoint.admittedDeviceKeys
      && operation.authorDeviceKey !in checkpoint.revokedDeviceKeys
      && (operation.kind == "membership.propose" && operation.authorizationRevision == checkpoint.revision ==>
            operation.parentHeadHash == Some(checkpoint.headHash))
  }

  ghost function LeftQueued(state: State, operation: Operation, candidate: Checkpoint): seq<Operation> {
    Filter(StaysQueued(operation.id, candidate), state.pending)
  }

  lemma LeftIsForeseen(state: State, operation: Operation, candidate: Checkpoint)
    ensures var left := LeftQueued(state, operation, candidate);
            && left == Filter(LeftBy(operation.id, candidate), Others(state, operation))
            && left == Filter(StillValid(candidate), Others(state, operation))
  {
    var stays, other := StaysQueued(operation.id, candidate), OtherThan(operation.id);
    FilterTwice(LeftBy(operation.id, candidate), other, stays, state.pending);
    FilterTwice(StillValid(candidate), other, stays, state.pending);
  }

  /** The log an accepted transition leaves: it holds what belongs in it at the new revision. The operation
      itself is past by then; it stays when the queue depends on it or there is room for its bytes. */
  ghost predicate MovesOn(state: State, operation: Operation, candidate: Checkpoint, after: State) {
    var left, log := LeftQueued(state, operation, candidate), state.accepted + [operation];
    && after == state.(checkpoint := candidate, accepted := after.accepted, pending := left)
    && KeepsWhatBelongs(log, after.accepted, left, candidate.revision)
    && (operation in after.accepted <==>
          || AwaitedBy(left)(operation)
          || Bytes(Filter(AwaitedBy(left), log)) + operation.byteSize <= 4_194_304)
  }

  /** What a commit or a revocation that can act answers once its own condition is settled. */
  ghost predicate TransitionAnswers(state: State, operation: Operation, candidate: Checkpoint, matches: bool,
                                    step: Step) {
    if !matches || !ComesNext(state.checkpoint, candidate)
    then step == Step(state.(pending := Others(state, operation)), Invalid)
    else if !AwaitedFits(state.accepted + [operation], LeftQueued(state, operation, candidate))
    then step == Step(state.(pending := Others(state, operation)), AcceptedCapacityExceeded)
    else step.outcome == Accepted && MovesOn(state, operation, candidate, step.state)
  }

  /** At a new revision only what the queue depends on is required. */
  lemma OnlyAwaitedIsRequired(log: seq<Operation>, queue: seq<Operation>, revision: int)
    requires forall operation :: operation in log ==> operation.authorizationRevision < revision
    ensures Filter(RequiredBy(queue, revision), log) == Filter(AwaitedBy(queue), log)
    ensures RequiredFits(log, queue, revision) <==> AwaitedFits(log, queue)
  {
    FilterAgrees(RequiredBy(queue, revision), AwaitedBy(queue), log);
  }

  lemma NewestBelongs(log: seq<Operation>, operation: Operation, after: seq<Operation>, queue: seq<Operation>,
                      revision: int)
    requires forall other :: other in log + [operation] ==> other.authorizationRevision < revision
    requires AwaitedFits(log + [operation], queue) && KeepsWhatBelongs(log + [operation], after, queue, revision)
    ensures operation in after <==>
              || AwaitedBy(queue)(operation)
              || Bytes(Filter(AwaitedBy(queue), log + [operation])) + operation.byteSize <= 4_194_304
  {
    var longer := log + [operation];
    assert longer[|log|] == operation && longer[|log| + 1..] == [];
    OnlyAwaitedIsRequired(longer, queue, revision);
    assert operation in longer;
    assert BelongsInLog(longer, |log|, after, queue, revision) <==> operation in after;
  }

  lemma TransitionDecides(state: State, operation: Operation, candidate: Checkpoint)
    requires Invariant(state) && Invariant(state.(pending := Others(state, operation)))
    requires Unheld(state.accepted, operation.id)
    requires operation.byteSize >= 0 && operation.authorizationRevision == state.checkpoint.revision
    ensures TransitionAnswers(state, operation, candidate, true,
                              Transition(state.(pending := Others(state, operation)), operation, candidate))
  {
    var assessed := state.(pending := Others(state, operation));
    UnheldIds(state.accepted, operation.id);
    WithoutItIsSettled(state, operation);
    UnheldIds(assessed.pending, operation.id);
    LeftIsForeseen(state, operation, candidate);
    if IsSuccessor(state.checkpoint, candidate) {
      TransitionIsRefusedOnlyForDependencies(assessed, operation, candidate);
      AwaitedIsSelected(state.accepted + [operation], LeftQueued(state, operation, candidate));
      if !ExceedsAcceptedCapacity(assessed, operation, candidate) {
        TransitionMovesOn(state, assessed, operation, candidate);
      }
    }
  }

  lemma TransitionMovesOn(state: State, assessed: State, operation: Operation, candidate: Checkpoint)
    requires Invariant(assessed) && assessed == state.(pending := Others(state, operation))
    requires operation.id !in Ids(state.accepted) && operation.id !in Ids(assessed.pending)
    requires operation.byteSize >= 0 && operation.authorizationRevision == state.checkpoint.revision
    requires IsSuccessor(state.checkpoint, candidate)
    requires AwaitedFits(state.accepted + [operation], LeftQueued(state, operation, candidate))
    requires !ExceedsAcceptedCapacity(assessed, operation, candidate)
    ensures var step := Transition(assessed, operation, candidate);
            step.outcome == Accepted && MovesOn(state, operation, candidate, step.state)
  {
    var left, log := LeftQueued(state, operation, candidate), state.accepted + [operation];
    AcceptanceCompletes(assessed, operation, candidate);
    LeftIsForeseen(state, operation, candidate);
    SnocLog(state.accepted, operation);
    OnlyAwaitedIsRequired(log, left, candidate.revision);
    CompactionKeepsWhatBelongs(log, left, candidate);
    NewestBelongs(state.accepted, operation, Transition(assessed, operation, candidate).state.accepted, left,
                  candidate.revision);
  }

  /** Some accepted proposal of the same mutation is the one the operation commits, and is a predecessor of it. */
  ghost predicate CommitsAnAccepted(state: State, operation: Operation) {
    exists proposal :: proposal in state.accepted
      && proposal.kind == "membership.propose"
      && proposal.id != "" && operation.proposalOperationId == Some(proposal.id)
      && proposal.id in operation.previousOperationIds
      && proposal.mutation.json == operation.mutation.json
  }

  lemma CommitsAnAcceptedIsFound(state: State, operation: Operation)
    requires Invariant(state)
    ensures CommitsAnAccepted(state, operation) <==> CommitsProposal(state.accepted, operation)
  {
    if operation.HasProposal() {
      FindFinds(state.accepted, operation.proposalOperationId.value);
      forall proposal | proposal in state.accepted && proposal.id == operation.proposalOperationId.value
        ensures Find(state.accepted, proposal.id) == Some(proposal)
      {
        FoundIsTheOne(state.accepted, proposal);
      }
    }
  }

  /** A commit that can act moves the scope to the candidate exactly when it commits an accepted proposal, the
      candidate comes next, and what the queue then depends on fits; it answers why otherwise. A commit that
      cannot act is only assessed. */
  lemma CommitIsAcceptedExactly(state: State, operation: Operation, candidate: Checkpoint)
    requires Invariant(state)
    ensures var step := CommitTransition(state, operation, candidate);
            if CanAct(state, operation, "membership.commit")
            then TransitionAnswers(state, operation, candidate, CommitsAnAccepted(state, operation), step)
            else step == Assess(state, operation, "membership.commit") && step.outcome !in {Accepted, Ready}
  {
    AssessKeeps(state, operation, COMMIT);
    ReadyExactlyWhenItCanAct(state, operation, COMMIT);
    if CanAct(state, operation, COMMIT) {
      CommitsAnAcceptedIsFound(state, operation);
      TransitionDecides(state, operation, candidate);
    }
  }

  /** The device the operation revokes is admitted now, and under the candidate it is not and is revoked. */
  ghost predicate RevokesAnAdmitted(state: State, operation: Operation, candidate: Checkpoint) {
    exists deviceKey :: operation.mutation.revokedDeviceKey == Some(deviceKey)
      && deviceKey in state.checkpoint.admittedDeviceKeys
      && deviceKey !in candidate.admittedDeviceKeys
      && deviceKey in candidate.revokedDeviceKeys
  }

  /** The same of a revocation. */
  lemma RevocationIsAcceptedExactly(state: State, operation: Operation, candidate: Checkpoint)
    requires Invariant(state)
    ensures var step := RevokeDevice(state, operation, candidate);
            if CanAct(state, operation, "device.revoke")
            then TransitionAnswers(state, operation, candidate, RevokesAnAdmitted(state, operation, candidate), step)
            else step == Assess(state, operation, "device.revoke") && step.outcome !in {Accepted, Ready}
  {
    AssessKeeps(state, operation, REVOKE);
    ReadyExactlyWhenItCanAct(state, operation, REVOKE);
    if CanAct(state, operation, REVOKE) {
      TransitionDecides(state, operation, candidate);
    }
  }

  /** Building the scope again from storage leaves in the log what belongs there, and all else as it was. */
  lemma ReloadKeepsWhatBelongs(state: State)
    requires Invariant(state)
    ensures var after := Reload(state).state;
            && after == state.(accepted := after.accepted)
            && KeepsWhatBelongs(state.accepted, after.accepted, state.pending, state.checkpoint.revision)
  {
    SoundScopeCompacts(state);
    CompactionKeepsWhatBelongs(state.accepted, state.pending, state.checkpoint);
  }

  // ---- Only a contradiction freezes the scope ----

  lemma ActingContradictsNothing(state: State, operation: Operation, kind: string)
    requires CanAct(state, operation, kind)
    ensures !Contradicts(state, operation)
  {
  }

  lemma ProposalFreezesOnConflict(state: State, operation: Operation)
    requires Invariant(state) && state.status == Active
    ensures AcceptProposal(state, operation).state.status == Frozen <==> Contradicts(state, operation)
  {
    ProposalIsAcceptedExactly(state, operation);
    if CanAct(state, operation, "membership.propose") {
      ActingContradictsNothing(state, operation, "membership.propose");
    } else {
      AssessFreezesOnConflict(state, operation, "membership.propose");
    }
  }

  lemma CommitFreezesOnConflict(state: State, operation: Operation, candidate: Checkpoint)
    requires Invariant(state) && state.status == Active
    ensures CommitTransition(state, operation, candidate).state.status == Frozen <==> Contradicts(state, operation)
  {
    CommitIsAcceptedExactly(state, operation, candidate);
    if CanAct(state, operation, "membership.commit") {
      ActingContradictsNothing(state, operation, "membership.commit");
    } else {
      AssessFreezesOnConflict(state, operation, "membership.commit");
    }
  }

  lemma RevocationFreezesOnConflict(state: State, operation: Operation, candidate: Checkpoint)
    requires Invariant(state) && state.status == Active
    ensures RevokeDevice(state, operation, candidate).state.status == Frozen <==> Contradicts(state, operation)
  {
    RevocationIsAcceptedExactly(state, operation, candidate);
    if CanAct(state, operation, "device.revoke") {
      ActingContradictsNothing(state, operation, "device.revoke");
    } else {
      AssessFreezesOnConflict(state, operation, "device.revoke");
    }
  }
}
