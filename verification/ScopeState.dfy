/** The scope as a value and every operation on it as a function to the next value.
    An operation that throws still leaves a state behind, so each one returns both. */
module ScopeState {
  import opened Sequences
  import opened Wrappers
  import opened PrivateControlOperation
  import opened PrivateAuthorizationCheckpoint
  import opened PrivateOperationDependencyGraph
  import opened OperationLog
  import opened StableSort
  import CodeUnitOrder

  const MAX_DEPENDENCY_RETAINED_BYTES := 3 * 1024 * 1024
  const MAX_DEPENDENCY_RETAINED_OPERATIONS := 96
  const MAX_ACCEPTED_BYTES_PER_AUTHOR := 512 * 1024
  const MAX_ACCEPTED_OPERATIONS_PER_AUTHOR := 8
  const MAX_NON_AUTHORITY_ACCEPTED_BYTES := 3 * 1024 * 1024
  const MAX_NON_AUTHORITY_ACCEPTED_OPERATIONS := 96
  const MAX_PENDING_BYTES := 1024 * 1024
  const MAX_PENDING_BYTES_PER_AUTHOR := 768 * 1024
  const MAX_PENDING_OPERATIONS := 128
  const MAX_PENDING_OPERATIONS_PER_AUTHOR := 96

  const PROPOSE := "membership.propose"
  const COMMIT := "membership.commit"
  const REVOKE := "device.revoke"

  datatype Status = Active | Frozen

  datatype State = State(
    checkpoint: Checkpoint,
    genesisHash: string,
    ownerDeviceKey: string,
    status: Status,
    accepted: seq<Operation>,
    pending: seq<Operation>)

  /** What a call answers; the last four are the exceptions it throws. */
  datatype Outcome =
    | Accepted | Duplicate | Pending | Ready | Done
    | Invalid | AcceptedCapacityExceeded | PendingCapacityExceeded | Conflict

  datatype Step = Step(state: State, outcome: Outcome)

  // ---- Selections ----

  function AtRevision(revision: int): Operation -> bool {
    (operation: Operation) => operation.authorizationRevision == revision
  }

  function ByAuthor(deviceKey: string): Operation -> bool {
    (operation: Operation) => operation.authorDeviceKey == deviceKey
  }

  function ByOthersThan(deviceKeys: seq<string>): Operation -> bool {
    (operation: Operation) => operation.authorDeviceKey !in deviceKeys
  }

  predicate PermanentlyInvalid(operation: Operation, checkpoint: Checkpoint) {
    || operation.authorizationRevision < checkpoint.revision
    || !checkpoint.Admits(operation.authorDeviceKey)
    || operation.authorDeviceKey in checkpoint.revokedDeviceKeys
    || (&& operation.kind == PROPOSE
        && operation.authorizationRevision == checkpoint.revision
        && operation.parentHeadHash != Some(checkpoint.headHash))
  }

  function StillValid(checkpoint: Checkpoint): Operation -> bool {
    (operation: Operation) => !PermanentlyInvalid(operation, checkpoint)
  }

  /** The queue an acceptance leaves behind: without the operation, and without what the
      checkpoint makes invalid. */
  function LeftBy(id: string, checkpoint: Checkpoint): Operation -> bool {
    (operation: Operation) => operation.id != id && !PermanentlyInvalid(operation, checkpoint)
  }

  predicate WellFormed(operation: Operation, checkpoint: Checkpoint) {
    && operation.id != ""
    && operation.digest != ""
    && operation.authorDeviceKey != ""
    && operation.scopeId == checkpoint.scopeId
    && -MAX_SAFE_INTEGER <= operation.authorizationRevision <= MAX_SAFE_INTEGER
    && 0 <= operation.byteSize <= MAX_SAFE_INTEGER
  }

  predicate ValidOperation(operation: Operation, checkpoint: Checkpoint, expectedKind: string) {
    && WellFormed(operation, checkpoint)
    && operation.kind == expectedKind
    && operation.authorizationRevision >= checkpoint.revision
    && checkpoint.Admits(operation.authorDeviceKey)
    && operation.authorDeviceKey !in checkpoint.revokedDeviceKeys
    && (|| expectedKind != PROPOSE
        || operation.authorizationRevision > checkpoint.revision
        || operation.parentHeadHash == Some(checkpoint.headHash))
  }

  predicate IsPending(state: State, operation: Operation) {
    || operation.authorizationRevision > state.checkpoint.revision
    || exists id | id in operation.previousOperationIds :: id !in Ids(state.accepted)
  }

  // ---- Retention ----

  predicate ExceedsDependencyRetention(accepted: seq<Operation>, dependencies: set<string>) {
    var retained := Select(accepted, dependencies);
    || |retained| > MAX_DEPENDENCY_RETAINED_OPERATIONS
    || Bytes(retained) > MAX_DEPENDENCY_RETAINED_BYTES
  }

  function Required(revision: int, dependencies: set<string>): Operation -> bool {
    (operation: Operation) => operation.authorizationRevision == revision || operation.id in dependencies
  }

  function RequiredIds(accepted: seq<Operation>, dependencies: set<string>, revision: int): set<string> {
    Ids(Filter(Required(revision, dependencies), accepted))
  }

  /** The accepted operations a compaction keeps, or the refusal. */
  function RetainedAccepted(accepted: seq<Operation>, pending: seq<Operation>, checkpoint: Checkpoint)
    : (result: Result<seq<Operation>, Outcome>)
  {
    var dependencies := DependencyIds(pending);
    if ExceedsDependencyRetention(accepted, dependencies) then Failure(AcceptedCapacityExceeded) else
      var requiredIds := RequiredIds(accepted, dependencies, checkpoint.revision);
      var required := Select(accepted, requiredIds);
      if |required| > MAX_ACCEPTED_OPERATIONS || Bytes(required) > MAX_ACCEPTED_BYTES
      then Failure(AcceptedCapacityExceeded)
      else Success(Select(accepted, Greedy(accepted, requiredIds, Bytes(required), 0)))
  }

  /** `compactAccepted`; a refusal leaves the state as it was. */
  function Compact(state: State, outcome: Outcome): Step {
    match RetainedAccepted(state.accepted, Filter(StillValid(state.checkpoint), state.pending), state.checkpoint)
    case Success(retained) => Step(state.(accepted := retained), outcome)
    case Failure(refusal) => Step(state, refusal)
  }

  predicate ExceedsCurrentRevision(accepted: seq<Operation>, operation: Operation, checkpoint: Checkpoint) {
    var current := Filter(AtRevision(checkpoint.revision), accepted);
    var byAuthor := Filter(ByAuthor(operation.authorDeviceKey), current);
    var nonAuthority := Filter(ByOthersThan(checkpoint.authorityKeys), current);
    || |byAuthor| >= MAX_ACCEPTED_OPERATIONS_PER_AUTHOR
    || Bytes(byAuthor) + operation.byteSize > MAX_ACCEPTED_BYTES_PER_AUTHOR
    || (&& operation.authorDeviceKey !in checkpoint.authorityKeys
        && (|| |nonAuthority| >= MAX_NON_AUTHORITY_ACCEPTED_OPERATIONS
            || Bytes(nonAuthority) + operation.byteSize > MAX_NON_AUTHORITY_ACCEPTED_BYTES))
  }

  /** `assertAcceptedCapacity`: whether accepting under `checkpoint` would be refused. */
  predicate ExceedsAcceptedCapacity(state: State, operation: Operation, checkpoint: Checkpoint) {
    || (&& operation.authorizationRevision == checkpoint.revision
        && ExceedsCurrentRevision(state.accepted, operation, checkpoint))
    || RetainedAccepted(state.accepted + [operation],
                        Filter(LeftBy(operation.id, checkpoint), state.pending),
                        checkpoint).Failure?
  }

  // ---- Queueing ----

  function Prune(state: State): State {
    state.(pending := Filter(StillValid(state.checkpoint), state.pending))
  }

  predicate ExceedsPendingCapacity(pending: seq<Operation>, operation: Operation) {
    var byAuthor := Filter(ByAuthor(operation.authorDeviceKey), pending);
    || |pending| >= MAX_PENDING_OPERATIONS
    || Bytes(pending) + operation.byteSize > MAX_PENDING_BYTES
    || |byAuthor| >= MAX_PENDING_OPERATIONS_PER_AUTHOR
    || Bytes(byAuthor) + operation.byteSize > MAX_PENDING_BYTES_PER_AUTHOR
  }

  function Freeze(state: State): Step {
    Step(state.(status := Frozen), Conflict)
  }

  ghost function Enqueue(state: State, operation: Operation): Step {
    var duplicate := Find(state.pending, operation.id);
    var longer := state.pending + [operation];
    if duplicate.Some? then
      if duplicate.value.digest != operation.digest then Freeze(state) else Step(state, Pending)
    else if !AcyclicQueue(longer) then Step(state, Invalid)
    else if ExceedsDependencyRetention(state.accepted, DependencyIds(longer)) then Step(state, AcceptedCapacityExceeded)
    else if ExceedsPendingCapacity(state.pending, operation) then Step(state, PendingCapacityExceeded)
    else Step(state.(pending := longer), Pending)
  }

  ghost function Assess(state: State, operation: Operation, expectedKind: string): Step {
    var settled := Find(state.accepted, operation.id);
    var queued := Find(state.pending, operation.id);
    if settled.Some? then
      if settled.value.digest != operation.digest then Freeze(state) else Step(state, Duplicate)
    else if queued.Some? && queued.value.digest != operation.digest then
      if queued.value.authorDeviceKey != operation.authorDeviceKey then Step(state, Invalid) else Freeze(state)
    else if state.status != Active then Step(state, Conflict)
    else
      var pruned := Prune(state);
      if !ValidOperation(operation, state.checkpoint, expectedKind) then Step(pruned, Invalid)
      else if queued.Some? then
        if IsPending(pruned, operation) then Step(pruned, Pending)
        else Step(pruned.(pending := SpliceOne(pruned.pending, FindIndex(pruned.pending, operation.id))), Ready)
      else if IsPending(pruned, operation) then Enqueue(pruned, operation)
      else Step(pruned, Ready)
  }

  // ---- Accepting ----

  function AcceptNow(state: State, operation: Operation): State {
    var index := FindIndex(state.pending, operation.id);
    state.(pending := if index >= 0 then SpliceOne(state.pending, index) else state.pending,
           accepted := state.accepted + [operation])
  }

  ghost function AcceptProposal(state: State, operation: Operation): Step {
    var assessed := Assess(state, operation, PROPOSE);
    if assessed.outcome != Ready then assessed
    else if ExceedsAcceptedCapacity(assessed.state, operation, state.checkpoint)
    then Step(assessed.state, AcceptedCapacityExceeded)
    else Compact(AcceptNow(assessed.state, operation), Accepted)
  }

  /** The commit names an accepted proposal of the same mutation among its predecessors. */
  predicate CommitsProposal(accepted: seq<Operation>, operation: Operation) {
    && operation.HasProposal()
    && var id := operation.proposalOperationId.value;
    && var proposal := Find(accepted, id);
    && proposal.Some?
    && proposal.value.kind == PROPOSE
    && id in operation.previousOperationIds
    && proposal.value.mutation.json == operation.mutation.json
  }

  predicate RevokesAdmitted(current: Checkpoint, operation: Operation, candidate: Checkpoint) {
    && operation.mutation.revokedDeviceKey.Some?
    && var deviceKey := operation.mutation.revokedDeviceKey.value;
    && current.Admits(deviceKey)
    && !candidate.Admits(deviceKey)
    && deviceKey in candidate.revokedDeviceKeys
  }

  predicate IsSuccessor(current: Checkpoint, candidate: Checkpoint) {
    && candidate.scopeId == current.scopeId
    && candidate.revision == current.revision + 1
    && candidate.parentHeadHash == Some(current.headHash)
  }

  /** Accepts the operation and moves to the candidate checkpoint. */
  function Transition(state: State, operation: Operation, candidate: Checkpoint): Step {
    if !IsSuccessor(state.checkpoint, candidate) then Step(state, Invalid)
    else if ExceedsAcceptedCapacity(state, operation, candidate) then Step(state, AcceptedCapacityExceeded)
    else Compact(Prune(AcceptNow(state, operation).(checkpoint := candidate)), Accepted)
  }

  ghost function CommitTransition(state: State, operation: Operation, candidate: Checkpoint): Step {
    var assessed := Assess(state, operation, COMMIT);
    if assessed.outcome != Ready then assessed
    else if !CommitsProposal(assessed.state.accepted, operation) then Step(assessed.state, Invalid)
    else Transition(assessed.state, operation, candidate)
  }

  ghost function RevokeDevice(state: State, operation: Operation, candidate: Checkpoint): Step {
    var assessed := Assess(state, operation, REVOKE);
    if assessed.outcome != Ready then assessed
    else if !RevokesAdmitted(state.checkpoint, operation, candidate) then Step(assessed.state, Invalid)
    else Transition(assessed.state, operation, candidate)
  }

  // ---- The rest of the interface ----

  function PinGenesis(state: State, checkpoint: Checkpoint, genesisHash: string): Step {
    if state.genesisHash != genesisHash || state.checkpoint != checkpoint then Freeze(state) else Step(state, Done)
  }

  function Quarantine(state: State): Step {
    Step(state.(status := Frozen), Done)
  }

  function RetryableNow(state: State): Operation -> bool {
    (operation: Operation) =>
      && operation.authorizationRevision == state.checkpoint.revision
      && state.checkpoint.Admits(operation.authorDeviceKey)
      && operation.authorDeviceKey !in state.checkpoint.revokedDeviceKeys
      && forall id | id in operation.previousOperationIds :: id in Ids(state.accepted)
  }

  function IdAtMost(): (Operation, Operation) -> bool {
    (left: Operation, right: Operation) => CodeUnitOrder.AtMost(left.id, right.id)
  }

  function Retryable(state: State): seq<Operation> {
    Sort(IdAtMost(), Filter(RetryableNow(state), state.pending))
  }

  /** Storing the scope and building it again: the constructor checks the queue and compacts. */
  ghost function Reload(state: State): Step {
    if !AcyclicQueue(state.pending) then Step(state, Invalid) else Compact(state, Done)
  }

  /** A new scope, if the owner is one of the checkpoint's authorities. */
  function Pin(checkpoint: Checkpoint, genesisHash: string, ownerDeviceKey: string): Result<State, Outcome> {
    if checkpoint.Authorizes(ownerDeviceKey)
    then Success(State(checkpoint, genesisHash, ownerDeviceKey, Active, [], []))
    else Failure(Invalid)
  }
}
