# Replicated-state guards of a pigeon-swarm node

A node keeps state that other nodes and clients try to change: private authorization scopes, device
authorizations, mailboxes, signed public records, limits and locks. This project models the code that
guards that state and proves what it promises over whole runs, for every input.

- **Private authorization scope.** `ScopeState` gives every call as a function from one state to the next;
  `ScopeInvariant` and `ScopeSteps` prove what each call keeps; `ScopeRuns` states the results over all runs
  from `pin` on; `ScopeDecisions` and `ScopeAcceptances` say of fields and literal bounds which operations each
  call lets in and what it leaves. `PrivateAuthorizationScope` is the aggregate itself, updated in place and
  proved to step as specified. `ReadyOperations` and `LostOperation` say when a queued operation is lost.
  `PrivateOperationDependencyGraph` is the depth-first cycle check, `OperationLog` the greedy choice of history
  and `PrivateAuthorizationCheckpoint` the checkpoint's own rules.
- **Parsers and traversals.** `HeadFraming` (head messages over a chunked stream), `KBucketTraversal` (the
  guarded k-bucket traversal beside the recursive one), `ClientRateKey` (IPv6 text and IPv4-mapped addresses).
- **Concurrency as steps.** `SerialSections` is the promise chain both serial queues are built on;
  `KeyedSerialQueue`, `PrivateAuthorizationStorageCoordinator` and `LocalProcessedDomainEventIdempotencyStore`
  are step machines in which every stretch between two awaits is one step.
- **Indexes that must agree with something simple.** `SignedRequestReplayGuard` against a ledger that never
  forgets, `MailboxEnvelopeSubscriptions` against a set of triples.
- **Device authorization.** `DeviceAuthorizationTransition`, `DeviceCompromiseCaps`, `DeviceAuthorization`,
  `ReplayCandidates`, `DeviceAuthorizationPolicy` and `DeviceAuthorizationReplay` (the replay of signed
  transitions), `DeviceReplayDecisions` (which of them it lets in and which devices it leaves),
  `DeviceAuthorizationTimeline` and `DeviceAuthorizationTransitionDisclosure` (paging the signed log).
- **Mailboxes and public records.** `AppendBucket` and `Mailbox`; `PublicMutationRecord`.

`Wrappers`, `Sequences`, `StableSort`, `CodeUnitOrder` and `Text` hold the result types and the array, sort,
string and number operations the models share. `dafny verify dfyconfig.toml` checks everything.

## Conventions

- An element of a `string` stands for one UTF-16 code unit; `compareCodeUnits` and `<` on strings are
  `CodeUnitOrder`.
- Revisions, cursors, byte sizes and timestamps are whole numbers. Device revisions stop at the largest safe
  integer, as in the code. Token arithmetic is over `real`.
- The clock does not go back. Ids, digests, hashes and credentials are opaque texts. A digest stands for all
  it is taken of, and a canonical encoding for its whole record; where a result needs this it is a hypothesis.
- Signatures are not modelled: a device transition carries the set of keys its signature verifies under, and
  every public record has been verified before it is folded.
- A thrown error is a value: `Failure`, `None` or an outcome.

## What was found

- `assess` takes a queued operation out of the queue as soon as it finds it ready, before the guards of the
  acceptance. When one of those refuses, accepted log and checkpoint are untouched, but the operation has left
  the queue of the object and `retryable` no longer offers it. `LostOperation.RunThatLosesAnOperation` is such a
  run, of four proposals from `pin`. A queued proposal is lost so exactly when the state the caller holds has no
  room for it (`ReadyOperations.ReadyProposalLeavesTheQueue`); a queued commit or revocation also when it does
  not match, or its candidate does not succeed the checkpoint (`ReadyCommitLeavesTheQueue`,
  `ReadyRevocationLeavesTheQueue`). A plain `assess` that answers ready takes it out likewise
  (`ScopeSteps.AssessKeeps`).
- A scope rebuilt from storage compacts its log again. It never forgets what
  `ScopeRuns.CallForgetsNothingNeeded` names, and it never fails.
- Sorting is what keeps `exclusivelyAll` free of deadlock: `NeverInACycle` holds of tasks that take all their
  scopes in one call, and `NestingCanDeadlock` gives the interleaving in which two hand-nested calls wait for
  each other.
- A capacity refusal never blocks the authority by the log alone:
  `ScopeSteps.TransitionIsRefusedOnlyForDependencies` gives the exact condition.

## Model

| member | source | states |
|---|---|---|
| `ScopeRuns.NeverAcceptedTwice` | src/contexts/private-authorization/domain/PrivateAuthorizationScope.ts:476-589 | over any run of calls on a pinned scope, reloading included, no operation (same id, same authorization revision) is accepted twice, although compaction forgets operations |
| `ScopeRuns.RetryAgreesWithAssess` | src/contexts/private-authorization/domain/PrivateAuthorizationScope.ts:561-621 | in every reachable active scope `retryable` lists exactly the queued operations `assess` calls ready, each once, in strictly ascending code-unit order of id |
| `ScopeRuns.NoHalfDoneAcceptance` | src/contexts/private-authorization/domain/PrivateAuthorizationScope.ts:196-269 | in every reachable scope a call that does not answer `accepted` leaves accepted log and checkpoint untouched, and rebuilding the stored scope never fails |
| `ScopeRuns.RunsStayWithinBounds` | src/contexts/private-authorization/domain/PrivateAuthorizationScope.ts:117-132 | every reachable scope keeps its log, each author, the non-authority authors, the queue and the retained dependencies within their count and byte bounds; the queue is acyclic and shares no id with the log |
| `ScopeRuns.CheckpointsFormOneChain` | src/contexts/private-authorization/domain/PrivateAuthorizationScope.ts:300-311 | the checkpoints of a run form one hash-linked chain from the pinned one, the revision rising by exactly one each time |
| `ScopeRuns.CallKeeps` | src/contexts/private-authorization/domain/PrivateAuthorizationScope.ts:476-621 | every call keeps the invariant; only an acceptance adds to the log, only an accepted transition moves the checkpoint, and to a successor; a frozen scope accepts nothing and stays frozen |
| `ScopeRuns.CallForgetsNothingNeeded` | src/contexts/private-authorization/domain/PrivateAuthorizationScope.ts:134-210 | no call forgets an accepted operation of the current revision, nor an accepted dependency of an operation that stays queued |
| `ScopeRuns.PinnedIsSound` | src/contexts/private-authorization/domain/PrivateAuthorizationScope.ts:33-57 | a freshly pinned scope satisfies the invariant |
| `ScopeRuns.FreezesExactlyOnConflict` | src/contexts/private-authorization/domain/PrivateAuthorizationScope.ts:415-475 | an active scope freezes exactly when it is quarantined, pinned to another genesis or checkpoint, or brought an operation whose id it holds under another digest, accepted or queued by the same author |
| `ScopeDecisions.AssessAnswersNew` | src/contexts/private-authorization/domain/PrivateAuthorizationScope.ts:561-589 | an operation held nowhere is answered ready exactly when id, digest, author, scope, kind, revision, byte size, the author's standing and a proposal's parent are right and no predecessor is missing; it is queued when only its revision is later or a predecessor is missing, the queue stays without a cycle and the literal bounds hold; each refusal is told apart and changes nothing |
| `ScopeDecisions.AssessAnswersQueued` | src/contexts/private-authorization/domain/PrivateAuthorizationScope.ts:561-589 | the same of an operation queued under this digest: invalid, still pending, or ready and alone taken out of the queue |
| `ScopeDecisions.AssessAnswersHeld` | src/contexts/private-authorization/domain/PrivateAuthorizationScope.ts:415-435 | an id held under another digest freezes the scope, or is refused when another device repeats a queued one; the same digest in the log is a duplicate |
| `ScopeDecisions.AssessAnswersFrozen` | src/contexts/private-authorization/domain/PrivateAuthorizationScope.ts:561-589 | anything else offered to a frozen scope is a conflict and changes nothing |
| `ScopeDecisions.ReadyExactlyWhenItCanAct` | src/contexts/private-authorization/domain/PrivateAuthorizationScope.ts:561-589 | over all operations and scopes, assessing answers ready exactly under the conditions on the fields of both, and then takes only this operation out of the queue |
| `ScopeDecisions.OrderableIsAcyclic` | src/contexts/private-authorization/domain/PrivateOperationDependencyGraph.ts:9-50 | the queue's cycle check passes exactly when its operations can be numbered, each after those it names as predecessor or proposal |
| `ScopeAcceptances.ProposalIsAcceptedExactly` | src/contexts/private-authorization/domain/PrivateAuthorizationScope.ts:476-487 | a proposal is accepted exactly when it can act, its author has a share of the revision left and what must be kept fits, all by literal bounds; it then stands in the log and only it leaves the queue |
| `ScopeAcceptances.CommitIsAcceptedExactly` | src/contexts/private-authorization/domain/PrivateAuthorizationScope.ts:489-525 | a commit is accepted exactly when it can act, the log holds a proposal of its mutation that it names and has as predecessor, the candidate is of the scope, one revision on and on the head, and what the surviving queue depends on fits; log, queue and checkpoint after it are given |
| `ScopeAcceptances.RevocationIsAcceptedExactly` | src/contexts/private-authorization/domain/PrivateAuthorizationScope.ts:527-559 | the same of a revocation, whose device must be admitted now and, under the candidate, revoked and not admitted |
| `ScopeAcceptances.CompactionKeepsWhatBelongs` | src/contexts/private-authorization/domain/PrivateAuthorizationScope.ts:134-210 | a log is compacted exactly when what must be kept fits, to exactly that and, newest first, every older operation that fits within 32 of them, 128 in all and 4 MiB |
| `ScopeAcceptances.ReloadKeepsWhatBelongs` | src/contexts/private-authorization/domain/PrivateAuthorizationScope.ts:76-87 | building a stored scope again leaves in the log exactly what belongs there by the same rule, and changes nothing else |
| `ScopeSteps.AssessKeeps` | src/contexts/private-authorization/domain/PrivateAuthorizationScope.ts:561-589 | assessing never touches log or checkpoint, and what it finds ready is out of the queue |
| `ScopeSteps.AcceptProposalCompletes` | src/contexts/private-authorization/domain/PrivateAuthorizationScope.ts:476-487 | a proposal the capacity check lets through is accepted, compacted within bounds and never fails afterwards; otherwise log and checkpoint stay |
| `ScopeSteps.CommitTransitionCompletes` | src/contexts/private-authorization/domain/PrivateAuthorizationScope.ts:489-525 | a commit moves to the candidate checkpoint only with its acceptance, and otherwise leaves log and checkpoint |
| `ScopeSteps.RevokeDeviceCompletes` | src/contexts/private-authorization/domain/PrivateAuthorizationScope.ts:527-559 | the same of a device revocation |
| `ScopeSteps.AcceptanceCompletes` | src/contexts/private-authorization/domain/PrivateAuthorizationScope.ts:212-269 | the check made before an acceptance is what the compaction after it needs |
| `ScopeSteps.TransitionIsRefusedOnlyForDependencies` | src/contexts/private-authorization/domain/PrivateAuthorizationScope.ts:212-269 | a transition is refused for capacity exactly when the operations the surviving queue depends on, this one included, exceed the retention bounds |
| `ReadyOperations.ReadyProposalLeavesTheQueue` | src/contexts/private-authorization/domain/PrivateAuthorizationScope.ts:476-589 | a queued proposal found ready leaves the queue whatever the call answers, and is in the log afterwards exactly when its author has a share of the revision left and what must be kept fits |
| `ReadyOperations.ReadyCommitLeavesTheQueue` | src/contexts/private-authorization/domain/PrivateAuthorizationScope.ts:489-589 | the same of a queued commit: in the log afterwards exactly when the log holds the proposal of its mutation that it names and has as predecessor, the candidate comes next, and what the surviving queue depends on fits |
| `ReadyOperations.ReadyRevocationLeavesTheQueue` | src/contexts/private-authorization/domain/PrivateAuthorizationScope.ts:527-589 | the same of a queued revocation: in the log afterwards exactly when its device is admitted now and revoked under the candidate, the candidate comes next, and what the surviving queue depends on fits |
| `ReadyOperations.AcceptedIsRetained` | src/contexts/private-authorization/domain/PrivateAuthorizationScope.ts:134-269 | the compaction that ends an accepted transition never forgets the transition's own operation when it was small enough to be queued, although its revision is past by then |
| `LostOperation.RunThatLosesAnOperation` | src/contexts/private-authorization/domain/PrivateAuthorizationScope.ts:476-589 | a concrete run of four calls from `pin` ends with `accepted capacity exceeded` for a proposal that `retryable` named just before, and the proposal is in neither list |
| `ScopeSteps.SoundScopeCompacts` | src/contexts/private-authorization/domain/PrivateAuthorizationScope.ts:76-87 | a sound scope can always be compacted, so building it from storage succeeds |
| `ScopeSteps.RetryableIsReady` | src/contexts/private-authorization/domain/PrivateAuthorizationScope.ts:601-621 | an operation is retryable exactly when assessing it would answer ready |
| `ScopeSteps.RetryableMembers` | src/contexts/private-authorization/domain/PrivateAuthorizationScope.ts:601-617 | in any state the answer holds exactly the queued operations of the current revision, by an admitted device not revoked, whose predecessors are all in the log |
| `ScopeSteps.RetryableIsOrdered` | src/contexts/private-authorization/domain/PrivateAuthorizationScope.ts:618-620 | the retryable operations come once each in strictly ascending order of id |
| `ScopeInvariant.CompactionKeeps` | src/contexts/private-authorization/domain/PrivateAuthorizationScope.ts:134-194 | compaction keeps order, every operation of the current revision and every accepted dependency of the queue, within 128 operations and 4 MiB |
| `ScopeInvariant.CompactionIsIdempotent` | src/contexts/private-authorization/domain/PrivateAuthorizationScope.ts:134-210 | compacting a compacted log changes nothing |
| `ScopeInvariant.AcceptanceKeepsCurrent` | src/contexts/private-authorization/domain/PrivateAuthorizationScope.ts:224-262 | what the capacity check lets through keeps the bounds on the current revision |
| `ScopeInvariant.EnqueueKeepsQueue` | src/contexts/private-authorization/domain/PrivateAuthorizationScope.ts:368-398 | what the queue's checks let through keeps it acyclic and within its bounds |
| `OperationLog.GreedyFits` | src/contexts/private-authorization/domain/PrivateAuthorizationScope.ts:166-189 | the newest-first choice of history stays within the bounds on count and bytes |
| `OperationLog.GreedyTakesWhatFits` | src/contexts/private-authorization/domain/PrivateAuthorizationScope.ts:166-189 | an operation is skipped exactly when it would not fit beside the newer ones taken: 32 of them, 128 in all, 4 MiB |
| `OperationLog.GreedyAgain` | src/contexts/private-authorization/domain/PrivateAuthorizationScope.ts:166-189 | repeating the choice over what was chosen chooses the same |
| `PrivateAuthorizationScope.Retain` | src/contexts/private-authorization/domain/PrivateAuthorizationScope.ts:134-194 | the loops of `retainedAccepted` compute the specified compaction, or its refusal |
| `PrivateAuthorizationScope.RetainedIds` | src/contexts/private-authorization/domain/PrivateAuthorizationScope.ts:166-189 | the backward loop over the history makes the specified choice |
| `PrivateAuthorizationScope.Scope.HasAcceptedCapacity` | src/contexts/private-authorization/domain/PrivateAuthorizationScope.ts:212-269 | the in-place checks decide as the specified capacity check |
| `PrivateAuthorizationScope.Scope.PrunePending` | src/contexts/private-authorization/domain/PrivateAuthorizationScope.ts:342-352 | splicing from the back removes exactly the permanently invalid operations and keeps the order of the rest |
| `PrivateAuthorizationScope.Scope.Enqueue` | src/contexts/private-authorization/domain/PrivateAuthorizationScope.ts:354-399 | the new state and the answer are those of the specified enqueueing, a frozen state on a clashing digest included |
| `PrivateAuthorizationScope.Scope.Assess` | src/contexts/private-authorization/domain/PrivateAuthorizationScope.ts:561-589 | the new state and the answer are those of the specified assessment |
| `PrivateAuthorizationScope.Scope.AcceptProposal` | src/contexts/private-authorization/domain/PrivateAuthorizationScope.ts:476-487 | the new state and the answer are those of the specified acceptance |
| `PrivateAuthorizationScope.Scope.CommitTransition` | src/contexts/private-authorization/domain/PrivateAuthorizationScope.ts:489-525 | the new state and the answer are those of the specified commit |
| `PrivateAuthorizationScope.Scope.RevokeDevice` | src/contexts/private-authorization/domain/PrivateAuthorizationScope.ts:527-559 | the new state and the answer are those of the specified revocation |
| `PrivateAuthorizationScope.Scope.CompactAccepted` | src/contexts/private-authorization/domain/PrivateAuthorizationScope.ts:196-210 | the log in place becomes the specified compaction, or stays when that is refused |
| `PrivateAuthorizationScope.Scope.FromPrimitives` | src/contexts/private-authorization/domain/PrivateAuthorizationScope.ts:76-87 | building a stored scope succeeds exactly when its queue is acyclic and its log can be compacted, and then holds the compacted log |
| `PrivateAuthorizationScope.Scope.Retryable` | src/contexts/private-authorization/domain/PrivateAuthorizationScope.ts:601-621 | the answer holds exactly the queued operations that wait for nothing any more, in strictly ascending order of id while queued ids are distinct, and nothing changes |
| `PrivateOperationDependencyGraph.DependencyGraph.AssertAcyclic` | src/contexts/private-authorization/domain/PrivateOperationDependencyGraph.ts:45-50 | the depth-first check terminates and passes exactly when the dependency relation among the operations has a topological order |
| `PrivateOperationDependencyGraph.DependencyGraph.Visit` | src/contexts/private-authorization/domain/PrivateOperationDependencyGraph.ts:26-43 | one visit answers false only with a real cycle in hand, and otherwise leaves the visited ids closed under dependencies and in topological order |
| `PrivateOperationDependencyGraph.DependencyGraph.Of` | src/contexts/private-authorization/domain/PrivateOperationDependencyGraph.ts:9-24 | the graph is built exactly when the ids are distinct, and holds predecessors and proposal of each operation |
| `PrivateOperationDependencyGraph.CyclesHaveNoOrder` | src/contexts/private-authorization/domain/PrivateOperationDependencyGraph.ts:26-50 | a cycle and a topological order exclude each other |
| `PrivateOperationDependencyGraph.AcyclicSubqueue` | src/contexts/private-authorization/domain/PrivateOperationDependencyGraph.ts:9-24 | dropping operations never creates a cycle |
| `PrivateAuthorizationCheckpoint.RevocationHistoryIsCarriable` | src/contexts/private-authorization/domain/PrivateAuthorizationCheckpoint.ts:206-223 | the history a checkpoint hands on has the shape a successor's revoked list must have: distinct, non-empty, disjoint from the admitted keys, within the cap |
| `PrivateAuthorizationCheckpoint.RevocationForgetsOldestFirst` | src/contexts/private-authorization/domain/PrivateAuthorizationCheckpoint.ts:206-223 | a recognized key missing from successor and history was pushed out by as many newer ones as the cap |
| `PrivateAuthorizationCheckpoint.NewlyRevokedAreRemembered` | src/contexts/private-authorization/domain/PrivateAuthorizationCheckpoint.ts:206-223 | keys that stop being admitted are all remembered while they are no more than the cap |
| `PrivateAuthorizationCheckpoint.ConsistentExactlyWhenItFits` | src/contexts/private-authorization/domain/PrivateAuthorizationCheckpoint.ts:39-148 | a checkpoint is let through exactly when its texts are there, it names a parent exactly from revision 1 on, its key lists have no repeats, authorities are admitted, at most 128 keys are revoked and none of them admitted, and every admitted key has exactly one identity |
| `PrivateAuthorizationCheckpoint.HistoryMakesASuccessor` | src/contexts/private-authorization/domain/PrivateAuthorizationCheckpoint.ts:206-223 | a successor with the history as its revoked list is let through whenever the rest of it fits |
| `HeadFraming.FrameHead` | scripts/patch-orbitdb-limited-connections.js:159-164 | the buffer written is the four-byte big-endian length followed by the message |
| `HeadFraming.Receive` | scripts/patch-orbitdb-limited-connections.js:178-203 | however the stream is cut into chunks, the decoder delivers and ends as one reading of the whole stream does |
| `HeadFraming.RoundTripExactlyWithinLimit` | scripts/patch-orbitdb-limited-connections.js:157-203 | a stream of framed messages is read back as exactly those messages with nothing left over if and only if each is within 16 MiB |
| `HeadFraming.CleanStreamsAreFramings` | scripts/patch-orbitdb-limited-connections.js:178-203 | a stream that ends cleanly is the framing of what it delivered |
| `HeadFraming.TruncatedStream` | scripts/patch-orbitdb-limited-connections.js:178-203 | a framed stream cut anywhere delivers the messages whose frames are complete, and ends in an error unless cut between frames |
| `KBucketTraversal.GuardedTraversal` | scripts/patch-libp2p-kad-dht-routing-table.js:23-39 | the stack loop terminates on every finite bucket graph, cyclic or with missing children, and yields the peers of the specified leaves |
| `KBucketTraversal.Recursive` | scripts/patch-libp2p-kad-dht-routing-table.js:11-21 | on a bucket tree the recursive traversal yields the peers of the leaves left to right |
| `KBucketTraversal.SameOnTrees` | scripts/patch-libp2p-kad-dht-routing-table.js:11-39 | on every bucket tree the guarded traversal yields what the recursive one yields |
| `KBucketTraversal.EachReachableLeafOnce` | scripts/patch-libp2p-kad-dht-routing-table.js:23-39 | on any finite bucket graph exactly the leaves reachable from the root are yielded, each once |
| `ClientRateKey.GroupsReadBack` | src/shared/infrastructure/express/clientRateKey.ts:7-24 | writing any eight groups in any form of section 2.2 of RFC 4291 (one elision, hexadecimal digits of either case, leading zeros, dotted tail) and parsing gives the groups back |
| `ClientRateKey.LiteralsShareAKeyExactlyForOneClient` | src/shared/infrastructure/express/clientRateKey.ts:31-56 | two IPv6 literals, with zones or without, share a key exactly when both are mapped from one IPv4 address or neither is mapped and both share their first four groups |
| `ClientRateKey.MappedAddressCountsAsItsIpv4` | src/shared/infrastructure/express/clientRateKey.ts:38-49 | an IPv4 address keeps its text as its key, and of all IPv6 addresses, in every form and zone, exactly ::ffff:a.b.c.d has the key of a.b.c.d |
| `ClientRateKey.HexTailUndots` | src/shared/infrastructure/express/clientRateKey.ts:8-14 | the leftmost dotted tail, and nothing else, becomes two hexadecimal groups |
| `ClientRateKey.KeysAgreeExactlyForOneClient` | src/shared/infrastructure/express/clientRateKey.ts:38-55 | over all values of eight groups, keys agree exactly for one client; a mapped key is never a prefix key |
| `ClientRateKey.ZoneStrips` | src/shared/infrastructure/express/clientRateKey.ts:32 | a zone with no line break is dropped and nothing else |
| `ClientRateKey.ZoneIsCutAtFirst` | src/shared/infrastructure/express/clientRateKey.ts:32 | any text keeps exactly what stands before its first % with no line break after it |
| `DeviceAuthorizationTransitionDisclosure.Page` | src/contexts/identity-devices/domain/DeviceAuthorizationTransitionDisclosure.ts:33-85 | the page with its next cursor is the specified one |
| `DeviceAuthorizationTransitionDisclosure.ServeRevisions` | src/contexts/identity-devices/domain/DeviceAuthorizationTransitionDisclosure.ts:59-68 | the loop stops at the specified revision |
| `DeviceAuthorizationTransitionDisclosure.PagesHoldEverythingOnce` | src/contexts/identity-devices/domain/DeviceAuthorizationTransitionDisclosure.ts:33-90 | following the next cursor terminates, and the pages together hold every entry above the first cursor exactly once, in revision order per list |
| `DeviceAuthorizationTransitionDisclosure.RevisionsAreWhole` | src/contexts/identity-devices/domain/DeviceAuthorizationTransitionDisclosure.ts:26-85 | a page with one entry of a revision holds every entry of it |
| `DeviceAuthorizationTransitionDisclosure.PageRespectsLimit` | src/contexts/identity-devices/domain/DeviceAuthorizationTransitionDisclosure.ts:62-71 | a page exceeds the limit only when it holds a single revision |
| `DeviceAuthorizationTransitionDisclosure.NextRevisionWouldExceed` | src/contexts/identity-devices/domain/DeviceAuthorizationTransitionDisclosure.ts:62-68 | a page stops no earlier than it must: through any later revision there are more entries than the limit |
| `DeviceAuthorizationTransitionDisclosure.ReaderAlwaysAdvances` | src/contexts/identity-devices/domain/DeviceAuthorizationTransitionDisclosure.ts:26-32 | a page is empty only when nothing lies above the cursor |
| `DeviceAuthorizationTransitionDisclosure.CursorIsLastServed` | src/contexts/identity-devices/domain/DeviceAuthorizationTransitionDisclosure.ts:72-84 | there is a next cursor exactly when a revision is left over, and it is the last one served |
| `SerialSections.OpensInArrivalOrder` | src/shared/infrastructure/concurrency/KeyedSerialQueue.ts:27-34 | a waiting section can open exactly when every earlier section on its key has closed |
| `SerialSections.TailMeansClosed` | src/shared/infrastructure/concurrency/KeyedSerialQueue.ts:27-34 | the tail a section awaits resolves exactly when every earlier section on its key has closed |
| `SerialSections.SettleKeeps` | src/shared/infrastructure/concurrency/KeyedSerialQueue.ts:38-45 | the `finally` block keeps the tail map exact: it deletes an entry only when the settling section is the last of its key |
| `KeyedSerialQueue.OneOpenPerKeyInArrivalOrder` | src/shared/infrastructure/concurrency/KeyedSerialQueue.ts:20-46 | under every interleaving at most one section per key is open and sections of a key start in arrival order |
| `KeyedSerialQueue.TailsHoldNothingSettled` | src/shared/infrastructure/concurrency/KeyedSerialQueue.ts:33-44 | the tail map has an entry for a key exactly while some section on it has not settled |
| `KeyedSerialQueue.ReentryIsRefused` | src/shared/infrastructure/concurrency/KeyedSerialQueue.ts:21-25 | under every interleaving no section waits for one it was made in, at any depth, and a call is refused exactly when letting it in would make its section wait so |
| `KeyedSerialQueue.WaitingHasReason` | src/shared/infrastructure/concurrency/KeyedSerialQueue.ts:27-34 | whatever waits, the first unsettled section of its key is open or can start |
| `KeyedSerialQueue.EverythingSettles` | src/shared/infrastructure/concurrency/KeyedSerialQueue.ts:20-46 | from every reachable state, without further calls a run can be continued until every section has started and settled and no tail is left, one step for each start and each end |
| `KeyedSerialQueue.SerialQueue.Run` | src/shared/infrastructure/concurrency/KeyedSerialQueue.ts:20-34 | the synchronous stretch up to the first await takes the specified step or refuses nesting |
| `KeyedSerialQueue.SerialQueue.Start` | src/shared/infrastructure/concurrency/KeyedSerialQueue.ts:36-37 | the stretch after the awaited tail takes the specified step |
| `KeyedSerialQueue.SerialQueue.Finish` | src/shared/infrastructure/concurrency/KeyedSerialQueue.ts:38-45 | the `finally` block takes the specified step |
| `PrivateAuthorizationStorageCoordinator.NeverStuck` | src/contexts/private-authorization/infrastructure/PrivateAuthorizationStorageCoordinator.ts:14-55 | tasks that take their scopes only through `exclusivelyAll` never get stuck: in every reachable state every unfinished task can step, or a chain of tasks, each waiting for the next, leads from it to one that can |
| `PrivateAuthorizationStorageCoordinator.NeverInACycle` | src/contexts/private-authorization/infrastructure/PrivateAuthorizationStorageCoordinator.ts:14-55 | in every reachable state of such tasks no chain of tasks, each waiting for the next, comes back to where it began |
| `PrivateAuthorizationStorageCoordinator.HeldUpExactlyByOthers` | src/contexts/private-authorization/infrastructure/PrivateAuthorizationStorageCoordinator.ts:37-45 | however scopes are taken, an unfinished task can step exactly when it waits behind no unsettled section of its scope's queue |
| `PrivateAuthorizationStorageCoordinator.EveryTaskFinishes` | src/contexts/private-authorization/infrastructure/PrivateAuthorizationStorageCoordinator.ts:14-55 | from every reachable state of such tasks, without further calls a run can be continued until every task has been let into all its scopes, acted and released them, taking exactly those steps |
| `PrivateAuthorizationStorageCoordinator.WaitedForIsFurtherOn` | src/contexts/private-authorization/infrastructure/PrivateAuthorizationStorageCoordinator.ts:18-20 | with sorted scopes a task waited for, if it waits itself, waits for a higher scope or earlier for the same one |
| `PrivateAuthorizationStorageCoordinator.ScopesAreExclusive` | src/contexts/private-authorization/infrastructure/PrivateAuthorizationStorageCoordinator.ts:29-55 | no two tasks hold one scope at once, however they take their scopes, calls for scopes they already hold included |
| `PrivateAuthorizationStorageCoordinator.WaitsForHigherRank` | src/contexts/private-authorization/infrastructure/PrivateAuthorizationStorageCoordinator.ts:18-20 | with sorted scopes the task at the head of the queue a waiting task stands in is one it waits for, or the task itself, and can step or waits for a higher scope |
| `PrivateAuthorizationStorageCoordinator.NestingCanDeadlock` | src/contexts/private-authorization/infrastructure/PrivateAuthorizationStorageCoordinator.ts:29-55 | without the sorting two tasks can wait for each other for good: an interleaving of two nested calls that does |
| `PrivateAuthorizationStorageCoordinator.SortedScopesAscend` | src/contexts/private-authorization/infrastructure/PrivateAuthorizationStorageCoordinator.ts:18-20 | the scopes are taken without repeats in strictly ascending order |
| `PrivateAuthorizationStorageCoordinator.Coordinator.Request` | src/contexts/private-authorization/infrastructure/PrivateAuthorizationStorageCoordinator.ts:37-44 | joining a scope's queue takes the specified step |
| `PrivateAuthorizationStorageCoordinator.Coordinator.Release` | src/contexts/private-authorization/infrastructure/PrivateAuthorizationStorageCoordinator.ts:48-54 | the `finally` block takes the specified step |
| `LocalProcessedDomainEventIdempotencyStore.NeverProcessedTwice` | src/shared/infrastructure/messageBus/LocalProcessedDomainEventIdempotencyStore.ts:32-79 | under every interleaving of claims, commits, cleanups, failures and releases no key is held twice at once, and two commits of one key are further apart than the life of a record |
| `LocalProcessedDomainEventIdempotencyStore.HeldKeyIsUnrecorded` | src/shared/infrastructure/messageBus/LocalProcessedDomainEventIdempotencyStore.ts:32-57 | a consumer that was let through holds a key with no record and no commit within the life of one |
| `LocalProcessedDomainEventIdempotencyStore.StepKeeps` | src/shared/infrastructure/messageBus/LocalProcessedDomainEventIdempotencyStore.ts:15-79 | every step keeps the keys in flight those of the consumers under way, one each, and the records the newest commits |
| `LocalProcessedDomainEventIdempotencyStore.ClaimIsDecidedByItsLookup` | src/shared/infrastructure/messageBus/LocalProcessedDomainEventIdempotencyStore.ts:32-57 | a claim of a key not in flight, whatever others do before and after its lookup, ends up holding the key exactly when the lookup found no record, and otherwise frees it |
| `LocalProcessedDomainEventIdempotencyStore.KeyInFlightIsRefused` | src/shared/infrastructure/messageBus/LocalProcessedDomainEventIdempotencyStore.ts:32-37 | a claim of a key in flight changes nothing |
| `LocalProcessedDomainEventIdempotencyStore.UnprocessedKeyCanBeProcessed` | src/shared/infrastructure/messageBus/LocalProcessedDomainEventIdempotencyStore.ts:32-75 | from every reachable state a key without record and without consumer can be claimed, is then held, and can be committed so that its record and nothing else is stored and the key is free |
| `LocalProcessedDomainEventIdempotencyStore.EveryKeyCanComeFree` | src/shared/infrastructure/messageBus/LocalProcessedDomainEventIdempotencyStore.ts:32-79 | wherever a consumer stands, its own steps can bring its key free |
| `LocalProcessedDomainEventIdempotencyStore.RecordsLastThirtyDays` | src/shared/infrastructure/messageBus/LocalProcessedDomainEventIdempotencyStore.ts:15-30 | a record goes only to a cleanup that began more than thirty days after it was stored |
| `LocalProcessedDomainEventIdempotencyStore.CleanupsAreADayApart` | src/shared/infrastructure/messageBus/LocalProcessedDomainEventIdempotencyStore.ts:15-30 | over any run cleanups begin at least a day apart, and a commit from a day after the last one on begins another |
| `SignedRequestReplayGuard.ReplayGuard.Record` | src/apps/apis/shared/SignedRequestReplayGuard.ts:121-163 | the guard admits exactly what a ledger that never forgets would admit at that time, looking only at live entries, and the counters stay exact |
| `SignedRequestReplayGuard.ReplayGuard.Prune` | src/apps/apis/shared/SignedRequestReplayGuard.ts:60-69 | pruning removes exactly the expired entries although it stops at the first live one |
| `SignedRequestReplayGuard.ReplayGuard.Release` | src/apps/apis/shared/SignedRequestReplayGuard.ts:71-80 | giving back an entry's slots leaves every counter equal to the count over the remaining entries |
| `SignedRequestReplayGuard.ReplayGuard.HasRoomForRequest` | src/apps/apis/shared/SignedRequestReplayGuard.ts:94-119 | the counters answer as counting the entries would |
| `SignedRequestReplayGuard.ReplayGuard.Charge` | src/apps/apis/shared/SignedRequestReplayGuard.ts:145-160 | charging an entry keeps every counter equal to its count |
| `SignedRequestReplayGuard.ReplaysAreRefused` | src/apps/apis/shared/SignedRequestReplayGuard.ts:121-163 | in the ledger of any run, a signature accepted at some time is refused at every time before the replay window has passed |
| `SignedRequestReplayGuard.CapsHold` | src/apps/apis/shared/SignedRequestReplayGuard.ts:94-119 | in the ledger of any run, at no time does a signer, a served source, a stranger source or all strangers together hold more live entries than their caps, nor all of them more than the guard may hold |
| `SignedRequestReplayGuard.AdmittedExactlyBelowCaps` | src/apps/apis/shared/SignedRequestReplayGuard.ts:94-163 | over any run a readable signature is admitted exactly when no accepted attempt of its key is within its replay window and the accepted attempts within theirs are fewer than 100000 in all, 1000 of its signer, and its source's limit, or for a stranger 10000 of strangers and 250 of its source's strangers |
| `SignedRequestReplayGuard.RecordAll` | src/apps/apis/shared/SignedRequestReplayGuard.ts:121-163 | a guard driven through any attempts accepts exactly what the ledger accepts, so it never accepts a replay, and its own entries and counters stay within every cap |
| `SignedRequestReplayGuard.RecordNext` | src/apps/apis/shared/SignedRequestReplayGuard.ts:121-163 | one more attempt keeps the guard's acceptances those of the ledger |
| `SignedRequestReplayGuard.ReplayGuard.CountersFollow` | src/apps/apis/shared/SignedRequestReplayGuard.ts:94-119 | the caps on the entries are caps on the counters kept beside them |
| `SignedRequestReplayGuard.StopAtFirstLive` | src/apps/apis/shared/SignedRequestReplayGuard.ts:60-69 | in expiry order, no expired entry hides behind a live one |
| `SignedRequestReplayGuard.TakeTracks` | src/apps/apis/shared/SignedRequestReplayGuard.ts:46-48 | taking a slot counts one entry more under its key and under no other |
| `SignedRequestReplayGuard.GiveTracks` | src/apps/apis/shared/SignedRequestReplayGuard.ts:50-58 | giving a slot back counts one fewer, and forgets a key whose count reaches zero |
| `MailboxEnvelopeSubscriptions.Subscriptions.Add` | src/shared/infrastructure/websocket/MailboxEnvelopeSubscriptions.ts:47-74 | both indexes gain exactly this triple while the client holds fewer than 256, and nothing otherwise |
| `MailboxEnvelopeSubscriptions.Subscriptions.Detach` | src/shared/infrastructure/websocket/MailboxEnvelopeSubscriptions.ts:24-45 | the client leaves the reader, and an empty reader or mailbox goes with it |
| `MailboxEnvelopeSubscriptions.Subscriptions.RemoveSubscription` | src/shared/infrastructure/websocket/MailboxEnvelopeSubscriptions.ts:76-94 | both indexes lose exactly this triple and keep no empty collection |
| `MailboxEnvelopeSubscriptions.Subscriptions.Remove` | src/shared/infrastructure/websocket/MailboxEnvelopeSubscriptions.ts:96-106 | exactly the client's triples go |
| `MailboxEnvelopeSubscriptions.Subscriptions.DropReader` | src/shared/infrastructure/websocket/MailboxEnvelopeSubscriptions.ts:109-117 | exactly the triples of this reader of this mailbox go |
| `MailboxEnvelopeSubscriptions.Subscriptions.DropMailbox` | src/shared/infrastructure/websocket/MailboxEnvelopeSubscriptions.ts:119-129 | exactly the mailbox's triples go |
| `MailboxEnvelopeSubscriptions.Subscriptions.SubscribersOf` | src/shared/infrastructure/websocket/MailboxEnvelopeSubscriptions.ts:131-141 | the answer is the projection of the triples to the mailbox's clients, without repeats |
| `MailboxEnvelopeSubscriptions.DetachedTriples` | src/shared/infrastructure/websocket/MailboxEnvelopeSubscriptions.ts:24-45 | detaching removes one triple from the mailbox index and no other |
| `MailboxEnvelopeSubscriptions.UnsubscribedTriples` | src/shared/infrastructure/websocket/MailboxEnvelopeSubscriptions.ts:81-91 | unsubscribing removes one triple from the client index and leaves no empty entry |
| `DeviceAuthorizationTransition.CarriedAscends` | src/contexts/identity-devices/domain/DeviceAuthorizationTransition.ts:206-224 | comparing neighbours makes the whole carried list strictly ascending |
| `DeviceAuthorizationTransition.ValidExactly` | src/contexts/identity-devices/domain/DeviceAuthorizationTransition.ts:170-224 | a transition is well formed exactly when author, pairing and cap fit its operation, no cap lies above its revision, and only a recovery carries a list, of 1 to 32 credentials in strictly ascending order |
| `DeviceAuthorizationTransition.ValidRefusalsReachBack` | src/contexts/identity-devices/domain/DeviceAuthorizationTransition.ts:170-224 | only a revocation or a recovery can cap a credential, and never above the revision it was made at |
| `DeviceCompromiseCaps.RefusedExactlyWhenCapped` | src/contexts/identity-devices/domain/DeviceCompromiseCaps.ts:29-80 | after any sequence of transitions a credential is refused at a revision exactly when the starting caps refuse it or some transition capped it at or below that revision |
| `DeviceCompromiseCaps.RefusalsIgnoreOrder` | src/contexts/identity-devices/domain/DeviceCompromiseCaps.ts:51-65 | neither the order nor the repetition of transitions changes what is refused |
| `DeviceCompromiseCaps.NotLoosenedMeansRefusesAtLeast` | src/contexts/identity-devices/domain/DeviceCompromiseCaps.ts:86-90 | comparing each cap at its own revision decides whether everything refused stays refused at every revision |
| `DeviceCompromiseCaps.NeverLooseningIsPreorder` | src/contexts/identity-devices/domain/DeviceCompromiseCaps.ts:86-90 | not loosening is reflexive and chains |
| `DeviceCompromiseCaps.TransitionsNeverLoosen` | src/contexts/identity-devices/domain/DeviceCompromiseCaps.ts:51-90 | no transition loosens a cap |
| `DeviceCompromiseCaps.CarriedExactlyWhenRefusingTheSame` | src/contexts/identity-devices/domain/DeviceCompromiseCaps.ts:96-109 | a recovery is accepted exactly when its carried list refuses the same credentials from the same revisions |
| `DeviceCompromiseCaps.WithCompromiseRefuses` | src/contexts/identity-devices/domain/DeviceCompromiseCaps.ts:51-65 | a transition adds exactly its own refusals |
| `DeviceAuthorization.ChosenAreTheSmallestNew` | src/contexts/identity-devices/domain/DeviceAuthorization.ts:147-159 | a concurrent enrollment adds the smallest new credentials, as many as there is room for |
| `DeviceAuthorization.ConcurrentEnrollmentIgnoresOrder` | src/contexts/identity-devices/domain/DeviceAuthorization.ts:147-182 | its outcome depends only on the set of credentials held and the set offered |
| `DeviceAuthorization.ConcurrentEnrollmentAdds` | src/contexts/identity-devices/domain/DeviceAuthorization.ts:147-182 | when it fails, and that it otherwise keeps every credential held and at most 128 in all |
| `DeviceAuthorization.SurvivorsHold` | src/contexts/identity-devices/domain/DeviceAuthorization.ts:224-247 | a concurrent revocation leaves exactly the credentials not revoked, or the smallest of all when none would be left |
| `DeviceAuthorization.ConcurrentRevocationIgnoresOrder` | src/contexts/identity-devices/domain/DeviceAuthorization.ts:224-266 | its outcome depends only on the set of credentials held and the set offered |
| `DeviceAuthorization.ConcurrentRevocationKeepsSome` | src/contexts/identity-devices/domain/DeviceAuthorization.ts:224-266 | when it fails, and that it otherwise leaves at least one device |
| `DeviceAuthorization.EnrollmentAddsOne` | src/contexts/identity-devices/domain/DeviceAuthorization.ts:123-145 | an enrollment succeeds exactly when the credential is new, is not the recovery authority and there is room, and adds only it |
| `DeviceAuthorization.RevocationRemovesOne` | src/contexts/identity-devices/domain/DeviceAuthorization.ts:184-222 | a revocation succeeds exactly when the credential is held and is not the last, and removes only it |
| `DeviceAuthorization.RevokeUndoesEnroll` | src/contexts/identity-devices/domain/DeviceAuthorization.ts:123-222 | revoking an enrolled device restores the credentials two revisions later |
| `DeviceAuthorization.RecoveryLeavesOneDevice` | src/contexts/identity-devices/domain/DeviceAuthorization.ts:268-334 | a recovery leaves exactly its device and a required recovery none, each exactly when the revision rises |
| `DeviceAuthorizationReplay.ReplayIgnoresOrderAndRepetition` | src/contexts/identity-devices/domain/services/DeviceAuthorizationPolicy.ts:165-205 | replicas holding the same transitions replay to the same accepted list and the same states, in whatever order and however often each arrived |
| `DeviceAuthorizationReplay.ReplayNeverFails` | src/contexts/identity-devices/domain/services/DeviceAuthorizationPolicy.ts:453-484 | a replay never fails, moves one revision at a time, keeps 1 to 128 devices in every state it reaches and accepts only what was offered |
| `DeviceAuthorizationReplay.LaterTransitionsOnlyExtend` | src/contexts/identity-devices/domain/services/DeviceAuthorizationPolicy.ts:458-484 | transitions made at or above the head continue the replay from the head; no accepted transition and no state changes |
| `DeviceReplayDecisions.ReplayDecides` | src/contexts/identity-devices/domain/services/DeviceAuthorizationPolicy.ts:54-92 | a replay accepts, one for each effect, exactly the offered transitions admissible in the states it passes, those decide each next state, and it ends where none is admissible |
| `DeviceReplayDecisions.AppliesExactlyWhenItMayFollow` | src/contexts/identity-devices/domain/services/DeviceAuthorizationPolicy.ts:24-92 | a transition applies exactly when identity, epoch and revision are those of the authorization and it is made and signed by a held device (enrolling a proven new one through a pairing while there is room, or revoking one that is not the last) or signed by the recovery authority for a proven device |
| `DeviceReplayDecisions.StepLeads` | src/contexts/identity-devices/domain/services/DeviceAuthorizationPolicy.ts:277-306 | a recovery comes before revocations and revocations before enrollments: the next devices are the first recovery's, or those no revocation names (the smallest when all are named), or all with the smallest new ones up to 128 |
| `DeviceReplayDecisions.ReplayPassesSoundStates` | src/contexts/identity-devices/domain/services/DeviceAuthorizationPolicy.ts:453-484 | from any state with a network, at most 128 distinct devices and a recovery authority apart from identity and devices, a replay of whatever is offered goes through, and every state it passes is such a state with a device |
| `DeviceReplayDecisions.RecoveryLeads` | src/contexts/identity-devices/domain/services/DeviceAuthorizationPolicy.ts:190-306 | of concurrent recoveries the first by operation id decides the device, and of those to its effect the smallest encoding decides the epoch |
| `DeviceAuthorizationPolicy.AdmissibleTransitionsCombine` | src/contexts/identity-devices/domain/services/DeviceAuthorizationPolicy.ts:277-306 | transitions that each apply on their own always combine into a next authorization with at least one device |
| `ReplayCandidates.CompactionKeepsSmallestOfEachEffect` | src/contexts/identity-devices/domain/services/DeviceAuthorizationPolicy.ts:257-275 | of the admissible transitions of one effect exactly the one with the smallest encoding is kept |
| `ReplayCandidates.SortedCompactAlike` | src/contexts/identity-devices/domain/services/DeviceAuthorizationPolicy.ts:196-275 | in replay order, what compaction leaves depends only on which transitions there are |
| `DeviceAuthorizationReplay.AcceptedEffectsDiffer` | src/contexts/identity-devices/domain/services/DeviceAuthorizationPolicy.ts:257-275 | no replay accepts one effect twice |
| `DeviceAuthorizationReplay.Replay` | src/contexts/identity-devices/domain/services/DeviceAuthorizationPolicy.ts:458-484 | the loop computes the specified replay |
| `ReplayCandidates.GroupByRevision` | src/contexts/identity-devices/domain/services/DeviceAuthorizationPolicy.ts:165-188 | each group holds exactly the candidates of its revision, in replay order |
| `ReplayCandidates.CompactEquivalent` | src/contexts/identity-devices/domain/services/DeviceAuthorizationPolicy.ts:257-275 | the loop computes the specified compaction |
| `DeviceAuthorizationTimeline.VerdictsAreNeverRewritten` | src/contexts/identity-devices/domain/DeviceAuthorizationTimeline.ts:37-53 | after more transitions made at or above the head, a verdict at a revision already reached changes only where one of them caps the credential there |
| `DeviceAuthorizationTimeline.LaterStatesNeverRewrite` | src/contexts/identity-devices/domain/DeviceAuthorizationTimeline.ts:21-53 | appending states above the head never changes a verdict at a revision already reached |
| `DeviceAuthorizationTimeline.VerdictOfTheStateInForce` | src/contexts/identity-devices/domain/DeviceAuthorizationTimeline.ts:21-53 | in whatever order the states are given, the verdict is that of the latest state not above the revision |
| `DeviceAuthorizationTimeline.CapsOnlyRefuse` | src/contexts/identity-devices/domain/DeviceAuthorizationTimeline.ts:45-47 | caps take away exactly the verdicts they refuse |
| `AppendBucket.EveryWindowOfAHistoryIsBounded` | src/contexts/mailboxes/domain/Mailbox.ts:229-248 | in any history over a non-decreasing clock, any window of w milliseconds sees at most P + P*w/60000 accepted appends |
| `AppendBucket.AnyWindowIsBounded` | src/contexts/mailboxes/domain/Mailbox.ts:229-248 | the same from any bucket that is not overdrawn, however it got there |
| `AppendBucket.TokensStayWithinBounds` | src/contexts/mailboxes/domain/Mailbox.ts:237-247 | stored tokens stay between 0 and P |
| `AppendBucket.SteadyAppendsPass` | src/contexts/mailboxes/domain/Mailbox.ts:229-248 | appends no faster than the rate are never refused, even from an empty bucket |
| `AppendBucket.RestedBucketAdmitsOneMinutesWorth` | src/contexts/mailboxes/domain/Mailbox.ts:229-248 | a full bucket, or one left alone for a minute, admits exactly P appends of one instant, and without a limit all |
| `AppendBucket.BurstSpendsWholeTokens` | src/contexts/mailboxes/domain/Mailbox.ts:229-248 | of the appends of one instant as many pass as there are whole tokens |
| `Mailbox.Mailbox.ConsumeAppend` | src/contexts/mailboxes/domain/Mailbox.ts:229-248 | the bucket steps as specified and a refusal changes nothing |
| `Mailbox.Mailbox.ReserveEnvelope` | src/contexts/mailboxes/domain/Mailbox.ts:207-222 | an envelope gets a cursor above every earlier one, or is refused exactly past a limit; count and bytes stay those of what is stored |
| `Mailbox.Mailbox.ReleaseEnvelopes` | src/contexts/mailboxes/domain/Mailbox.ts:250-256 | releasing the removed envelopes leaves count and bytes those of the kept ones |
| `Mailbox.Mailbox.Settle` | src/contexts/mailboxes/application/settle/MailboxSettler.ts:13-27 | settling removes exactly the envelopes every reader has acknowledged |
| `Mailbox.Mailbox.SettledCursor` | src/contexts/mailboxes/domain/Mailbox.ts:287-297 | the settled cursor is the minimum of all acknowledgements, or none without readers |
| `Mailbox.Mailbox.Acknowledge` | src/contexts/mailboxes/domain/Mailbox.ts:129-139 | only the reader with the token moves, forward only and never past the newest envelope |
| `Mailbox.MailboxReaderCursor.Acknowledge` | src/contexts/mailboxes/domain/MailboxReaderCursor.ts:39-41 | the cursor never falls, afterwards covers what was acknowledged or everything stored, and when it moves it passes neither |
| `Mailbox.Mailbox.AddReader` | src/contexts/mailboxes/domain/Mailbox.ts:145-160 | a new hash is added with nothing acknowledged, within the cap; a known one changes nothing |
| `Mailbox.Mailbox.RemoveReader` | src/contexts/mailboxes/domain/Mailbox.ts:267-281 | exactly the reader with the hash goes, and never the last one |
| `Mailbox.RemovalConserves` | src/contexts/mailboxes/domain/Mailbox.ts:250-256 | the counts and the sizes of what is taken out and what is kept add up to what was there |
| `Mailbox.EvictsTheLeastRecentlyRead` | src/contexts/mailboxes/domain/Mailbox.ts:72-94 | all or nothing: as many mailboxes empty and unread for a week as needed, the least recently read of them, or a refusal exactly when there are too few |
| `PublicMutationRecord.WinningIsStrictTotalOrder` | src/contexts/public-mutations/domain/PublicMutationProof.ts:268-274 | the higher sequence wins, and of one sequence the smaller digest; of two proofs with different digests exactly one wins, none wins over itself, and winning chains |
| `PublicMutationRecord.FoldEndsOnStrongest` | src/contexts/public-mutations/domain/PublicMutationRecord.ts:50-64 | folding any records with `replaces` ends on the proof of greatest sequence of all signed ones and, among those, of smallest digest in code-unit order, and on none only when none is signed |
| `PublicMutationRecord.ReplicasConverge` | src/contexts/public-mutations/domain/PublicMutationRecord.ts:45-64 | replicas that saw the same records hold the same proof, whatever the order, the repetitions and each one's rule for unsigned records |
| `PublicMutationRecord.RefusedExactlyWhenOutranked` | src/contexts/public-mutations/domain/PublicMutationRecord.ts:66-86 | a mutation is refused as stale exactly when it is signed and some stored proof has a greater sequence, or the same one and a smaller digest; the refusal names the first of all stored proofs |
| `PublicMutationRecord.PassesExactlyWhenItStays` | src/contexts/public-mutations/domain/PublicMutationRecord.ts:45-86 | a signed mutation passes exactly when, folded after everything stored, its proof is the one that stays |

## Left out

- Routes, sockets, libp2p, IPFS and OrbitDB stores, LevelDB, schedulers, dependency injection and event recording: input, output and wiring.
- Signatures, hashes, proof of work, bearer capabilities and canonical JSON: foreign libraries.
- The mutation of an operation is compared as its serialized JSON text and a checkpoint field by field, as the code compares their serializations.
- `LocalProcessedDomainEventIdempotencyStore` is a step machine over values; a save that fails is taken to have stored nothing, and consumers outside this process share nothing with it.
- `isIP` is part of the platform: an IPv6 literal is a text some form of section 2.2 of RFC 4291 writes, the decimal bytes without leading zeros. `parseInt` is modelled on hexadecimal digits only.
- Decoding an entry in the heads stream can itself throw; the framing model delivers the bytes and stops there.
- Scope ids of the coordinator are their places in the `localeCompare` order, taken as a strict total order; distinct ids that compare equal are not covered.
- Work that outlives the section it was started in, and several nested calls under way at once inside one action, are not part of the coordinator model; a task takes its scopes one inside the other.
- The order in which `subscribersOf` names clients, and the order of a `Set` in general, are not modelled.
- `Mailbox`: the retention window, `markRead` and `requireHashes` are one comparison or assignment each. Which reader a token verifies against is the reader with its hash.
- `MailboxAppender` discards the mailbox object when a reservation fails after a token was consumed; the model stops at the object.
- `DeviceAuthorizationPolicy`: recovery lineages, lost recoveries and overflow witnesses, which rest on the repository's stored documents.
- `DeviceAuthorizationTransition.replays` and `PublicMutationProof.depthOf`: a comparison and a plain recursion.
- `NodeBlockSource`, `NodeBlockEntries`, `CallSignalDeliverySchedule`, `Call`, `RealtimeTicketStore`, `DeviceAuthorizationRateLimiter` and `PrivateAuthorizationProvisioningQuota`: their claims are one or two branches each and would only add easy members.
- `Community` and the mutation policies: their decisions live in validators outside the files modelled here.
