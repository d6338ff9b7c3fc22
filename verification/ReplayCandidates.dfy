/** The transitions offered to a replay: which of them apply to an authorization, in which order, and which
    one stands for several of the same effect. */
module ReplayCandidates {
  import opened Wrappers
  import opened Sequences
  import opened StableSort
  import opened CodeUnitOrder
  import opened DeviceAuthorization
  import opened DeviceAuthorizationTransition

  /** A transition with the canonical form of the record it came from. */
  datatype Candidate = Candidate(encoding: string, transition: Transition)

  datatype RevisionGroup = RevisionGroup(revision: nat, candidates: seq<Candidate>)

  // ---- One transition on one authorization ----

  predicate SignedByAuthor(a: Authorization, t: Transition) {
    t.author.Some? && a.IsAuthorized(t.author.value) && t.author.value in t.signers
  }

  function Apply(a: Authorization, t: Transition): Result<Authorization, Error> {
    if !(a.identityId == t.identityId && a.epoch == t.epoch) then Failure(InvalidTransition)
    else if !(a.revision == t.previousRevision && t.previousRevision < MAX_SAFE_REVISION) then
      Failure(InvalidTransition)
    else match t.operation
      case Enroll =>
        if SignedByAuthor(a, t) && t.provesTarget && t.pairingId.Some?
        then a.Enroll(t.target)
        else Failure(InvalidTransition)
      case Revoke =>
        if SignedByAuthor(a, t) then a.Revoke(t.target) else Failure(InvalidTransition)
      case Recover =>
        if t.provesTarget && a.recoveryAuthority in t.signers
        then a.Recover(t.target, t.operationId)
        else Failure(InvalidTransition)
  }

  function AppliesTo(a: Authorization): Candidate -> bool {
    (candidate: Candidate) => Apply(a, candidate.transition).Success?
  }

  // ---- The candidates of one revision ----

  function AtRevision(revision: nat): Candidate -> bool {
    (candidate: Candidate) => candidate.transition.previousRevision == revision
  }

  predicate InReplayOrder(x: Candidate, y: Candidate) {
    || Less(x.transition.operationId, y.transition.operationId)
    || (x.transition.operationId == y.transition.operationId && AtMost(x.encoding, y.encoding))
  }

  /** The group of a revision, in replay order. */
  function Group(candidates: seq<Candidate>, revision: nat): seq<Candidate> {
    Sort(InReplayOrder, Filter(AtRevision(revision), candidates))
  }

  function Admitted(a: Authorization, candidates: seq<Candidate>): seq<Candidate> {
    Filter(AppliesTo(a), Group(candidates, a.revision))
  }

  // ---- Compaction ----

  function SameEffectIndex(compacted: seq<Candidate>, entry: Candidate): (i: nat)
    ensures i <= |compacted|
    ensures i < |compacted| ==> compacted[i].transition.HasSameEffectAs(entry.transition)
    ensures forall k :: 0 <= k < i ==> !compacted[k].transition.HasSameEffectAs(entry.transition)
  {
    if compacted == [] || compacted[0].transition.HasSameEffectAs(entry.transition) then 0
    else 1 + SameEffectIndex(compacted[1..], entry)
  }

  function CompactInto(compacted: seq<Candidate>, entry: Candidate): seq<Candidate> {
    var i := SameEffectIndex(compacted, entry);
    if i == |compacted| then compacted + [entry]
    else if Less(entry.encoding, compacted[i].encoding) then compacted[i := entry]
    else compacted
  }

  function Compact(admitted: seq<Candidate>): seq<Candidate> {
    if admitted == [] then [] else CompactInto(Compact(admitted[..|admitted| - 1]), admitted[|admitted| - 1])
  }

  /** The smallest encoding of each effect stays, and nothing else. */
  ghost predicate Compacts(compacted: seq<Candidate>, admitted: seq<Candidate>) {
    && (forall x :: x in compacted ==> x in admitted)
    && (forall i, j :: 0 <= i < j < |compacted| ==> !compacted[i].transition.HasSameEffectAs(compacted[j].transition))
    && (forall x :: x in admitted ==> StoodFor(x, compacted))
  }

  ghost predicate StoodFor(x: Candidate, compacted: seq<Candidate>) {
    exists y :: y in compacted && Stands(y, x)
  }

  ghost predicate Stands(y: Candidate, x: Candidate) {
    y.transition.HasSameEffectAs(x.transition) && AtMost(y.encoding, x.encoding)
  }

  lemma AdmittedMembers(a: Authorization, candidates: seq<Candidate>)
    ensures forall x :: x in Admitted(a, candidates) <==>
              x in candidates && x.transition.previousRevision == a.revision && Apply(a, x.transition).Success?
  {
    var group := Filter(AtRevision(a.revision), candidates);
    FilterMembers(AtRevision(a.revision), candidates);
    SortIsPermutation(InReplayOrder, group);
    FilterMembers(AppliesTo(a), Group(candidates, a.revision));
  }

  // ---- Compaction ----

  lemma NewcomerIsStoodFor(compacted: seq<Candidate>, entry: Candidate)
    ensures StoodFor(entry, CompactInto(compacted, entry))
  {
    var i := SameEffectIndex(compacted, entry);
    var after := CompactInto(compacted, entry);
    LessIsIrreflexive(entry.encoding);
    assert after[i] in after && Stands(after[i], entry);
  }

  lemma OthersStayStoodFor(compacted: seq<Candidate>, entry: Candidate, x: Candidate)
    requires StoodFor(x, compacted)
    ensures StoodFor(x, CompactInto(compacted, entry))
  {
    var i := SameEffectIndex(compacted, entry);
    var after := CompactInto(compacted, entry);
    var k :| 0 <= k < |compacted| && Stands(compacted[k], x);
    if after[k] == compacted[k] {
      assert after[k] in after;
    } else {
      LessIsTotal(entry.encoding, compacted[k].encoding);
      LessIsAsymmetric(entry.encoding, compacted[k].encoding);
      AtMostIsTransitive(entry.encoding, compacted[k].encoding, x.encoding);
      assert after[k] == entry && entry in after && Stands(entry, x);
    }
  }

  lemma CompactIntoHolds(compacted: seq<Candidate>, admitted: seq<Candidate>, entry: Candidate)
    requires Compacts(compacted, admitted)
    ensures Compacts(CompactInto(compacted, entry), admitted + [entry])
  {
    forall x | x in admitted + [entry] ensures StoodFor(x, CompactInto(compacted, entry)) {
      if x in admitted {
        OthersStayStoodFor(compacted, entry, x);
      } else {
        NewcomerIsStoodFor(compacted, entry);
      }
    }
  }

  /** Of the admissible transitions of one effect, exactly the one with the smallest encoding is kept. */
  lemma {:induction false} CompactionKeepsSmallestOfEachEffect(admitted: seq<Candidate>)
    ensures Compacts(Compact(admitted), admitted)
    ensures admitted != [] ==> Compact(admitted) != []
  {
    if admitted != [] {
      var front, last := admitted[..|admitted| - 1], admitted[|admitted| - 1];
      CompactionKeepsSmallestOfEachEffect(front);
      CompactIntoHolds(Compact(front), front, last);
      assert admitted == front + [last];
    }
  }

  lemma SecondTimeChangesNothing(compacted: seq<Candidate>, entry: Candidate)
    ensures CompactInto(CompactInto(compacted, entry), entry) == CompactInto(compacted, entry)
  {
    var i := SameEffectIndex(compacted, entry);
    var after := CompactInto(compacted, entry);
    LessIsIrreflexive(entry.encoding);
    assert SameEffectIndex(after, entry) == i by {
      assert forall k :: 0 <= k < i ==> after[k] == compacted[k];
      assert after[i].transition.HasSameEffectAs(entry.transition);
      IndexIsFirst(after, entry, i);
    }
  }

  lemma {:induction false} IndexIsFirst(compacted: seq<Candidate>, entry: Candidate, i: nat)
    requires i < |compacted| && compacted[i].transition.HasSameEffectAs(entry.transition)
    requires forall k :: 0 <= k < i ==> !compacted[k].transition.HasSameEffectAs(entry.transition)
    ensures SameEffectIndex(compacted, entry) == i
  {
  }

  // ---- Replay order ----

  /** An encoding is the canonical form of its record, so two records with one encoding are one record. */
  ghost predicate EncodingsIdentify(candidates: seq<Candidate>) {
    forall x, y :: x in candidates && y in candidates && x.encoding == y.encoding ==> x == y
  }

  lemma ReplayOrderSorts(s: seq<Candidate>)
    requires EncodingsIdentify(s)
    ensures TotalPreorder(InReplayOrder) && NoTies(InReplayOrder, s)
  {
    LessIsStrictTotalOrder();
  }

  lemma AdmittedIsSorted(a: Authorization, candidates: seq<Candidate>)
    requires EncodingsIdentify(candidates)
    ensures SortedBy(InReplayOrder, Admitted(a, candidates))
    ensures EncodingsIdentify(Admitted(a, candidates))
  {
    ReplayOrderSorts(candidates);
    AdmittedMembers(a, candidates);
    var group := Filter(AtRevision(a.revision), candidates);
    SortFiltered(InReplayOrder, AppliesTo(a), group);
    SortIsSorted(InReplayOrder, Filter(AppliesTo(a), group));
  }

  ghost predicate SameMembers(x: seq<Candidate>, y: seq<Candidate>) {
    forall c :: c in x <==> c in y
  }

  lemma EmptyTogether(these: seq<Candidate>, those: seq<Candidate>)
    requires SameMembers(these, those)
    ensures these == [] <==> those == []
  {
    assert these != [] ==> these[0] in those;
    assert those != [] ==> those[0] in these;
  }

  ghost predicate Ordered(s: seq<Candidate>) {
    SortedBy(InReplayOrder, s) && EncodingsIdentify(s)
  }

  lemma LastIsLatest(s: seq<Candidate>, x: Candidate)
    requires Ordered(s) && x in s
    ensures InReplayOrder(x, s[|s| - 1])
  {
    ReplayOrderSorts(s);
    LastIsGreatest(InReplayOrder, s, x);
  }

  lemma NoTwoTie(s: seq<Candidate>, x: Candidate, y: Candidate)
    requires Ordered(s) && x in s && y in s && InReplayOrder(x, y) && InReplayOrder(y, x)
    ensures x == y
  {
    ReplayOrderSorts(s);
  }

  lemma RepeatedLastChangesNothing(front: seq<Candidate>, last: Candidate)
    requires Ordered(front + [last]) && last in front
    ensures Ordered(front) && SameMembers(front, front + [last])
    ensures Compact(front + [last]) == Compact(front)
  {
    var s := front + [last];
    assert front == s[..|front|];
    var nearest := front[|front| - 1];
    assert nearest == s[|front| - 1] && last == s[|front|];
    LastIsLatest(front, last);
    NoTwoTie(s, nearest, last);
    SecondTimeChangesNothing(Compact(front[..|front| - 1]), last);
  }

  lemma FrontsAlike(front: seq<Candidate>, otherFront: seq<Candidate>, last: Candidate)
    requires SameMembers(front + [last], otherFront + [last]) && last !in front && last !in otherFront
    requires Ordered(front + [last]) && Ordered(otherFront + [last])
    ensures SameMembers(front, otherFront) && Ordered(front) && Ordered(otherFront)
  {
    assert front == (front + [last])[..|front|];
    assert otherFront == (otherFront + [last])[..|otherFront|];
    forall c ensures c in front <==> c in otherFront {
      assert c in front + [last] <==> c in otherFront + [last];
    }
  }

  lemma LastsAgree(these: seq<Candidate>, those: seq<Candidate>)
    requires these != [] && those != [] && SameMembers(these, those) && Ordered(these) && Ordered(those)
    ensures these[|these| - 1] == those[|those| - 1]
  {
    var last, other := these[|these| - 1], those[|those| - 1];
    assert last in these && other in those;
    LastIsLatest(these, other);
    LastIsLatest(those, last);
    NoTwoTie(these, last, other);
  }

  /** In replay order, what compaction leaves depends only on which transitions there are. */
  lemma {:induction false} SortedCompactAlike(these: seq<Candidate>, those: seq<Candidate>)
    requires SameMembers(these, those) && Ordered(these) && Ordered(those)
    ensures Compact(these) == Compact(those)
    decreases |these| + |those|
  {
    EmptyTogether(these, those);
    if these != [] {
      LastsAgree(these, those);
      var front, otherFront, last := these[..|these| - 1], those[..|those| - 1], these[|these| - 1];
      assert these == front + [last] && those == otherFront + [last];
      if last in front {
        RepeatedLastChangesNothing(front, last);
        SortedCompactAlike(front, those);
      } else if last in otherFront {
        RepeatedLastChangesNothing(otherFront, last);
        SortedCompactAlike(these, otherFront);
      } else {
        FrontsAlike(front, otherFront, last);
        SortedCompactAlike(front, otherFront);
      }
    }
  }

  lemma AdmittedAlike(a: Authorization, these: seq<Candidate>, those: seq<Candidate>)
    requires SameMembers(these, those) && EncodingsIdentify(these)
    ensures Admitted(a, these) == [] <==> Admitted(a, those) == []
    ensures Compact(Admitted(a, these)) == Compact(Admitted(a, those))
  {
    AdmittedMembers(a, these);
    AdmittedMembers(a, those);
    AdmittedIsSorted(a, these);
    AdmittedIsSorted(a, those);
    SortedCompactAlike(Admitted(a, these), Admitted(a, those));
    EmptyTogether(Admitted(a, these), Admitted(a, those));
  }

  // ---- The loops ----

  /** The candidates of the first group of a revision. */
  function FoundIn(groups: seq<RevisionGroup>, revision: nat): seq<Candidate> {
    if groups == [] then []
    else if groups[0].revision == revision then groups[0].candidates
    else FoundIn(groups[1..], revision)
  }

  /** The groups hold the candidates by revision, in the order they came. */
  ghost predicate Grouped(groups: seq<RevisionGroup>, candidates: seq<Candidate>) {
    forall revision :: FoundIn(groups, revision) == Filter(AtRevision(revision), candidates)
  }

  function AddToGroup(groups: seq<RevisionGroup>, candidate: Candidate): seq<RevisionGroup> {
    var revision := candidate.transition.previousRevision;
    if groups == [] then [RevisionGroup(revision, [candidate])]
    else if groups[0].revision == revision
    then [groups[0].(candidates := groups[0].candidates + [candidate])] + groups[1..]
    else [groups[0]] + AddToGroup(groups[1..], candidate)
  }

  lemma {:induction false} AddedToItsGroup(groups: seq<RevisionGroup>, candidate: Candidate, revision: nat)
    ensures FoundIn(AddToGroup(groups, candidate), revision)
         == FoundIn(groups, revision) + if candidate.transition.previousRevision == revision then [candidate] else []
  {
    if groups != [] && groups[0].revision != candidate.transition.previousRevision {
      AddedToItsGroup(groups[1..], candidate, revision);
    }
  }

  /** Sorting every group in place. */
  lemma {:induction false} SortedInPlace(groups: seq<RevisionGroup>, sorted: seq<RevisionGroup>, revision: nat)
    requires |sorted| == |groups|
    requires forall k :: 0 <= k < |groups| ==>
               sorted[k] == groups[k].(candidates := Sort(InReplayOrder, groups[k].candidates))
    ensures FoundIn(sorted, revision) == Sort(InReplayOrder, FoundIn(groups, revision))
  {
    if groups != [] && groups[0].revision != revision {
      SortedInPlace(groups[1..], sorted[1..], revision);
    }
  }

  lemma GroupedWithOneMore(groups: seq<RevisionGroup>, candidates: seq<Candidate>, candidate: Candidate)
    requires Grouped(groups, candidates)
    ensures Grouped(AddToGroup(groups, candidate), candidates + [candidate])
  {
    forall revision
      ensures FoundIn(AddToGroup(groups, candidate), revision) == Filter(AtRevision(revision), candidates + [candidate])
    {
      AddedToItsGroup(groups, candidate, revision);
      FilterAppend(AtRevision(revision), candidates, [candidate]);
      assert FoundIn(groups, revision) == Filter(AtRevision(revision), candidates);
    }
  }

  /** The groups, each in replay order. */
  ghost predicate SortedGroups(groups: seq<RevisionGroup>, candidates: seq<Candidate>) {
    forall revision :: FoundIn(groups, revision) == Group(candidates, revision)
  }

  method GroupByRevision(candidates: seq<Candidate>) returns (groups: seq<RevisionGroup>)
    ensures SortedGroups(groups, candidates)
  {
    groups := [];
    for i := 0 to |candidates|
      invariant Grouped(groups, candidates[..i])
    {
      GroupedWithOneMore(groups, candidates[..i], candidates[i]);
      assert candidates[..i + 1] == candidates[..i] + [candidates[i]];
      groups := AddToGroup(groups, candidates[i]);
    }
    assert candidates[..|candidates|] == candidates;
    ghost var unsorted := groups;
    for i := 0 to |groups|
      invariant |groups| == |unsorted|
      invariant forall k :: 0 <= k < i ==>
                  groups[k] == unsorted[k].(candidates := Sort(InReplayOrder, unsorted[k].candidates))
      invariant forall k :: i <= k < |groups| ==> groups[k] == unsorted[k]
    {
      groups := groups[i := groups[i].(candidates := Sort(InReplayOrder, groups[i].candidates))];
    }
    forall revision ensures FoundIn(groups, revision) == Group(candidates, revision) {
      SortedInPlace(unsorted, groups, revision);
      assert FoundIn(unsorted, revision) == Filter(AtRevision(revision), candidates);
    }
  }

  method CompactEquivalent(admitted: seq<Candidate>) returns (compacted: seq<Candidate>)
    ensures compacted == Compact(admitted)
  {
    compacted := [];
    for i := 0 to |admitted|
      invariant compacted == Compact(admitted[..i])
    {
      var index := SameEffectIndex(compacted, admitted[i]);
      assert admitted[..i + 1][..i] == admitted[..i];
      if index == |compacted| {
        compacted := compacted + [admitted[i]];
      } else if Less(admitted[i].encoding, compacted[index].encoding) {
        compacted := compacted[index := admitted[i]];
      }
    }
    assert admitted[..|admitted|] == admitted;
  }
}
