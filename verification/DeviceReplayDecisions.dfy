/** Which device transitions a replay lets in and which devices it leaves, said of the fields of the transition
    and of the authorization it meets. */
module DeviceReplayDecisions {
  import opened Wrappers
  import opened Sequences
  import opened StableSort
  import opened CodeUnitOrder
  import opened DeviceAuthorization
  import opened DeviceAuthorizationTransition
  import opened ReplayCandidates
  import opened DeviceAuthorizationPolicy
  import opened DeviceAuthorizationReplay

  /** A device of the authorization made the transition and signed it. */
  ghost predicate MadeByDevice(a: Authorization, t: Transition) {
    exists author :: author in a.credentials && t.author == Some(author) && author in t.signers
  }

  /** The transition is of this identity, epoch and revision, and made by someone who may: a device enrolls a
      new one that proves itself through a pairing, while there is room; a device revokes one that is not the
      last; the recovery authority recovers to one that proves itself. */
  ghost predicate MayFollow(a: Authorization, t: Transition) {
    && t.identityId == a.identityId && t.epoch == a.epoch
    && t.previousRevision == a.revision < 9_007_199_254_740_991
    && match t.operation
       case Enroll =>
         && MadeByDevice(a, t) && t.provesTarget && t.pairingId.Some?
         && t.target !in a.credentials && t.target != a.recoveryAuthority && |a.credentials| < 128
       case Revoke => MadeByDevice(a, t) && t.target in a.credentials && |a.credentials| > 1
       case Recover => a.recoveryAuthority in t.signers && t.provesTarget && t.target != a.recoveryAuthority
  }

  /** Those are exactly the transitions that apply. */
  lemma AppliesExactlyWhenItMayFollow(a: Authorization, t: Transition)
    requires a.Valid()
    ensures Apply(a, t).Success? <==> MayFollow(a, t)
  {
    match t.operation
    case Enroll => EnrollmentAddsOne(a, t.target);
    case Revoke => RevocationRemovesOne(a, t.target);
    case Recover => RecoveryLeavesOneDevice(a, a.revision + 1, t.target, t.operationId);
  }

  /** An offered transition that may follow the authorization. */
  ghost predicate Admissible(a: Authorization, candidates: seq<Candidate>, x: Candidate) {
    x in candidates && MayFollow(a, x.transition)
  }

  lemma AdmissibleIsAdmitted(a: Authorization, candidates: seq<Candidate>)
    requires a.Valid()
    ensures forall x :: x in Admitted(a, candidates) <==> Admissible(a, candidates, x)
  {
    AdmittedMembers(a, candidates);
    forall x ensures x in Admitted(a, candidates) <==> Admissible(a, candidates, x) {
      AppliesExactlyWhenItMayFollow(a, x.transition);
    }
  }

  /** Two transitions to the same effect. */
  ghost predicate SameEffect(x: Transition, y: Transition) {
    && x.operation == y.operation && x.previousRevision == y.previousRevision
    && x.target == y.target && x.compromisedSince == y.compromisedSince
  }

  /** One of them for each effect is among the accepted, with the smallest encoding. */
  ghost predicate Represented(accepted: seq<Candidate>, x: Candidate) {
    exists y :: y in accepted && SameEffect(y.transition, x.transition) && AtMost(y.encoding, x.encoding)
  }

  // ---- The devices of the next state ----

  /** The credentials that admissible transitions of one kind name. */
  ghost function Named(a: Authorization, candidates: seq<Candidate>, kind: DeviceAuthorizationTransition.Operation)
    : set<string>
  {
    set x | x in candidates && MayFollow(a, x.transition) && x.transition.operation == kind :: x.transition.target
  }

  /** The devices no revocation names stay; when every one is named, the smallest stays. */
  ghost predicate RevokedTo(a: Authorization, named: set<string>, next: Authorization) {
    && next == a.(revision := a.revision + 1, credentials := next.credentials)
    && if exists c :: c in a.credentials && c !in named
       then forall c :: c in next.credentials <==> c in a.credentials && c !in named
       else && |next.credentials| == 1 && next.credentials[0] in a.credentials
            && forall c :: c in a.credentials ==> AtMost(next.credentials[0], c)
  }

  /** Every device stays, and the smallest of those to be enrolled are added, up to 128 devices. */
  ghost predicate EnrolledTo(a: Authorization, named: set<string>, next: Authorization, added: seq<string>) {
    && next == a.(revision := a.revision + 1, credentials := a.credentials + added)
    && Distinct(added) && |next.credentials| <= 128
    && (forall c :: c in added ==> c in named)
    && (forall c :: c in named && c !in added ==> |next.credentials| == 128 && forall d :: d in added ==> Less(d, c))
  }

  lemma RevocationsLeave(a: Authorization, targets: seq<string>, named: set<string>, next: Authorization)
    requires a.Valid() && a.RevokeConcurrently(targets) == Success(next)
    requires forall c :: c in targets <==> c in named
    ensures RevokedTo(a, named, next)
  {
    ConcurrentRevocationKeepsSome(a, targets);
    SurvivorsHold(a, targets);
    SurvivorsAreUnnamed(a, targets, named, a.Survivors(Among(a.credentials, targets)));
  }

  lemma SurvivorsAreUnnamed(a: Authorization, targets: seq<string>, named: set<string>, survivors: seq<string>)
    requires forall c :: c in targets <==> c in named
    requires forall c :: c in survivors ==> a.IsAuthorized(c)
    requires if exists c :: a.IsAuthorized(c) && c !in targets
             then (forall c :: c in survivors <==> a.IsAuthorized(c) && c !in targets)
             else |survivors| == 1 && forall c :: a.IsAuthorized(c) ==> AtMost(survivors[0], c)
    ensures RevokedTo(a, named, a.(revision := a.revision + 1, credentials := survivors))
  {
    if c :| c in a.credentials && c !in named {
      assert a.IsAuthorized(c) && c !in targets;
    } else {
      assert forall c :: a.IsAuthorized(c) ==> c in targets;
      assert survivors[0] in survivors;
    }
  }

  lemma EnrollmentsAdd(a: Authorization, targets: seq<string>, named: set<string>, next: Authorization)
    returns (added: seq<string>)
    requires a.Valid() && a.EnrollConcurrently(targets) == Success(next)
    requires forall c :: c in targets <==> c in named
    requires forall c :: c in named ==> c !in a.credentials
    ensures EnrolledTo(a, named, next, added)
  {
    ConcurrentEnrollmentAdds(a, targets);
    ChosenAreTheSmallestNew(a, targets);
    added := a.Chosen(targets);
    forall c | c in named && c !in added ensures |next.credentials| == 128 && forall d :: d in added ==> Less(d, c) {
      assert c in targets && !a.IsAuthorized(c);
    }
  }

  function OfKind(kind: DeviceAuthorizationTransition.Operation): Candidate -> bool {
    (x: Candidate) => x.transition.operation == kind
  }

  /** Every target of the one list is a target of the other. */
  lemma TargetsWithin(these: seq<Candidate>, those: seq<Candidate>)
    requires forall x :: x in these ==> exists y :: y in those && y.transition.target == x.transition.target
    ensures forall c :: c in Targets(these) ==> c in Targets(those)
    ensures those == [] ==> these == []
  {
    TargetsHold(these);
    TargetsHold(those);
    if these != [] {
      assert these[0] in these;
    }
  }

  /** The targets of one kind are the same before and after compaction. */
  lemma CompactionKeepsTargets(admitted: seq<Candidate>, kind: DeviceAuthorizationTransition.Operation)
    ensures var after, before := Filter(OfKind(kind), Compact(admitted)), Filter(OfKind(kind), admitted);
            && (forall c :: c in Targets(after) <==> c in Targets(before))
            && (after == [] <==> before == [])
  {
    var before, after := Filter(OfKind(kind), admitted), Filter(OfKind(kind), Compact(admitted));
    FilterMembers(OfKind(kind), admitted);
    FilterMembers(OfKind(kind), Compact(admitted));
    CompactionKeepsSmallestOfEachEffect(admitted);
    forall x | x in before ensures exists y :: y in after && y.transition.target == x.transition.target {
      assert StoodFor(x, Compact(admitted));
      var y :| y in Compact(admitted) && Stands(y, x);
      assert y in after;
    }
    TargetsWithin(before, after);
    TargetsWithin(after, before);
  }

  lemma NamedAreTargets(a: Authorization, candidates: seq<Candidate>, kind: DeviceAuthorizationTransition.Operation)
    requires a.Valid()
    ensures var after := Filter(OfKind(kind), Compact(Admitted(a, candidates)));
            && (forall c :: c in Targets(after) <==> c in Named(a, candidates, kind))
            && (after == [] <==> Named(a, candidates, kind) == {})
  {
    var admitted := Admitted(a, candidates);
    var chosen, named := Filter(OfKind(kind), admitted), Named(a, candidates, kind);
    CompactionKeepsTargets(admitted, kind);
    AdmissibleIsAdmitted(a, candidates);
    FilterMembers(OfKind(kind), admitted);
    TargetsHold(chosen);
    NamedByChosen(a, candidates, kind, chosen);
  }

  lemma NamedByChosen(a: Authorization, candidates: seq<Candidate>, kind: DeviceAuthorizationTransition.Operation,
                      chosen: seq<Candidate>)
    requires forall x :: x in chosen <==> Admissible(a, candidates, x) && x.transition.operation == kind
    ensures forall c :: c in Named(a, candidates, kind) <==> exists x :: x in chosen && x.transition.target == c
    ensures chosen == [] <==> Named(a, candidates, kind) == {}
  {
    var named := Named(a, candidates, kind);
    forall c | c in named ensures exists x :: x in chosen && x.transition.target == c {
      var x :| x in candidates && MayFollow(a, x.transition) && x.transition.operation == kind
            && x.transition.target == c;
      assert Admissible(a, candidates, x);
    }
    forall x | x in chosen ensures x.transition.target in named {
      assert Admissible(a, candidates, x);
    }
    if chosen != [] {
      assert chosen[0] in chosen;
    }
  }

  // ---- Recoveries ----

  /** The first recovery by operation id decides the device, and of those to its effect the smallest encoding
      decides the epoch. */
  ghost predicate RecoveredTo(a: Authorization, candidates: seq<Candidate>, next: Authorization,
                              first: Candidate, chosen: Candidate) {
    && Admissible(a, candidates, first) && first.transition.operation.Recover?
    && (forall x :: Admissible(a, candidates, x) && x.transition.operation.Recover? ==> ComesNoLater(first, x))
    && Admissible(a, candidates, chosen) && SameEffect(chosen.transition, first.transition)
    && (forall x :: Admissible(a, candidates, x) && SameEffect(x.transition, first.transition) ==>
          AtMost(chosen.encoding, x.encoding))
    && next == a.(revision := a.revision + 1, epoch := chosen.transition.operationId,
                  credentials := [first.transition.target])
  }

  ghost predicate ComesNoLater(x: Candidate, y: Candidate) {
    || Less(x.transition.operationId, y.transition.operationId)
    || (x.transition.operationId == y.transition.operationId && AtMost(x.encoding, y.encoding))
  }

  /** Lists that agree in effect, place by place, agree in the effect of their first of a kind. */
  lemma {:induction false} FirstOfKindAlike(these: seq<Candidate>, those: seq<Candidate>,
                                            kind: DeviceAuthorizationTransition.Operation)
    requires |these| == |those|
    requires forall k :: 0 <= k < |these| ==> SameEffect(these[k].transition, those[k].transition)
    ensures var mine, theirs := Filter(OfKind(kind), these), Filter(OfKind(kind), those);
            && |mine| == |theirs|
            && (mine != [] ==> SameEffect(mine[0].transition, theirs[0].transition))
  {
    if these != [] {
      assert SameEffect(these[0].transition, those[0].transition);
      FirstOfKindAlike(these[1..], those[1..], kind);
    }
  }

  /** Taking in one more leaves the effect of the first of a kind, or makes the newcomer the first. */
  lemma FirstOfKindStays(compacted: seq<Candidate>, entry: Candidate, kind: DeviceAuthorizationTransition.Operation)
    ensures var before, after := Filter(OfKind(kind), compacted), Filter(OfKind(kind), CompactInto(compacted, entry));
            && (before != [] ==> after != [] && SameEffect(after[0].transition, before[0].transition))
            && (before == [] ==> after == if OfKind(kind)(entry) then [entry] else [])
  {
    var i := SameEffectIndex(compacted, entry);
    var after := CompactInto(compacted, entry);
    if i == |compacted| {
      FilterAppend(OfKind(kind), compacted, [entry]);
      assert Filter(OfKind(kind), [entry]) == if OfKind(kind)(entry) then [entry] else [];
    } else {
      FirstOfKindAlike(after, compacted, kind);
      FilterMembers(OfKind(kind), compacted);
      assert compacted[i] in compacted;
    }
  }

  /** Compaction keeps the effect of the first of a kind. */
  lemma {:induction false} FirstOfKindIsKept(admitted: seq<Candidate>, kind: DeviceAuthorizationTransition.Operation)
    ensures var before, after := Filter(OfKind(kind), admitted), Filter(OfKind(kind), Compact(admitted));
            && (before == [] <==> after == [])
            && (before != [] ==> SameEffect(after[0].transition, before[0].transition))
  {
    if admitted != [] {
      var front, last := admitted[..|admitted| - 1], admitted[|admitted| - 1];
      assert admitted == front + [last];
      FirstOfKindIsKept(front, kind);
      FirstOfKindStays(Compact(front), last, kind);
      FilterAppend(OfKind(kind), front, [last]);
      assert Filter(OfKind(kind), [last]) == if OfKind(kind)(last) then [last] else [];
    }
  }

  /** The first of a kind among the admitted comes no later than any other. */
  lemma FirstOfKindIsLeast(a: Authorization, candidates: seq<Candidate>,
                           kind: DeviceAuthorizationTransition.Operation, x: Candidate)
    requires x in Filter(OfKind(kind), Admitted(a, candidates))
    ensures ComesNoLater(Filter(OfKind(kind), Admitted(a, candidates))[0], x)
  {
    ReplayOrderSorts([]);
    var group := Filter(AtRevision(a.revision), candidates);
    SortFiltered(InReplayOrder, AppliesTo(a), group);
    SortFiltered(InReplayOrder, OfKind(kind), Filter(AppliesTo(a), group));
    SortIsSorted(InReplayOrder, Filter(OfKind(kind), Filter(AppliesTo(a), group)));
    HeadIsLeast(InReplayOrder, Filter(OfKind(kind), Admitted(a, candidates)), x);
  }

  lemma OneOfAnEffect(compacted: seq<Candidate>, admitted: seq<Candidate>, i: nat, j: nat)
    requires Compacts(compacted, admitted) && i < |compacted| && j < |compacted|
    requires compacted[i].transition.HasSameEffectAs(compacted[j].transition)
    ensures i == j
  {
  }

  /** What compaction keeps of an effect has the smallest encoding. */
  lemma KeptIsSmallest(compacted: seq<Candidate>, admitted: seq<Candidate>, kept: Candidate, x: Candidate)
    requires Compacts(compacted, admitted)
    requires kept in compacted && x in admitted && SameEffect(kept.transition, x.transition)
    ensures AtMost(kept.encoding, x.encoding)
  {
    assert StoodFor(x, compacted);
    var y :| y in compacted && Stands(y, x);
    var i :| 0 <= i < |compacted| && compacted[i] == y;
    var j :| 0 <= j < |compacted| && compacted[j] == kept;
    OneOfAnEffect(compacted, admitted, i, j);
  }

  /** The recovery that decides the device, and the one kept for its effect. */
  lemma RecoveryKept(admitted: seq<Candidate>) returns (first: Candidate, chosen: Candidate)
    requires Filter(OfKind(Recover), admitted) != []
    ensures first in admitted && chosen in admitted && first.transition.operation.Recover?
    ensures first == Filter(OfKind(Recover), admitted)[0]
    ensures Filter(OfKind(Recover), Compact(admitted)) != []
         && chosen == Filter(OfKind(Recover), Compact(admitted))[0]
    ensures SameEffect(chosen.transition, first.transition)
    ensures forall x :: x in admitted && SameEffect(x.transition, first.transition) ==>
              AtMost(chosen.encoding, x.encoding)
  {
    var compacted := Compact(admitted);
    FirstOfKindIsKept(admitted, Recover);
    first, chosen := Filter(OfKind(Recover), admitted)[0], Filter(OfKind(Recover), compacted)[0];
    FilterMembers(OfKind(Recover), admitted);
    FilterMembers(OfKind(Recover), compacted);
    CompactionKeepsSmallestOfEachEffect(admitted);
    assert first in Filter(OfKind(Recover), admitted) && chosen in Filter(OfKind(Recover), compacted);
    forall x | x in admitted && SameEffect(x.transition, first.transition) ensures AtMost(chosen.encoding, x.encoding) {
      KeptIsSmallest(compacted, admitted, chosen, x);
    }
  }

  lemma FirstRecoveryIsLeast(a: Authorization, candidates: seq<Candidate>, first: Candidate)
    requires a.Valid() && Filter(OfKind(Recover), Admitted(a, candidates)) != []
    requires first == Filter(OfKind(Recover), Admitted(a, candidates))[0]
    ensures forall x :: Admissible(a, candidates, x) && x.transition.operation.Recover? ==> ComesNoLater(first, x)
  {
    AdmissibleIsAdmitted(a, candidates);
    FilterMembers(OfKind(Recover), Admitted(a, candidates));
    forall x | Admissible(a, candidates, x) && x.transition.operation.Recover? ensures ComesNoLater(first, x) {
      FirstOfKindIsLeast(a, candidates, Recover, x);
    }
  }

  lemma RecoveryLeads(a: Authorization, candidates: seq<Candidate>, next: Authorization)
    returns (first: Candidate, chosen: Candidate)
    requires a.Valid() && Named(a, candidates, Recover) != {}
    requires CheckpointOf(a, Compact(Admitted(a, candidates))) == Success(next)
    ensures RecoveredTo(a, candidates, next, first, chosen)
  {
    NamedAreTargets(a, candidates, Recover);
    FirstOfKindIsKept(Admitted(a, candidates), Recover);
    first, chosen := RecoveryKept(Admitted(a, candidates));
    AdmissibleIsAdmitted(a, candidates);
    FirstRecoveryIsLeast(a, candidates, first);
    FilterAgrees(Recoveries(), OfKind(Recover), Compact(Admitted(a, candidates)));
    RecoveryFollows(a, chosen.transition);
  }

  // ---- Whole replays ----

  /** A recovery comes before revocations, and revocations before enrollments. */
  ghost predicate LeadsTo(a: Authorization, candidates: seq<Candidate>, next: Authorization) {
    if Named(a, candidates, Recover) != {}
    then exists first, chosen :: RecoveredTo(a, candidates, next, first, chosen)
    else if Named(a, candidates, Revoke) != {} then RevokedTo(a, Named(a, candidates, Revoke), next)
    else exists added :: EnrolledTo(a, Named(a, candidates, Enroll), next, added)
  }

  lemma StepLeads(a: Authorization, candidates: seq<Candidate>, compacted: seq<Candidate>, next: Authorization)
    requires StepsTo(a, candidates, compacted, next)
    ensures LeadsTo(a, candidates, next)
  {
    NamedAreTargets(a, candidates, Recover);
    NamedAreTargets(a, candidates, Revoke);
    NamedAreTargets(a, candidates, Enroll);
    FilterAgrees(Recoveries(), OfKind(Recover), compacted);
    FilterAgrees(Revocations(), OfKind(Revoke), compacted);
    if Named(a, candidates, Recover) != {} {
      var first, chosen := RecoveryLeads(a, candidates, next);
    } else if Named(a, candidates, Revoke) != {} {
      RevocationsLeave(a, Targets(Filter(OfKind(Revoke), compacted)), Named(a, candidates, Revoke), next);
    } else {
      OnlyEnrollments(compacted);
      var added := EnrollmentsAdd(a, Targets(compacted), Named(a, candidates, Enroll), next);
    }
  }

  lemma OnlyEnrollments(compacted: seq<Candidate>)
    requires Filter(OfKind(Recover), compacted) == [] && Filter(OfKind(Revoke), compacted) == []
    ensures Filter(OfKind(Enroll), compacted) == compacted
  {
    FilterMembers(OfKind(Recover), compacted);
    FilterMembers(OfKind(Revoke), compacted);
    forall x | x in compacted ensures OfKind(Enroll)(x) {
      assert x !in Filter(OfKind(Recover), compacted) && x !in Filter(OfKind(Revoke), compacted);
    }
    FilterAll(OfKind(Enroll), compacted);
  }

  /** The state the replay stands at after so many steps. */
  function StateAt(a: Authorization, r: ReplayResult, k: nat): Authorization
    requires k <= |r.checkpoints|
  {
    if k == 0 then a else r.checkpoints[k - 1]
  }

  /** Each step of the replay leads from its state to the next as the transitions admissible there decide. */
  ghost predicate EachStepLeads(a: Authorization, candidates: seq<Candidate>, r: ReplayResult) {
    forall k :: 0 <= k < |r.checkpoints| ==> LeadsTo(StateAt(a, r, k), candidates, StateAt(a, r, k + 1))
  }

  /** Whatever the replay accepted was offered and admissible in some state it moved on from. */
  ghost predicate AcceptsOnlyAdmissible(a: Authorization, candidates: seq<Candidate>, r: ReplayResult) {
    forall x :: x in r.accepted ==> exists k :: 0 <= k < |r.checkpoints| && Admissible(StateAt(a, r, k), candidates, x)
  }

  /** Whatever is admissible in this state of the replay is represented among the accepted, and the replay moved
      on from that state. */
  ghost predicate AcceptsAdmissibleAt(a: Authorization, candidates: seq<Candidate>, r: ReplayResult, k: nat)
    requires k <= |r.checkpoints|
  {
    forall x :: Admissible(StateAt(a, r, k), candidates, x) ==> k < |r.checkpoints| && Represented(r.accepted, x)
  }

  ghost predicate AcceptsEveryAdmissible(a: Authorization, candidates: seq<Candidate>, r: ReplayResult) {
    forall k :: 0 <= k <= |r.checkpoints| ==> AcceptsAdmissibleAt(a, candidates, r, k)
  }

  lemma StatesAfterStep(a: Authorization, compacted: seq<Candidate>, next: Authorization, rest: ReplayResult)
    ensures var r := Before(compacted, next, rest);
            && |r.checkpoints| == |rest.checkpoints| + 1
            && StateAt(a, r, 0) == a
            && forall k :: 0 <= k <= |rest.checkpoints| ==> StateAt(a, r, k + 1) == StateAt(next, rest, k)
  {
  }

  lemma StepRepresents(a: Authorization, candidates: seq<Candidate>, compacted: seq<Candidate>, next: Authorization)
    requires StepsTo(a, candidates, compacted, next)
    ensures forall x :: x in compacted ==> Admissible(a, candidates, x)
    ensures forall x :: Admissible(a, candidates, x) ==> Represented(compacted, x)
  {
    AdmissibleIsAdmitted(a, candidates);
    CompactionKeepsSmallestOfEachEffect(Admitted(a, candidates));
    forall x | Admissible(a, candidates, x) ensures Represented(compacted, x) {
      assert StoodFor(x, compacted);
      var y :| y in compacted && Stands(y, x);
      assert SameEffect(y.transition, x.transition);
    }
  }

  /** A replay accepts, one for each effect, exactly the transitions admissible in the states it passes, and those
      decide each next state; it ends where none is admissible. */
  lemma {:induction false} ReplayDecides(a: Authorization, candidates: seq<Candidate>, r: ReplayResult)
    requires a.Valid() && Reaches(a, candidates, r)
    ensures EachStepLeads(a, candidates, r)
    ensures AcceptsOnlyAdmissible(a, candidates, r)
    ensures AcceptsEveryAdmissible(a, candidates, r)
    ensures r.authorization == StateAt(a, r, |r.checkpoints|)
    decreases Ceiling(candidates) - a.revision
  {
    AdmissibleIsAdmitted(a, candidates);
    if Admitted(a, candidates) == [] {
      NothingIsAdmissible(a, candidates, r);
    } else {
      var compacted, next, rest := StartsWith(a, candidates, r);
      ReplayDecides(next, candidates, rest);
      StepLeads(a, candidates, compacted, next);
      StepRepresents(a, candidates, compacted, next);
      StatesAfterStep(a, compacted, next, rest);
      StepsLead(a, candidates, compacted, next, rest);
      OnlyAdmissibleTogether(a, candidates, compacted, next, rest);
      EveryAdmissibleTogether(a, candidates, compacted, next, rest);
    }
  }

  lemma NothingIsAdmissible(a: Authorization, candidates: seq<Candidate>, r: ReplayResult)
    requires r == ReplayResult([], a, []) && forall x :: !Admissible(a, candidates, x)
    ensures AcceptsEveryAdmissible(a, candidates, r)
  {
    assert AcceptsAdmissibleAt(a, candidates, r, 0);
  }

  lemma StepsLead(a: Authorization, candidates: seq<Candidate>, compacted: seq<Candidate>, next: Authorization,
                  rest: ReplayResult)
    requires LeadsTo(a, candidates, next) && EachStepLeads(next, candidates, rest)
    ensures EachStepLeads(a, candidates, Before(compacted, next, rest))
  {
    var r := Before(compacted, next, rest);
    StatesAfterStep(a, compacted, next, rest);
    forall k | 0 <= k < |r.checkpoints| ensures LeadsTo(StateAt(a, r, k), candidates, StateAt(a, r, k + 1)) {
      if k > 0 {
        assert StateAt(a, r, k) == StateAt(next, rest, k - 1) && StateAt(a, r, k + 1) == StateAt(next, rest, k);
      } else {
        assert StateAt(a, r, 1) == StateAt(next, rest, 0);
      }
    }
  }

  lemma OnlyAdmissibleTogether(a: Authorization, candidates: seq<Candidate>, compacted: seq<Candidate>,
                               next: Authorization, rest: ReplayResult)
    requires forall x :: x in compacted ==> Admissible(a, candidates, x)
    requires AcceptsOnlyAdmissible(next, candidates, rest)
    ensures AcceptsOnlyAdmissible(a, candidates, Before(compacted, next, rest))
  {
    var r := Before(compacted, next, rest);
    StatesAfterStep(a, compacted, next, rest);
    forall x | x in r.accepted
      ensures exists k :: 0 <= k < |r.checkpoints| && Admissible(StateAt(a, r, k), candidates, x)
    {
      if x in compacted {
        assert Admissible(StateAt(a, r, 0), candidates, x);
      } else {
        var k :| 0 <= k < |rest.checkpoints| && Admissible(StateAt(next, rest, k), candidates, x);
        assert Admissible(StateAt(a, r, k + 1), candidates, x);
      }
    }
  }

  lemma EveryAdmissibleTogether(a: Authorization, candidates: seq<Candidate>, compacted: seq<Candidate>,
                                next: Authorization, rest: ReplayResult)
    requires forall x :: Admissible(a, candidates, x) ==> Represented(compacted, x)
    requires AcceptsEveryAdmissible(next, candidates, rest)
    ensures AcceptsEveryAdmissible(a, candidates, Before(compacted, next, rest))
  {
    var r := Before(compacted, next, rest);
    StatesAfterStep(a, compacted, next, rest);
    forall k | 0 <= k <= |r.checkpoints| ensures AcceptsAdmissibleAt(a, candidates, r, k) {
      var part := if k == 0 then compacted else rest.accepted;
      forall x | Admissible(StateAt(a, r, k), candidates, x) ensures k < |r.checkpoints| && Represented(r.accepted, x) {
        if k > 0 {
          assert AcceptsAdmissibleAt(next, candidates, rest, k - 1);
          assert StateAt(a, r, k) == StateAt(next, rest, k - 1);
        }
        assert Represented(part, x);
        var y :| y in part && SameEffect(y.transition, x.transition) && AtMost(y.encoding, x.encoding);
        assert y in r.accepted;
      }
    }
  }

  // ---- What every state of a replay is ----

  /** At least one network, distinct devices, at most 128 of them, and a recovery authority that is neither the
      identity nor a device. */
  ghost predicate IsSound(a: Authorization) {
    && a.networkIds != []
    && Distinct(a.credentials) && |a.credentials| <= 128
    && a.recoveryAuthority != a.identityId
    && a.recoveryAuthority !in a.credentials
    && a.revision <= 9_007_199_254_740_991
  }

  /** From any such state a replay of whatever is offered goes through, every state it passes is one too, with a
      device, of the same identity, networks and recovery authority. */
  lemma {:induction false} ReplayPassesSoundStates(a: Authorization, candidates: seq<Candidate>)
    returns (r: ReplayResult)
    requires IsSound(a)
    ensures Reaches(a, candidates, r)
    ensures forall k :: 0 <= k < |r.checkpoints| ==>
              var state := r.checkpoints[k];
              && IsSound(state) && state.credentials != [] && state.revision == a.revision + k + 1
              && state.identityId == a.identityId && state.networkIds == a.networkIds
              && state.recoveryAuthority == a.recoveryAuthority
  {
    r := ReplayNeverFails(a, candidates);
    ChainIsSound(a, r.checkpoints, r.authorization);
  }

  lemma {:induction false} ChainIsSound(base: Authorization, checkpoints: seq<Authorization>, head: Authorization)
    requires Chain(base, checkpoints, head)
    ensures forall k :: 0 <= k < |checkpoints| ==>
              && IsSound(checkpoints[k]) && checkpoints[k].credentials != []
              && checkpoints[k].revision == base.revision + k + 1
              && checkpoints[k].identityId == base.identityId && checkpoints[k].networkIds == base.networkIds
              && checkpoints[k].recoveryAuthority == base.recoveryAuthority
    decreases |checkpoints|
  {
    if checkpoints != [] {
      ChainIsSound(checkpoints[0], checkpoints[1..], head);
      assert forall k :: 0 < k < |checkpoints| ==> checkpoints[k] == checkpoints[1..][k - 1];
    }
  }
}
