/** What admissible device transitions at one revision combine into: the next authorization. */
module DeviceAuthorizationPolicy {
  import opened Wrappers
  import opened Sequences
  import opened DeviceAuthorization
  import opened DeviceAuthorizationTransition
  import opened ReplayCandidates

  // ---- The next authorization ----

  function Targets(candidates: seq<Candidate>): seq<string> {
    if candidates == [] then [] else [candidates[0].transition.target] + Targets(candidates[1..])
  }

  function Recoveries(): Candidate -> bool { (candidate: Candidate) => candidate.transition.operation.Recover? }

  function Revocations(): Candidate -> bool { (candidate: Candidate) => candidate.transition.operation.Revoke? }

  function CheckpointOf(a: Authorization, admitted: seq<Candidate>): Result<Authorization, Error>
    requires a.Legal()
  {
    var recoveries, revocations := Filter(Recoveries(), admitted), Filter(Revocations(), admitted);
    if recoveries != [] then Apply(a, recoveries[0].transition)
    else if revocations != [] then a.RevokeConcurrently(Targets(revocations))
    else a.EnrollConcurrently(Targets(admitted))
  }

  ghost predicate AllApply(a: Authorization, candidates: seq<Candidate>) {
    forall x :: x in candidates ==> Apply(a, x.transition).Success?
  }

  lemma {:induction false} TargetsHold(candidates: seq<Candidate>)
    ensures forall c :: c in Targets(candidates) <==> exists x :: x in candidates && x.transition.target == c
  {
    if candidates != [] {
      TargetsHold(candidates[1..]);
      assert candidates == [candidates[0]] + candidates[1..];
      forall c ensures c in Targets(candidates) <==> exists x :: x in candidates && x.transition.target == c {
        if c in Targets(candidates[1..]) {
          var x :| x in candidates[1..] && x.transition.target == c;
          assert x in candidates;
        }
        if x :| x in candidates && x.transition.target == c {
          assert x == candidates[0] || x in candidates[1..];
        }
      }
    }
  }

  /** The state a replay step leads to. */
  ghost predicate Follows(next: Authorization, a: Authorization) {
    && next.Valid()
    && next.revision == a.revision + 1
    && next.credentials != []
    && next.identityId == a.identityId
    && next.networkIds == a.networkIds
    && next.recoveryAuthority == a.recoveryAuthority
  }

  lemma RecoveryFollows(a: Authorization, t: Transition)
    requires a.Valid() && t.operation.Recover? && Apply(a, t).Success?
    ensures Follows(Apply(a, t).value, a)
    ensures Apply(a, t).value == a.(revision := a.revision + 1, epoch := t.operationId, credentials := [t.target])
  {
    RecoveryLeavesOneDevice(a, a.revision + 1, t.target, t.operationId);
  }

  lemma RevocationsFollow(a: Authorization, revocations: seq<Candidate>)
    requires a.Valid() && revocations != [] && AllApply(a, revocations)
    requires revocations[0].transition.operation.Revoke?
    ensures a.RevokeConcurrently(Targets(revocations)).Success?
    ensures Follows(a.RevokeConcurrently(Targets(revocations)).value, a)
  {
    var first := revocations[0].transition;
    assert revocations[0] in revocations;
    RevocationRemovesOne(a, first.target);
    assert first.target in Targets(revocations) && a.IsAuthorized(first.target);
    ConcurrentRevocationKeepsSome(a, Targets(revocations));
  }

  lemma EnrollmentsFollow(a: Authorization, enrollments: seq<Candidate>)
    requires a.Valid() && enrollments != [] && AllApply(a, enrollments)
    requires forall x :: x in enrollments ==> x.transition.operation.Enroll?
    ensures a.EnrollConcurrently(Targets(enrollments)).Success?
    ensures Follows(a.EnrollConcurrently(Targets(enrollments)).value, a)
  {
    var targets := Targets(enrollments);
    TargetsHold(enrollments);
    forall c | c in targets ensures !a.IsAuthorized(c) && c != a.recoveryAuthority {
      var x :| x in enrollments && x.transition.target == c;
      EnrollmentAddsOne(a, c);
    }
    assert enrollments[0] in enrollments;
    EnrollmentAddsOne(a, enrollments[0].transition.target);
    ChosenAreTheSmallestNew(a, targets);
    assert targets[0] in targets;
    ConcurrentEnrollmentAdds(a, targets);
  }

  /** Transitions that each apply on their own always combine into a next authorization, which keeps
      between one and 128 devices. */
  lemma AdmissibleTransitionsCombine(a: Authorization, admitted: seq<Candidate>)
    requires a.Valid() && admitted != [] && AllApply(a, admitted)
    ensures CheckpointOf(a, admitted).Success?
    ensures Follows(CheckpointOf(a, admitted).value, a)
  {
    var recoveries, revocations := Filter(Recoveries(), admitted), Filter(Revocations(), admitted);
    FilterMembers(Recoveries(), admitted);
    FilterMembers(Revocations(), admitted);
    if recoveries != [] {
      assert recoveries[0] in recoveries;
      RecoveryFollows(a, recoveries[0].transition);
    } else if revocations != [] {
      assert revocations[0] in revocations;
      RevocationsFollow(a, revocations);
    } else {
      forall x | x in admitted ensures x.transition.operation.Enroll? {
        assert x !in recoveries && x !in revocations;
      }
      EnrollmentsFollow(a, admitted);
    }
  }
}
