/** Replaying signed device transitions from a base: at each revision the admissible ones are compacted by
    effect and combined into one next authorization. Every replica must end on the same states, whatever
    order the transitions reached it in and however often. */
module DeviceAuthorizationReplay {
  import opened Wrappers
  import opened Sequences
  import opened DeviceAuthorization
  import opened DeviceAuthorizationTransition
  import opened ReplayCandidates
  import opened DeviceAuthorizationPolicy

  datatype ReplayResult = ReplayResult(accepted: seq<Candidate>, authorization: Authorization,
                                       checkpoints: seq<Authorization>)

  /** Above every revision that has a candidate. */
  function Ceiling(candidates: seq<Candidate>): nat {
    if candidates == [] then 0 else
      var rest, own := Ceiling(candidates[1..]), candidates[0].transition.previousRevision + 1;
      if own > rest then own else rest
  }

  lemma {:induction false} BelowCeiling(candidates: seq<Candidate>, candidate: Candidate)
    requires candidate in candidates
    ensures candidate.transition.previousRevision < Ceiling(candidates)
  {
    if candidate != candidates[0] {
      BelowCeiling(candidates[1..], candidate);
    }
  }

  lemma AdmittedIsBelowCeiling(a: Authorization, candidates: seq<Candidate>)
    requires Admitted(a, candidates) != []
    ensures a.revision < Ceiling(candidates)
  {
    AdmittedMembers(a, candidates);
    var first := Admitted(a, candidates)[0];
    assert first in Admitted(a, candidates);
    BelowCeiling(candidates, first);
  }

  function Before(compacted: seq<Candidate>, checkpoint: Authorization, rest: ReplayResult): ReplayResult {
    ReplayResult(compacted + rest.accepted, rest.authorization, [checkpoint] + rest.checkpoints)
  }

  function Replayed(a: Authorization, candidates: seq<Candidate>): Result<ReplayResult, Error>
    requires a.Legal()
    decreases Ceiling(candidates) - a.revision
  {
    var admitted := Admitted(a, candidates);
    if admitted == [] then Success(ReplayResult([], a, [])) else
      var compacted := Compact(admitted);
      var checkpoint := CheckpointOf(a, compacted);
      if checkpoint.Failure? then Failure(InvalidTransition)
      else if checkpoint.value.revision <= a.revision then Failure(InvalidTransition) else
        AdmittedIsBelowCeiling(a, candidates);
        var rest := Replayed(checkpoint.value, candidates);
        if rest.Failure? then rest else Success(Before(compacted, checkpoint.value, rest.value))
  }

  /** Replicas holding the same transitions replay to the same states, in whatever order, and however many
      times, each transition reached them. */
  lemma {:induction false} ReplayIgnoresOrderAndRepetition(a: Authorization, these: seq<Candidate>,
                                                           those: seq<Candidate>)
    requires a.Legal() && SameMembers(these, those) && EncodingsIdentify(these)
    ensures Replayed(a, these) == Replayed(a, those)
    decreases Ceiling(these) - a.revision
  {
    AdmittedAlike(a, these, those);
    if Admitted(a, these) != [] {
      var checkpoint := CheckpointOf(a, Compact(Admitted(a, these)));
      if checkpoint.Success? && checkpoint.value.revision > a.revision {
        AdmittedIsBelowCeiling(a, these);
        ReplayIgnoresOrderAndRepetition(checkpoint.value, these, those);
      }
    }
  }

  // ---- Every replay goes through ----

  /** The states of a replay: one revision after another, each with at least one device. */
  ghost predicate Chain(base: Authorization, checkpoints: seq<Authorization>, head: Authorization)
    decreases |checkpoints|
  {
    if checkpoints == [] then head == base
    else Follows(checkpoints[0], base) && Chain(checkpoints[0], checkpoints[1..], head)
  }

  ghost predicate Reaches(a: Authorization, candidates: seq<Candidate>, r: ReplayResult) {
    a.Legal() && Replayed(a, candidates) == Success(r)
  }

  /** One step of a replay: the transitions it accepts and the state they lead to. */
  ghost predicate StepsTo(a: Authorization, candidates: seq<Candidate>, compacted: seq<Candidate>,
                          next: Authorization) {
    && a.Valid() && Admitted(a, candidates) != []
    && compacted == Compact(Admitted(a, candidates))
    && CheckpointOf(a, compacted) == Success(next)
    && Follows(next, a)
  }

  lemma ReachesByStep(a: Authorization, candidates: seq<Candidate>, compacted: seq<Candidate>, next: Authorization,
                      rest: ReplayResult)
    requires StepsTo(a, candidates, compacted, next) && Reaches(next, candidates, rest)
    ensures Reaches(a, candidates, Before(compacted, next, rest))
  {
  }

  lemma ReachesOneResult(a: Authorization, candidates: seq<Candidate>, r: ReplayResult, other: ReplayResult)
    requires Reaches(a, candidates, r) && Reaches(a, candidates, other)
    ensures r == other
  {
  }

  lemma FirstStep(a: Authorization, candidates: seq<Candidate>) returns (compacted: seq<Candidate>, next: Authorization)
    requires a.Valid() && Admitted(a, candidates) != []
    ensures StepsTo(a, candidates, compacted, next)
    ensures compacted != [] && AllApply(a, compacted)
    ensures forall x :: x in compacted ==> x in candidates && x.transition.previousRevision == a.revision
    ensures a.revision < Ceiling(candidates)
  {
    var admitted := Admitted(a, candidates);
    AdmittedIsBelowCeiling(a, candidates);
    AdmittedMembers(a, candidates);
    CompactionKeepsSmallestOfEachEffect(admitted);
    compacted := Compact(admitted);
    AdmissibleTransitionsCombine(a, compacted);
    next := CheckpointOf(a, compacted).value;
  }

  ghost predicate MadeWithin(accepted: seq<Candidate>, candidates: seq<Candidate>, from: nat, head: nat) {
    forall x :: x in accepted ==> x in candidates && from <= x.transition.previousRevision < head
  }

  /** A replay never fails, whatever is offered to it; it moves one revision at a time, accepts only what
      was offered, never leaves an identity without a device, and stops only when nothing more applies. */
  lemma {:induction false} ReplayNeverFails(a: Authorization, candidates: seq<Candidate>) returns (r: ReplayResult)
    requires a.Valid()
    ensures Reaches(a, candidates, r)
    ensures Chain(a, r.checkpoints, r.authorization)
    ensures r.authorization.Valid() && r.authorization.revision == a.revision + |r.checkpoints|
    ensures MadeWithin(r.accepted, candidates, a.revision, r.authorization.revision)
    ensures Admitted(r.authorization, candidates) == []
    decreases Ceiling(candidates) - a.revision
  {
    if Admitted(a, candidates) == [] {
      r := ReplayResult([], a, []);
    } else {
      var compacted, next := FirstStep(a, candidates);
      var rest := ReplayNeverFails(next, candidates);
      ReachesByStep(a, candidates, compacted, next, rest);
      r := Before(compacted, next, rest);
    }
  }

  // ---- Later transitions only extend ----

  ghost predicate MadeFrom(later: seq<Candidate>, revision: nat) {
    forall x :: x in later ==> x.transition.previousRevision >= revision
  }

  lemma StepIgnoresLater(a: Authorization, candidates: seq<Candidate>, later: seq<Candidate>, compacted: seq<Candidate>,
                         next: Authorization)
    requires StepsTo(a, candidates, compacted, next) && MadeFrom(later, a.revision + 1)
    ensures StepsTo(a, candidates + later, compacted, next)
  {
    FilterAppend(AtRevision(a.revision), candidates, later);
    FilterNone(AtRevision(a.revision), later);
    assert Filter(AtRevision(a.revision), candidates) + [] == Filter(AtRevision(a.revision), candidates);
  }

  function Then(r: ReplayResult, more: ReplayResult): ReplayResult {
    ReplayResult(r.accepted + more.accepted, more.authorization, r.checkpoints + more.checkpoints)
  }

  lemma BeforeThen(compacted: seq<Candidate>, next: Authorization, rest: ReplayResult, more: ReplayResult)
    ensures Before(compacted, next, Then(rest, more)) == Then(Before(compacted, next, rest), more)
  {
    assert compacted + (rest.accepted + more.accepted) == compacted + rest.accepted + more.accepted;
    assert [next] + (rest.checkpoints + more.checkpoints) == [next] + rest.checkpoints + more.checkpoints;
  }

  lemma NothingThen(a: Authorization, candidates: seq<Candidate>, r: ReplayResult, more: ReplayResult)
    requires Reaches(a, candidates, r) && Admitted(a, candidates) == []
    ensures Then(r, more) == more && r.authorization == a
  {
  }

  /** The step a replay starts with, and the replay it goes on with. */
  lemma StartsWith(a: Authorization, candidates: seq<Candidate>, r: ReplayResult)
      returns (compacted: seq<Candidate>, next: Authorization, rest: ReplayResult)
    requires a.Valid() && Reaches(a, candidates, r) && Admitted(a, candidates) != []
    ensures StepsTo(a, candidates, compacted, next) && Reaches(next, candidates, rest)
    ensures r == Before(compacted, next, rest)
    ensures a.revision < Ceiling(candidates) && next.revision <= rest.authorization.revision
  {
    compacted, next := FirstStep(a, candidates);
    rest := ReplayNeverFails(next, candidates);
    ReachesByStep(a, candidates, compacted, next, rest);
    ReachesOneResult(a, candidates, r, Before(compacted, next, rest));
  }

  /** Transitions made at or above the head continue the replay from the head: no accepted transition and
      no state already replayed ever changes. */
  lemma {:induction false} LaterTransitionsOnlyExtend(a: Authorization, candidates: seq<Candidate>,
                                                      later: seq<Candidate>, r: ReplayResult, more: ReplayResult)
    requires a.Valid() && Reaches(a, candidates, r)
    requires MadeFrom(later, r.authorization.revision)
    requires Reaches(r.authorization, candidates + later, more)
    ensures Reaches(a, candidates + later, Then(r, more))
    decreases Ceiling(candidates) - a.revision
  {
    if Admitted(a, candidates) == [] {
      NothingThen(a, candidates, r, more);
    } else {
      var compacted, next, rest := StartsWith(a, candidates, r);
      StepIgnoresLater(a, candidates, later, compacted, next);
      LaterTransitionsOnlyExtend(next, candidates, later, rest, more);
      ReachesByStep(a, candidates + later, compacted, next, Then(rest, more));
      BeforeThen(compacted, next, rest, more);
    }
  }

  ghost predicate EffectsDiffer(accepted: seq<Candidate>) {
    forall i, j :: 0 <= i < j < |accepted| ==> !accepted[i].transition.HasSameEffectAs(accepted[j].transition)
  }

  /** No replay accepts one effect twice. */
  lemma {:induction false} AcceptedEffectsDiffer(a: Authorization, candidates: seq<Candidate>, r: ReplayResult)
    requires a.Valid() && Reaches(a, candidates, r)
    ensures EffectsDiffer(r.accepted)
    ensures forall x :: x in r.accepted ==> x.transition.previousRevision >= a.revision
    decreases Ceiling(candidates) - a.revision
  {
    if Admitted(a, candidates) != [] {
      var compacted, next, rest := StartsWith(a, candidates, r);
      AcceptedEffectsDiffer(next, candidates, rest);
      AdmittedMembers(a, candidates);
      CompactionKeepsSmallestOfEachEffect(Admitted(a, candidates));
      EffectsDifferTogether(compacted, rest.accepted, a.revision);
    }
  }

  lemma EffectsDifferTogether(front: seq<Candidate>, back: seq<Candidate>, revision: nat)
    requires EffectsDiffer(front) && EffectsDiffer(back)
    requires forall x :: x in front ==> x.transition.previousRevision == revision
    requires forall x :: x in back ==> x.transition.previousRevision > revision
    ensures EffectsDiffer(front + back)
  {
    forall i, j | 0 <= i < j < |front + back|
      ensures !(front + back)[i].transition.HasSameEffectAs((front + back)[j].transition)
    {
      if i < |front| <= j {
        assert front[i] in front && back[j - |front|] in back;
      }
    }
  }

  // ---- The loop ----

  function Continued(accepted: seq<Candidate>, checkpoints: seq<Authorization>, rest: Result<ReplayResult, Error>)
    : Result<ReplayResult, Error>
  {
    if rest.Failure? then rest
    else Success(ReplayResult(accepted + rest.value.accepted, rest.value.authorization,
                              checkpoints + rest.value.checkpoints))
  }

  /** What is still to be replayed continues what has been. */
  ghost predicate OnCourse(base: Authorization, candidates: seq<Candidate>, accepted: seq<Candidate>,
                           checkpoints: seq<Authorization>, authorization: Authorization) {
    && base.Legal() && authorization.Legal()
    && Replayed(base, candidates) == Continued(accepted, checkpoints, Replayed(authorization, candidates))
  }

  lemma SetsOut(base: Authorization, candidates: seq<Candidate>)
    requires base.Legal()
    ensures OnCourse(base, candidates, [], [], base)
  {
    var rest := Replayed(base, candidates);
    if rest.Success? {
      assert [] + rest.value.accepted == rest.value.accepted;
      assert [] + rest.value.checkpoints == rest.value.checkpoints;
    }
  }

  function After(compacted: seq<Candidate>, next: Authorization, rest: Result<ReplayResult, Error>)
    : Result<ReplayResult, Error>
  {
    if rest.Failure? then rest else Success(Before(compacted, next, rest.value))
  }

  lemma ReplayUnfolds(a: Authorization, candidates: seq<Candidate>, compacted: seq<Candidate>, next: Authorization)
    requires a.Legal() && Admitted(a, candidates) != [] && compacted == Compact(Admitted(a, candidates))
    requires CheckpointOf(a, compacted) == Success(next) && next.revision > a.revision
    ensures next.Legal() && Replayed(a, candidates) == After(compacted, next, Replayed(next, candidates))
    ensures a.revision < Ceiling(candidates)
  {
    AdmittedIsBelowCeiling(a, candidates);
  }

  lemma ContinuedAfter(accepted: seq<Candidate>, checkpoints: seq<Authorization>, compacted: seq<Candidate>,
                       next: Authorization, rest: Result<ReplayResult, Error>)
    ensures Continued(accepted, checkpoints, After(compacted, next, rest))
         == Continued(accepted + compacted, checkpoints + [next], rest)
  {
    if rest.Success? {
      assert accepted + (compacted + rest.value.accepted) == accepted + compacted + rest.value.accepted;
      assert checkpoints + ([next] + rest.value.checkpoints) == checkpoints + [next] + rest.value.checkpoints;
    }
  }

  lemma StaysOnCourse(base: Authorization, candidates: seq<Candidate>, accepted: seq<Candidate>,
                      checkpoints: seq<Authorization>, a: Authorization, compacted: seq<Candidate>, next: Authorization)
    requires OnCourse(base, candidates, accepted, checkpoints, a) && Admitted(a, candidates) != []
    requires compacted == Compact(Admitted(a, candidates))
    requires CheckpointOf(a, compacted) == Success(next) && next.revision > a.revision
    ensures OnCourse(base, candidates, accepted + compacted, checkpoints + [next], next)
    ensures a.revision < Ceiling(candidates)
  {
    ReplayUnfolds(a, candidates, compacted, next);
    ContinuedAfter(accepted, checkpoints, compacted, next, Replayed(next, candidates));
  }

  lemma Fails(base: Authorization, candidates: seq<Candidate>, accepted: seq<Candidate>,
              checkpoints: seq<Authorization>, a: Authorization)
    requires OnCourse(base, candidates, accepted, checkpoints, a) && Admitted(a, candidates) != []
    requires var next := CheckpointOf(a, Compact(Admitted(a, candidates)));
             next.Failure? || next.value.revision <= a.revision
    ensures Replayed(base, candidates) == Failure(InvalidTransition)
  {
  }

  lemma Arrives(base: Authorization, candidates: seq<Candidate>, accepted: seq<Candidate>,
                checkpoints: seq<Authorization>, a: Authorization)
    requires OnCourse(base, candidates, accepted, checkpoints, a) && Admitted(a, candidates) == []
    ensures Replayed(base, candidates) == Success(ReplayResult(accepted, a, checkpoints))
  {
    assert accepted + [] == accepted && checkpoints + [] == checkpoints;
  }

  method Replay(base: Authorization, candidates: seq<Candidate>) returns (result: Result<ReplayResult, Error>)
    requires base.Legal()
    ensures result == Replayed(base, candidates)
  {
    var groups := GroupByRevision(candidates);
    var accepted, checkpoints, authorization := [], [], base;
    var admitted := Filter(AppliesTo(authorization), FoundIn(groups, authorization.revision));
    SetsOut(base, candidates);
    while admitted != []
      invariant OnCourse(base, candidates, accepted, checkpoints, authorization)
      invariant admitted == Admitted(authorization, candidates)
      decreases Ceiling(candidates) - authorization.revision
    {
      var compacted := CompactEquivalent(admitted);
      var checkpoint := CheckpointOf(authorization, compacted);
      if checkpoint.Failure? || checkpoint.value.revision <= authorization.revision {
        Fails(base, candidates, accepted, checkpoints, authorization);
        return Failure(InvalidTransition);
      }
      StaysOnCourse(base, candidates, accepted, checkpoints, authorization, compacted, checkpoint.value);
      accepted, checkpoints := accepted + compacted, checkpoints + [checkpoint.value];
      authorization := checkpoint.value;
      admitted := Filter(AppliesTo(authorization), FoundIn(groups, authorization.revision));
    }
    Arrives(base, candidates, accepted, checkpoints, authorization);
    return Success(ReplayResult(accepted, authorization, checkpoints));
  }
}
