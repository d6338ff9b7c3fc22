/** Whether a device was authorized at the revision a signed record claims: looked up in every state from
    the replay base to the head, so that later transitions never rewrite an earlier verdict. */
module DeviceAuthorizationTimeline {
  import opened Wrappers
  import opened StableSort
  import opened DeviceAuthorizationTransition
  import opened DeviceAuthorization
  import opened DeviceCompromiseCaps
  import opened ReplayCandidates
  import opened DeviceAuthorizationReplay

  /** `states` in ascending revision. */
  datatype Timeline = Timeline(states: seq<Authorization>, compromiseCaps: Caps)
  {
    function HasReached(revision: nat): bool {
      states != [] && revision <= states[|states| - 1].revision
    }

    function IsAuthorizedAt(credential: string, revision: nat): bool {
      && HasReached(revision)
      && !IsCompromisedAt(compromiseCaps, credential, revision)
      && var state := FindLast(states, revision);
         state.Some? && state.value.IsAuthorized(credential)
    }
  }

  predicate NotLater(x: Authorization, y: Authorization) {
    x.revision <= y.revision
  }

  /** The constructor, which takes the states in any order. */
  function Of(states: seq<Authorization>, caps: Caps): Timeline {
    Timeline(Sort(NotLater, states), caps)
  }

  /** The last state not above the revision. */
  function FindLast(states: seq<Authorization>, revision: nat): Option<Authorization> {
    if states == [] then None
    else if states[|states| - 1].revision <= revision then Some(states[|states| - 1])
    else FindLast(states[..|states| - 1], revision)
  }

  // ---- What the lookup finds ----

  /** The state in force at a revision: the latest one not above it. */
  ghost predicate Governs(state: Authorization, states: seq<Authorization>, revision: nat) {
    && state in states && state.revision <= revision
    && forall other :: other in states && other.revision <= revision ==> other.revision <= state.revision
  }

  lemma {:induction false} FoundGoverns(states: seq<Authorization>, revision: nat)
    requires SortedBy(NotLater, states)
    ensures match FindLast(states, revision)
            case Some(state) => Governs(state, states, revision)
            case None => forall state :: state in states ==> state.revision > revision
  {
    if states != [] {
      var front, last := states[..|states| - 1], states[|states| - 1];
      assert states == front + [last];
      FoundGoverns(front, revision);
      if last.revision <= revision {
        forall other | other in states ensures other.revision <= last.revision {
          var i :| 0 <= i < |states| && states[i] == other;
          assert i < |states| - 1 ==> NotLater(states[i], states[|states| - 1]);
        }
      }
    }
  }

  ghost predicate OnePerRevision(states: seq<Authorization>) {
    forall x, y :: x in states && y in states && x.revision == y.revision ==> x == y
  }

  /** In whatever order the states are given, the verdict is that of the one state in force at the
      revision, once the head has reached it and no cap refuses the credential there. */
  lemma VerdictOfTheStateInForce(states: seq<Authorization>, caps: Caps, credential: string, revision: nat)
    requires OnePerRevision(states)
    ensures Of(states, caps).IsAuthorizedAt(credential, revision)
       <==> && (exists head :: head in states && revision <= head.revision)
            && !IsCompromisedAt(caps, credential, revision)
            && (exists state :: Governs(state, states, revision) && state.IsAuthorized(credential))
  {
    var sorted := Sort(NotLater, states);
    SortIsPermutation(NotLater, states);
    SortIsSorted(NotLater, states);
    FoundGoverns(sorted, revision);
    ReachedByTheLatest(states, caps, revision);
    var found := FindLast(sorted, revision);
    if found.Some? {
      assert Governs(found.value, states, revision);
    }
  }

  lemma ReachedByTheLatest(states: seq<Authorization>, caps: Caps, revision: nat)
    ensures Of(states, caps).HasReached(revision) <==> exists head :: head in states && revision <= head.revision
  {
    var sorted := Sort(NotLater, states);
    SortIsPermutation(NotLater, states);
    SortIsSorted(NotLater, states);
    if head :| head in states && revision <= head.revision {
      LastIsGreatest(NotLater, sorted, head);
    }
    if sorted != [] {
      assert sorted[|sorted| - 1] in states;
    }
  }

  // ---- Appending ----

  ghost predicate AllAbove(later: seq<Authorization>, revision: nat) {
    forall state :: state in later ==> state.revision > revision
  }

  lemma {:induction false} NotFoundAmongLater(states: seq<Authorization>, later: seq<Authorization>, revision: nat)
    requires AllAbove(later, revision)
    ensures FindLast(states + later, revision) == FindLast(states, revision)
    decreases |later|
  {
    if later == [] {
      assert states + later == states;
    } else {
      var front, last := later[..|later| - 1], later[|later| - 1];
      assert last in later;
      assert (states + later)[..|states + later| - 1] == states + front;
      NotFoundAmongLater(states, front, revision);
    }
  }

  ghost predicate AllBefore(states: seq<Authorization>, later: seq<Authorization>) {
    forall x, y :: x in states && y in later ==> x.revision < y.revision
  }

  lemma LookupSkipsLater(sorted: seq<Authorization>, later: seq<Authorization>, caps: Caps, credential: string,
                         revision: nat)
    requires Timeline(sorted, caps).HasReached(revision) && AllAbove(later, sorted[|sorted| - 1].revision)
    ensures Timeline(sorted + later, caps).HasReached(revision)
    ensures Timeline(sorted + later, caps).IsAuthorizedAt(credential, revision)
         == Timeline(sorted, caps).IsAuthorizedAt(credential, revision)
  {
    NotFoundAmongLater(sorted, later, revision);
    assert later != [] ==> later[|later| - 1] in later;
  }

  /** States above the head never change a verdict at a revision already reached. */
  lemma LaterStatesNeverRewrite(states: seq<Authorization>, later: seq<Authorization>, caps: Caps, credential: string,
                                revision: nat)
    requires AllBefore(states, later) && Of(states, caps).HasReached(revision)
    ensures Of(states + later, caps).HasReached(revision)
    ensures Of(states + later, caps).IsAuthorizedAt(credential, revision)
         == Of(states, caps).IsAuthorizedAt(credential, revision)
  {
    var sorted, sortedLater := Sort(NotLater, states), Sort(NotLater, later);
    SortConcatenated(NotLater, states, later);
    SortIsPermutation(NotLater, states);
    SortIsPermutation(NotLater, later);
    assert sorted[|sorted| - 1] in states;
    LookupSkipsLater(sorted, sortedLater, caps, credential, revision);
  }

  /** A cap more only takes verdicts away, and exactly those it refuses. */
  lemma CapsOnlyRefuse(states: seq<Authorization>, caps: Caps, transitions: seq<Transition>, credential: string,
                       revision: nat)
    ensures Of(states, AfterAll(caps, transitions)).IsAuthorizedAt(credential, revision)
       <==> Of(states, caps).IsAuthorizedAt(credential, revision) && !SomeRefuses(transitions, credential, revision)
  {
    RefusedExactlyWhenCapped(caps, transitions, credential, revision);
  }

  // ---- The timeline of a replay ----

  function Transitions(candidates: seq<Candidate>): seq<Transition> {
    if candidates == [] then [] else [candidates[0].transition] + Transitions(candidates[1..])
  }

  /** Every state of a replay, with the caps in effect at its head. */
  function TimelineOf(base: Authorization, caps: Caps, replay: ReplayResult): Timeline {
    Of([base] + replay.checkpoints, AfterAll(caps, Transitions(replay.accepted)))
  }

  lemma {:induction false} ChainClimbs(base: Authorization, checkpoints: seq<Authorization>, head: Authorization)
    requires Chain(base, checkpoints, head)
    ensures head.revision == base.revision + |checkpoints|
    ensures forall i :: 0 <= i < |checkpoints| ==> checkpoints[i].revision == base.revision + i + 1
    ensures ([base] + checkpoints)[|checkpoints|] == head
    decreases |checkpoints|
  {
    if checkpoints != [] {
      ChainClimbs(checkpoints[0], checkpoints[1..], head);
      assert [base] + checkpoints == [base] + ([checkpoints[0]] + checkpoints[1..]);
    }
  }

  lemma {:induction false} AfterBoth(caps: Caps, front: seq<Candidate>, back: seq<Candidate>)
    ensures AfterAll(caps, Transitions(front + back)) == AfterAll(AfterAll(caps, Transitions(front)), Transitions(back))
    decreases |front|
  {
    if front == [] {
      assert front + back == back;
    } else {
      assert (front + back)[1..] == front[1..] + back;
      AfterBoth(WithCompromise(caps, front[0].transition), front[1..], back);
    }
  }

  /** Transitions made at or above the head never authorize or retire a device at a revision already
      reached; they can only cap it there, by a revocation as compromised or a recovery that says so. */
  lemma VerdictsAreNeverRewritten(base: Authorization, caps: Caps, candidates: seq<Candidate>, later: seq<Candidate>,
                                  r: ReplayResult, more: ReplayResult, credential: string, revision: nat)
    requires base.Valid() && Reaches(base, candidates, r)
    requires MadeFrom(later, r.authorization.revision) && Reaches(r.authorization, candidates + later, more)
    requires revision <= r.authorization.revision
    ensures Reaches(base, candidates + later, Then(r, more))
    ensures TimelineOf(base, caps, Then(r, more)).IsAuthorizedAt(credential, revision)
       <==> && TimelineOf(base, caps, r).IsAuthorizedAt(credential, revision)
            && !SomeRefuses(Transitions(more.accepted), credential, revision)
  {
    LaterTransitionsOnlyExtend(base, candidates, later, r, more);
    ReplaysChain(base, candidates, r);
    ReplaysChain(r.authorization, candidates + later, more);
    ExtendedTimeline(base, caps, r, more, credential, revision);
  }

  lemma ReplaysChain(a: Authorization, candidates: seq<Candidate>, r: ReplayResult)
    requires a.Valid() && Reaches(a, candidates, r)
    ensures Chain(a, r.checkpoints, r.authorization) && r.authorization.Valid()
  {
    var same := ReplayNeverFails(a, candidates);
    ReachesOneResult(a, candidates, r, same);
  }

  lemma ExtendedTimeline(base: Authorization, caps: Caps, r: ReplayResult, more: ReplayResult, credential: string,
                         revision: nat)
    requires Chain(base, r.checkpoints, r.authorization) && Chain(r.authorization, more.checkpoints, more.authorization)
    requires revision <= r.authorization.revision
    ensures TimelineOf(base, caps, Then(r, more)).IsAuthorizedAt(credential, revision)
       <==> && TimelineOf(base, caps, r).IsAuthorizedAt(credential, revision)
            && !SomeRefuses(Transitions(more.accepted), credential, revision)
  {
    var states := [base] + r.checkpoints;
    var before := AfterAll(caps, Transitions(r.accepted));
    AfterBoth(caps, r.accepted, more.accepted);
    assert [base] + (r.checkpoints + more.checkpoints) == states + more.checkpoints;
    ChainsClimbOn(base, r, more);
    ReachedByTheLatest(states, AfterAll(before, Transitions(more.accepted)), revision);
    LaterStatesNeverRewrite(states, more.checkpoints, AfterAll(before, Transitions(more.accepted)), credential,
                            revision);
    CapsOnlyRefuse(states, before, Transitions(more.accepted), credential, revision);
  }

  lemma ChainsClimbOn(base: Authorization, r: ReplayResult, more: ReplayResult)
    requires Chain(base, r.checkpoints, r.authorization) && Chain(r.authorization, more.checkpoints, more.authorization)
    ensures r.authorization in [base] + r.checkpoints
    ensures AllBefore([base] + r.checkpoints, more.checkpoints)
  {
    ChainClimbs(base, r.checkpoints, r.authorization);
    ChainClimbs(r.authorization, more.checkpoints, more.authorization);
  }
}
