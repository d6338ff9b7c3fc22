/** The compromise caps of an identity: from which revision on each compromised credential is refused. */
module DeviceCompromiseCaps {
  import opened Wrappers
  import opened Sequences
  import opened CodeUnitOrder
  import opened DeviceAuthorizationTransition

  type Caps = seq<Compromise>

  /** Where the credential's cap stands in the list, or the end of the list. */
  function IndexOf(caps: Caps, credential: string): (i: nat)
    ensures i <= |caps|
    ensures i < |caps| ==> caps[i].credential == credential
    ensures forall k :: 0 <= k < i ==> caps[k].credential != credential
  {
    if caps == [] || caps[0].credential == credential then 0 else 1 + IndexOf(caps[1..], credential)
  }

  function Tighten(caps: Caps, entry: Compromise): Caps {
    var i := IndexOf(caps, entry.credential);
    if i == |caps| then caps + [entry]
    else if !(caps[i].since > entry.since) then caps
    else caps[i := entry]
  }

  function TightenAll(caps: Caps, entries: seq<Compromise>): Caps
    decreases |entries|
  {
    if entries == [] then caps else TightenAll(Tighten(caps, entries[0]), entries[1..])
  }

  function WithCompromise(caps: Caps, transition: Transition): Caps {
    var carried := TightenAll(caps, transition.Carried());
    if transition.compromisedSince.Some? && transition.operation.Revoke?
    then Tighten(carried, Compromise(transition.target, transition.compromisedSince.value))
    else carried
  }

  /** The caps after a whole replay. */
  function AfterAll(caps: Caps, transitions: seq<Transition>): Caps
    decreases |transitions|
  {
    if transitions == [] then caps else AfterAll(WithCompromise(caps, transitions[0]), transitions[1..])
  }

  predicate IsCompromisedAt(caps: Caps, credential: string, revision: nat) {
    var i := IndexOf(caps, credential);
    i < |caps| && revision >= caps[i].since
  }

  predicate IsNotLoosenedBy(caps: Caps, next: Caps) {
    forall cap | cap in caps :: IsCompromisedAt(next, cap.credential, cap.since)
  }

  predicate IsCarriedBy(caps: Caps, recovery: Transition) {
    && |recovery.Carried()| == |caps|
    && forall entry | entry in recovery.Carried() :: entry in caps
  }

  /** No credential is capped twice. */
  ghost predicate OnePerCredential(caps: Caps) {
    forall i, j :: 0 <= i < j < |caps| ==> caps[i].credential != caps[j].credential
  }

  // ---- What a cap refuses ----

  lemma FirstIsTheIndex(caps: Caps, credential: string, i: nat)
    requires i <= |caps| && (i < |caps| ==> caps[i].credential == credential)
    requires forall k :: 0 <= k < i ==> caps[k].credential != credential
    ensures IndexOf(caps, credential) == i
  {
  }

  lemma TightenRefuses(caps: Caps, entry: Compromise, credential: string, revision: nat)
    ensures IsCompromisedAt(Tighten(caps, entry), credential, revision)
       <==> IsCompromisedAt(caps, credential, revision) || (entry.credential == credential && entry.since <= revision)
  {
    var i, k := IndexOf(caps, entry.credential), IndexOf(caps, credential);
    var after := Tighten(caps, entry);
    if i == |caps| {
      FirstIsTheIndex(after, credential, if k < |caps| || credential == entry.credential then k else |after|);
    } else {
      FirstIsTheIndex(after, credential, k);
    }
  }

  lemma TightenKeepsOnePerCredential(caps: Caps, entry: Compromise)
    requires OnePerCredential(caps)
    ensures OnePerCredential(Tighten(caps, entry))
  {
  }

  lemma {:induction false} TightenAllRefuses(caps: Caps, entries: seq<Compromise>, credential: string, revision: nat)
    ensures IsCompromisedAt(TightenAll(caps, entries), credential, revision)
       <==> IsCompromisedAt(caps, credential, revision) || Compromised(entries, credential, revision)
    ensures OnePerCredential(caps) ==> OnePerCredential(TightenAll(caps, entries))
    decreases |entries|
  {
    if entries != [] {
      if OnePerCredential(caps) {
        TightenKeepsOnePerCredential(caps, entries[0]);
      }
      TightenRefuses(caps, entries[0], credential, revision);
      TightenAllRefuses(Tighten(caps, entries[0]), entries[1..], credential, revision);
      assert entries == [entries[0]] + entries[1..];
    }
  }

  /** After a transition exactly what was refused before and what the transition caps is refused. */
  lemma WithCompromiseRefuses(caps: Caps, transition: Transition, credential: string, revision: nat)
    ensures IsCompromisedAt(WithCompromise(caps, transition), credential, revision)
       <==> IsCompromisedAt(caps, credential, revision) || transition.Refuses(credential, revision)
    ensures OnePerCredential(caps) ==> OnePerCredential(WithCompromise(caps, transition))
  {
    var carried := TightenAll(caps, transition.Carried());
    TightenAllRefuses(caps, transition.Carried(), credential, revision);
    if transition.compromisedSince.Some? && transition.operation.Revoke? {
      var own := Compromise(transition.target, transition.compromisedSince.value);
      TightenRefuses(carried, own, credential, revision);
      if OnePerCredential(carried) {
        TightenKeepsOnePerCredential(carried, own);
      }
    }
  }

  ghost predicate SomeRefuses(transitions: seq<Transition>, credential: string, revision: nat) {
    exists transition :: transition in transitions && transition.Refuses(credential, revision)
  }

  /** However long the history and whatever its order, a credential is refused at a revision exactly when
      the caps it started from refuse it or some transition caps it at or below that revision. */
  lemma {:induction false} RefusedExactlyWhenCapped(caps: Caps, transitions: seq<Transition>, credential: string,
                                                    revision: nat)
    ensures IsCompromisedAt(AfterAll(caps, transitions), credential, revision)
       <==> IsCompromisedAt(caps, credential, revision) || SomeRefuses(transitions, credential, revision)
    ensures OnePerCredential(caps) ==> OnePerCredential(AfterAll(caps, transitions))
    decreases |transitions|
  {
    if transitions != [] {
      var after := WithCompromise(caps, transitions[0]);
      WithCompromiseRefuses(caps, transitions[0], credential, revision);
      RefusedExactlyWhenCapped(after, transitions[1..], credential, revision);
      assert transitions == [transitions[0]] + transitions[1..];
      if SomeRefuses(transitions[1..], credential, revision) {
        var transition :| transition in transitions[1..] && transition.Refuses(credential, revision);
        assert transition in transitions;
      }
    }
  }

  ghost predicate SameRefusals(caps: Caps, other: Caps) {
    forall credential, revision: nat ::
      IsCompromisedAt(caps, credential, revision) <==> IsCompromisedAt(other, credential, revision)
  }

  /** The order in which transitions are replayed, and how often one repeats, never changes what is refused. */
  lemma RefusalsIgnoreOrder(caps: Caps, transitions: seq<Transition>, other: seq<Transition>)
    requires forall transition :: transition in transitions <==> transition in other
    ensures SameRefusals(AfterAll(caps, transitions), AfterAll(caps, other))
  {
    forall credential, revision: nat
      ensures IsCompromisedAt(AfterAll(caps, transitions), credential, revision)
         <==> IsCompromisedAt(AfterAll(caps, other), credential, revision)
    {
      RefusedExactlyWhenCapped(caps, transitions, credential, revision);
      RefusedExactlyWhenCapped(caps, other, credential, revision);
    }
  }

  // ---- Never loosening ----

  ghost predicate RefusesAtLeast(next: Caps, caps: Caps) {
    forall credential, revision: nat ::
      IsCompromisedAt(caps, credential, revision) ==> IsCompromisedAt(next, credential, revision)
  }

  lemma ItsOwnCap(caps: Caps, cap: Compromise)
    requires OnePerCredential(caps) && cap in caps
    ensures IndexOf(caps, cap.credential) < |caps| && caps[IndexOf(caps, cap.credential)] == cap
  {
    var i :| 0 <= i < |caps| && caps[i] == cap;
    FirstIsTheIndex(caps, cap.credential, i);
  }

  /** Comparing at each cap's own revision decides the comparison at every revision. */
  lemma NotLoosenedMeansRefusesAtLeast(caps: Caps, next: Caps)
    requires OnePerCredential(caps)
    ensures IsNotLoosenedBy(caps, next) <==> RefusesAtLeast(next, caps)
  {
    if IsNotLoosenedBy(caps, next) {
      forall credential, revision: nat | IsCompromisedAt(caps, credential, revision)
        ensures IsCompromisedAt(next, credential, revision)
      {
        var cap := caps[IndexOf(caps, credential)];
        assert cap in caps && IsCompromisedAt(next, cap.credential, cap.since);
      }
    }
    if RefusesAtLeast(next, caps) {
      forall cap | cap in caps ensures IsCompromisedAt(next, cap.credential, cap.since) {
        ItsOwnCap(caps, cap);
        assert IsCompromisedAt(caps, cap.credential, cap.since);
      }
    }
  }

  /** Never loosening is reflexive and chains. */
  lemma NeverLooseningIsPreorder(a: Caps, b: Caps, c: Caps)
    requires OnePerCredential(a) && OnePerCredential(b)
    ensures IsNotLoosenedBy(a, a)
    ensures IsNotLoosenedBy(a, b) && IsNotLoosenedBy(b, c) ==> IsNotLoosenedBy(a, c)
  {
    NotLoosenedMeansRefusesAtLeast(a, a);
    NotLoosenedMeansRefusesAtLeast(a, b);
    NotLoosenedMeansRefusesAtLeast(b, c);
    NotLoosenedMeansRefusesAtLeast(a, c);
  }

  /** No transition ever loosens a cap. */
  lemma TransitionsNeverLoosen(caps: Caps, transition: Transition)
    requires OnePerCredential(caps)
    ensures IsNotLoosenedBy(caps, WithCompromise(caps, transition))
  {
    forall credential, revision: nat | IsCompromisedAt(caps, credential, revision)
      ensures IsCompromisedAt(WithCompromise(caps, transition), credential, revision)
    {
      WithCompromiseRefuses(caps, transition, credential, revision);
    }
    NotLoosenedMeansRefusesAtLeast(caps, WithCompromise(caps, transition));
  }

  // ---- Carrying caps across a recovery ----

  /** A recovery's own list caps no credential twice. */
  lemma CarriedHoldsOnePerCredential(recovery: Transition)
    requires recovery.Valid()
    ensures OnePerCredential(recovery.Carried())
  {
    CarriedAscends(recovery);
    forall i, j | 0 <= i < j < |recovery.Carried()|
      ensures recovery.Carried()[i].credential != recovery.Carried()[j].credential
    {
      LessIsIrreflexive(recovery.Carried()[i].credential);
    }
  }

  lemma SameEntriesSameRefusals(caps: Caps, other: Caps)
    requires OnePerCredential(caps) && OnePerCredential(other)
    ensures (forall cap :: cap in caps <==> cap in other) <==> SameRefusals(caps, other)
  {
    if forall cap :: cap in caps <==> cap in other {
      forall cap | cap in caps ensures IsCompromisedAt(other, cap.credential, cap.since) {
        ItsOwnCap(other, cap);
      }
      forall cap | cap in other ensures IsCompromisedAt(caps, cap.credential, cap.since) {
        ItsOwnCap(caps, cap);
      }
      NotLoosenedMeansRefusesAtLeast(caps, other);
      NotLoosenedMeansRefusesAtLeast(other, caps);
    }
    if SameRefusals(caps, other) {
      forall cap ensures cap in caps <==> cap in other {
        if cap in caps {
          RefusedAlike(caps, other, cap);
        }
        if cap in other {
          RefusedAlike(other, caps, cap);
        }
      }
    }
  }

  lemma RefusedAlike(caps: Caps, other: Caps, cap: Compromise)
    requires OnePerCredential(caps) && OnePerCredential(other) && SameRefusals(caps, other) && cap in caps
    ensures cap in other
  {
    ItsOwnCap(caps, cap);
    assert IsCompromisedAt(other, cap.credential, cap.since);
    var matching := other[IndexOf(other, cap.credential)];
    ItsOwnCap(other, matching);
    assert IsCompromisedAt(other, cap.credential, matching.since);
    assert IsCompromisedAt(caps, cap.credential, matching.since);
    assert matching == cap;
  }

  /** A recovery is accepted exactly when it refuses the same credentials from the same revisions. */
  lemma CarriedExactlyWhenRefusingTheSame(caps: Caps, recovery: Transition)
    requires OnePerCredential(caps) && recovery.Valid()
    ensures IsCarriedBy(caps, recovery) <==> SameRefusals(caps, recovery.Carried())
  {
    var carried := recovery.Carried();
    CarriedHoldsOnePerCredential(recovery);
    SameEntriesSameRefusals(caps, carried);
    assert Distinct(caps) && Distinct(carried);
    DistinctSetSize(caps);
    DistinctSetSize(carried);
    var mine, theirs := set cap | cap in caps, set cap | cap in carried;
    if IsCarriedBy(caps, recovery) {
      SameSizeSubset(theirs, mine);
      assert forall cap :: cap in caps <==> cap in mine;
      assert forall cap :: cap in carried <==> cap in theirs;
    }
    if SameRefusals(caps, carried) {
      assert forall cap :: cap in caps <==> cap in carried;
      assert mine == theirs;
    }
  }

  lemma SameSizeSubset<T>(part: set<T>, whole: set<T>)
    requires part <= whole && |part| == |whole|
    ensures part == whole
  {
    assert whole == part + (whole - part);
    assert |whole - part| == 0;
  }
}
