/** One signed step of an identity's device history, and the shape every such step must have. */
module DeviceAuthorizationTransition {
  import opened Wrappers
  import opened CodeUnitOrder

  const MAX_COMPROMISED_CREDENTIALS := 32

  datatype Operation = Enroll | Revoke | Recover

  /** A credential and the first revision at which it is no longer trusted. */
  datatype Compromise = Compromise(credential: string, since: nat)

  /** `signers` are the keys the signature verifies under, and `provesTarget` says whether the proof of
      possession verifies under the target credential. */
  datatype Transition = Transition(
    identityId: string,
    operation: Operation,
    operationId: string,
    previousRevision: nat,
    epoch: string,
    target: string,
    author: Option<string>,
    pairingId: Option<string>,
    compromisedSince: Option<nat>,
    compromisedCredentials: Option<seq<Compromise>>,
    signers: set<string>,
    provesTarget: bool)
  {
    /** The caps a recovery carries forward. */
    function Carried(): seq<Compromise> {
      if compromisedCredentials.Some? then compromisedCredentials.value else []
    }

    predicate HasValidCompromiseRevision() {
      compromisedSince.Some? ==> compromisedSince.value <= previousRevision
    }

    predicate HasValidOperationShape() {
      match operation
      case Enroll => author.Some? && pairingId.Some? && compromisedSince.None?
      case Revoke => author.Some? && pairingId.None? && HasValidCompromiseRevision()
      case Recover => compromisedSince.None? && author.None? && pairingId.None?
    }

    predicate HasValidCompromisedCredentials() {
      compromisedCredentials.Some? ==>
        var entries := compromisedCredentials.value;
        && operation.Recover?
        && 0 < |entries| <= MAX_COMPROMISED_CREDENTIALS
        && (forall i :: 0 <= i < |entries| ==>
              && entries[i].since <= previousRevision
              && (i == 0 || Less(entries[i - 1].credential, entries[i].credential)))
    }

    /** What the constructor asserts. */
    predicate Valid() {
      HasValidOperationShape() && HasValidCompromisedCredentials()
    }

    predicate HasSameEffectAs(other: Transition) {
      && operation == other.operation
      && previousRevision == other.previousRevision
      && target == other.target
      && compromisedSince == other.compromisedSince
    }

    /** Whether the transition itself caps the credential at or below the revision. */
    predicate Refuses(credential: string, revision: nat) {
      || Compromised(Carried(), credential, revision)
      || (operation.Revoke? && compromisedSince.Some? && target == credential && compromisedSince.value <= revision)
    }
  }

  predicate Compromised(entries: seq<Compromise>, credential: string, revision: nat) {
    exists entry | entry in entries :: entry.credential == credential && entry.since <= revision
  }

  ghost predicate StrictlyAscending(entries: seq<Compromise>) {
    forall i, j :: 0 <= i < j < |entries| ==> Less(entries[i].credential, entries[j].credential)
  }

  /** The neighbours the constructor compares put the whole carried list in strictly ascending order. */
  lemma {:induction false} CarriedAscends(transition: Transition)
    requires transition.Valid()
    ensures StrictlyAscending(transition.Carried())
  {
    var entries := transition.Carried();
    forall i, j | 0 <= i < j < |entries| ensures Less(entries[i].credential, entries[j].credential) {
      NeighboursChain(entries, i, j);
    }
  }

  lemma {:induction false} NeighboursChain(entries: seq<Compromise>, i: nat, j: nat)
    requires i < j < |entries|
    requires forall k :: 0 < k < |entries| ==> Less(entries[k - 1].credential, entries[k].credential)
    ensures Less(entries[i].credential, entries[j].credential)
  {
    if i + 1 < j {
      NeighboursChain(entries, i, j - 1);
      LessIsTransitive(entries[i].credential, entries[j - 1].credential, entries[j].credential);
    }
  }

  /** The list a recovery may carry: 1 to 32 credentials in strictly ascending order, each capped no later than
      the revision the recovery was made at. */
  ghost predicate MayBeCarried(entries: seq<Compromise>, revision: nat) {
    && 1 <= |entries| <= 32
    && StrictlyAscending(entries)
    && forall entry :: entry in entries ==> entry.since <= revision
  }

  /** A transition is well formed exactly when an enrollment has an author and a pairing and caps nothing, a
      revocation has an author, no pairing and caps no later than it was made, a recovery has neither, and only
      a recovery carries a list, and one that may be carried. */
  lemma ValidExactly(transition: Transition)
    ensures transition.Valid() <==>
              && (transition.author.Some? <==> transition.operation != Recover)
              && (transition.pairingId.Some? <==> transition.operation == Enroll)
              && (transition.compromisedSince.Some? ==>
                    transition.operation == Revoke && transition.compromisedSince.value <= transition.previousRevision)
              && (transition.compromisedCredentials.Some? ==>
                    && transition.operation == Recover
                    && MayBeCarried(transition.compromisedCredentials.value, transition.previousRevision))
  {
    if transition.Valid() {
      CarriedAscends(transition);
    }
    if transition.compromisedCredentials.Some? {
      var entries := transition.compromisedCredentials.value;
      assert forall i :: 0 <= i < |entries| ==> entries[i] in entries;
    }
  }

  /** Only revocations and recoveries can cap a credential, and never above the revision they were made at. */
  lemma ValidRefusalsReachBack(transition: Transition, credential: string)
    requires transition.Valid()
    requires exists revision :: transition.Refuses(credential, revision)
    ensures !transition.operation.Enroll? && transition.Refuses(credential, transition.previousRevision)
  {
    var revision :| transition.Refuses(credential, revision);
    if Compromised(transition.Carried(), credential, revision) {
      var entry :| entry in transition.Carried() && entry.credential == credential && entry.since <= revision;
      assert entry.since <= transition.previousRevision;
      assert Compromised(transition.Carried(), credential, transition.previousRevision);
    }
  }
}
