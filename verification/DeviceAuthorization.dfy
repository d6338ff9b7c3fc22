/** Which device credentials act for an identity at one revision, and the operations that lead to the next. */
module DeviceAuthorization {
  import opened Wrappers
  import opened Sequences
  import opened StableSort
  import opened CodeUnitOrder

  const MAX_DEVICE_CREDENTIALS := 128
  const MAX_SAFE_REVISION := 9_007_199_254_740_991

  datatype Error = InvalidTransition

  /** An identity id stands for its own public key; the credentials never repeat. */
  datatype Authorization = Authorization(
    identityId: string,
    networkIds: seq<string>,
    recoveryAuthority: string,
    revision: nat,
    epoch: string,
    credentials: seq<string>)
  {
    /** What the constructor asserts. */
    predicate Legal() {
      && networkIds != []
      && |credentials| <= MAX_DEVICE_CREDENTIALS
      && recoveryAuthority != identityId
      && recoveryAuthority !in credentials
      && revision <= MAX_SAFE_REVISION
    }

    ghost predicate Valid() {
      Legal() && Distinct(credentials)
    }

    function IsAuthorized(credential: string): bool {
      credential in credentials
    }

    function Room(): int {
      MAX_DEVICE_CREDENTIALS - |credentials|
    }

    /** The constructor, for this identity at another revision. */
    function Build(revision: nat, epoch: string, credentials: seq<string>): (next: Result<Authorization, Error>)
      ensures next.Success? ==> next.value.Legal() && next.value.revision == revision
    {
      var next := this.(revision := revision, epoch := epoch, credentials := WithoutRepeats(credentials));
      if next.Legal() then Success(next) else Failure(InvalidTransition)
    }

    function Enroll(credential: string): Result<Authorization, Error> {
      if IsAuthorized(credential) then Failure(InvalidTransition)
      else Build(revision + 1, epoch, credentials + [credential])
    }

    /** The credentials a concurrent enrollment adds: the new ones in order, as far as there is room. */
    function Chosen(offered: seq<string>): seq<string>
      requires Legal()
    {
      Take(Sort(AtMost, NewAmong(credentials, offered)), Room())
    }

    function EnrollConcurrently(offered: seq<string>): Result<Authorization, Error>
      requires Legal()
    {
      var chosen := Chosen(offered);
      if chosen == [] then Failure(InvalidTransition) else Build(revision + 1, epoch, credentials + chosen)
    }

    function Revoke(credential: string): Result<Authorization, Error> {
      if !(IsAuthorized(credential) && |credentials| > 1) then Failure(InvalidTransition)
      else Build(revision + 1, epoch, Without(credentials, [credential]))
    }

    /** The credentials left by a concurrent revocation: never none while there were some. */
    function Survivors(revoked: seq<string>): seq<string> {
      var remaining := Without(credentials, revoked);
      if remaining != [] then remaining else Take(Sort(AtMost, credentials), 1)
    }

    function RevokeConcurrently(offered: seq<string>): Result<Authorization, Error> {
      var revoked := Among(credentials, offered);
      if revoked == [] then Failure(InvalidTransition) else Build(revision + 1, epoch, Survivors(revoked))
    }

    function Recover(credential: string, epoch: string): Result<Authorization, Error> {
      Build(revision + 1, epoch, [credential])
    }

    function RecoverAt(revision: nat, credential: string, epoch: string): Result<Authorization, Error> {
      if revision <= this.revision then Failure(InvalidTransition) else Build(revision, epoch, [credential])
    }

    function RequireRecoveryAt(revision: nat): Result<Authorization, Error> {
      if revision <= this.revision then Failure(InvalidTransition) else Build(revision, epoch, [])
    }
  }

  function Take(s: seq<string>, n: nat): seq<string> {
    if |s| <= n then s else s[..n]
  }

  function Among(credentials: seq<string>, offered: seq<string>): seq<string> {
    Filter((credential: string) => credential in credentials, offered)
  }

  function NewAmong(credentials: seq<string>, offered: seq<string>): seq<string> {
    Filter((credential: string) => credential !in credentials, WithoutRepeats(offered))
  }

  function Without(credentials: seq<string>, revoked: seq<string>): seq<string> {
    Filter((credential: string) => credential !in revoked, credentials)
  }

  // ---- The parts ----

  lemma CodeUnitOrderSorts(s: seq<string>)
    ensures TotalPreorder(AtMost) && NoTies(AtMost, s)
  {
    LessIsStrictTotalOrder();
  }

  lemma {:induction false} DistinctHasNoRepeats(s: seq<string>)
    requires Distinct(s)
    ensures WithoutRepeats(s) == s
  {
    if s != [] {
      var front := s[..|s| - 1];
      DistinctHasNoRepeats(front);
      assert s == front + [s[|s| - 1]];
    }
  }

  lemma DistinctTogether(front: seq<string>, back: seq<string>)
    requires Distinct(front) && Distinct(back) && forall c :: c in back ==> c !in front
    ensures Distinct(front + back)
  {
    forall i, j | 0 <= i < j < |front + back| ensures (front + back)[i] != (front + back)[j] {
      if i < |front| <= j {
        assert (front + back)[j] == back[j - |front|] && back[j - |front|] in back;
        assert front[i] in front;
      }
    }
  }

  lemma NewAmongHolds(credentials: seq<string>, offered: seq<string>)
    ensures Distinct(NewAmong(credentials, offered))
    ensures forall credential :: credential in NewAmong(credentials, offered)
                            <==> credential in offered && credential !in credentials
  {
    WithoutRepeatsHolds(offered);
    var isNew := (credential: string) => credential !in credentials;
    FilterMembers(isNew, WithoutRepeats(offered));
    FilterKeepsDistinct(isNew, WithoutRepeats(offered));
  }

  lemma WithoutHolds(credentials: seq<string>, revoked: seq<string>)
    ensures forall credential :: credential in Without(credentials, revoked)
                            <==> credential in credentials && credential !in revoked
    ensures |Without(credentials, revoked)| <= |credentials|
    ensures Distinct(credentials) ==> Distinct(Without(credentials, revoked))
  {
    var stays := (credential: string) => credential !in revoked;
    FilterMembers(stays, credentials);
    if Distinct(credentials) {
      FilterKeepsDistinct(stays, credentials);
    }
  }

  lemma AmongHolds(credentials: seq<string>, offered: seq<string>)
    ensures forall credential :: credential in Among(credentials, offered)
                            <==> credential in credentials && credential in offered
  {
    FilterMembers((credential: string) => credential in credentials, offered);
  }

  /** The sorted list of a set of credentials. */
  lemma SortedHolds(s: seq<string>)
    requires Distinct(s)
    ensures Distinct(Sort(AtMost, s)) && |Sort(AtMost, s)| == |s|
    ensures forall x :: x in Sort(AtMost, s) <==> x in s
    ensures SortedBy(AtMost, Sort(AtMost, s))
  {
    CodeUnitOrderSorts(s);
    SortIsSorted(AtMost, s);
    SortIsPermutation(AtMost, s);
    var sorted := Sort(AtMost, s);
    forall i, j | 0 <= i < j < |sorted| ensures sorted[i] != sorted[j] {
      if sorted[i] == sorted[j] {
        TwiceInSorted(sorted, i, j);
        DistinctCounts(s, sorted[i]);
      }
    }
  }

  lemma TwiceInSorted(s: seq<string>, i: nat, j: nat)
    requires i < j < |s| && s[i] == s[j]
    ensures multiset(s)[s[i]] >= 2
  {
    assert s == s[..i] + [s[i]] + s[i + 1..j] + [s[j]] + s[j + 1..];
  }

  // ---- Concurrent enrollment ----

  /** Exactly the smallest new credentials are added, as many as there is room for. */
  lemma ChosenAreTheSmallestNew(a: Authorization, offered: seq<string>)
    requires a.Legal()
    ensures Distinct(a.Chosen(offered)) && |a.Chosen(offered)| <= a.Room()
    ensures forall c :: c in a.Chosen(offered) ==> c in offered && !a.IsAuthorized(c)
    ensures forall c :: (c in offered && !a.IsAuthorized(c) && c !in a.Chosen(offered)) ==>
              && |a.Chosen(offered)| == a.Room()
              && forall d :: d in a.Chosen(offered) ==> Less(d, c)
  {
    var unheld := NewAmong(a.credentials, offered);
    NewAmongHolds(a.credentials, offered);
    SortedHolds(unheld);
    var sorted := Sort(AtMost, unheld);
    var chosen := a.Chosen(offered);
    assert chosen <= sorted;
    forall c | c in offered && !a.IsAuthorized(c) && c !in chosen
      ensures |chosen| == a.Room() && forall d :: d in chosen ==> Less(d, c)
    {
      assert c in sorted;
      LeftOutIsLarger(sorted, |chosen|, c);
    }
  }

  lemma LeftOutIsLarger(sorted: seq<string>, n: nat, c: string)
    requires SortedBy(AtMost, sorted) && n <= |sorted| && c in sorted && c !in sorted[..n]
    ensures forall d :: d in sorted[..n] ==> Less(d, c)
  {
    var k :| 0 <= k < |sorted| && sorted[k] == c;
    forall i | 0 <= i < n ensures sorted[i] != c {
      assert sorted[..n][i] == sorted[i];
    }
    forall d | d in sorted[..n] ensures Less(d, c) {
      var i :| 0 <= i < n && sorted[..n][i] == d;
      assert AtMost(sorted[i], sorted[k]);
      LessIsTotal(d, c);
    }
  }

  /** The same holders, whatever the order their credentials are kept in. */
  ghost predicate SameHolders(a: Authorization, b: Authorization) {
    && a.(credentials := []) == b.(credentials := [])
    && forall c :: a.IsAuthorized(c) <==> b.IsAuthorized(c)
  }

  lemma HeldAlike(a: Authorization, b: Authorization)
    requires a.Valid() && b.Valid() && SameHolders(a, b)
    ensures forall c :: c in a.credentials <==> c in b.credentials
    ensures |a.credentials| == |b.credentials| && Sort(AtMost, a.credentials) == Sort(AtMost, b.credentials)
  {
    forall c ensures c in a.credentials <==> c in b.credentials {
      assert a.IsAuthorized(c) <==> b.IsAuthorized(c);
    }
    DistinctPermutation(a.credentials, b.credentials);
    SameSetSortsAlike(a.credentials, b.credentials);
  }

  ghost predicate SameOutcome(x: Result<Authorization, Error>, y: Result<Authorization, Error>) {
    && (x.Success? <==> y.Success?)
    && (x.Success? ==> SameHolders(x.value, y.value))
  }

  lemma SameBuild(a: Authorization, b: Authorization, revision: nat, epoch: string, these: seq<string>,
                  those: seq<string>)
    requires a.(credentials := []) == b.(credentials := [])
    requires forall c :: c in these <==> c in those
    ensures SameOutcome(a.Build(revision, epoch, these), b.Build(revision, epoch, those))
  {
    WithoutRepeatsHolds(these);
    WithoutRepeatsHolds(those);
    DistinctPermutation(WithoutRepeats(these), WithoutRepeats(those));
  }

  /** The outcome depends only on the set of credentials held and the set offered, not on either order. */
  lemma ConcurrentEnrollmentIgnoresOrder(a: Authorization, b: Authorization, offered: seq<string>, other: seq<string>)
    requires a.Valid() && b.Valid() && SameHolders(a, b) && forall c :: c in offered <==> c in other
    ensures a.Chosen(offered) == b.Chosen(other)
    ensures SameOutcome(a.EnrollConcurrently(offered), b.EnrollConcurrently(other))
  {
    HeldAlike(a, b);
    var these, those := NewAmong(a.credentials, offered), NewAmong(b.credentials, other);
    NewAmongHolds(a.credentials, offered);
    NewAmongHolds(b.credentials, other);
    SameSetSortsAlike(these, those);
    SameBuild(a, b, a.revision + 1, a.epoch, a.credentials + a.Chosen(offered), b.credentials + b.Chosen(other));
  }

  lemma SameSetSortsAlike(these: seq<string>, those: seq<string>)
    requires Distinct(these) && Distinct(those) && forall c :: c in these <==> c in those
    ensures Sort(AtMost, these) == Sort(AtMost, those)
  {
    DistinctPermutation(these, those);
    SortIsPermutation(AtMost, these);
    SortIsPermutation(AtMost, those);
    CodeUnitOrderSorts(Sort(AtMost, these));
    SortIsSorted(AtMost, these);
    SortIsSorted(AtMost, those);
    SortedTogether(AtMost, Sort(AtMost, these), Sort(AtMost, those));
  }

  /** A concurrent enrollment fails only when it adds nothing, would enroll the recovery authority, or has
      no revision left; otherwise it adds the chosen credentials and keeps every one already held. */
  lemma ConcurrentEnrollmentAdds(a: Authorization, offered: seq<string>)
    requires a.Valid()
    ensures var next := a.EnrollConcurrently(offered);
            && (next.Success? <==> && a.Chosen(offered) != []
                                   && a.recoveryAuthority !in a.Chosen(offered)
                                   && a.revision < MAX_SAFE_REVISION)
            && (next.Success? ==>
                  && next.value.Valid()
                  && next.value == a.(revision := a.revision + 1, credentials := a.credentials + a.Chosen(offered)))
  {
    ChosenAreTheSmallestNew(a, offered);
    DistinctTogether(a.credentials, a.Chosen(offered));
    DistinctHasNoRepeats(a.credentials + a.Chosen(offered));
  }

  // ---- Concurrent revocation ----

  /** The last device is never revoked: of all of them, the smallest stays. */
  lemma SurvivorsHold(a: Authorization, offered: seq<string>)
    requires a.Valid() && a.credentials != []
    ensures var survivors := a.Survivors(Among(a.credentials, offered));
            && Distinct(survivors) && survivors != [] && |survivors| <= |a.credentials|
            && (forall c :: c in survivors ==> a.IsAuthorized(c))
            && if exists c :: a.IsAuthorized(c) && c !in offered
               then (forall c :: c in survivors <==> a.IsAuthorized(c) && c !in offered)
               else |survivors| == 1 && forall c :: a.IsAuthorized(c) ==> AtMost(survivors[0], c)
  {
    var revoked := Among(a.credentials, offered);
    AmongHolds(a.credentials, offered);
    WithoutHolds(a.credentials, revoked);
    SortedHolds(a.credentials);
    var remaining := Without(a.credentials, revoked);
    if remaining == [] {
      forall c | a.IsAuthorized(c) ensures AtMost(Sort(AtMost, a.credentials)[0], c) {
        CodeUnitOrderSorts(a.credentials);
        HeadIsLeast(AtMost, Sort(AtMost, a.credentials), c);
      }
      assert forall c :: a.IsAuthorized(c) ==> c !in remaining;
    } else {
      assert remaining[0] in remaining;
    }
  }

  lemma ConcurrentRevocationKeepsSome(a: Authorization, offered: seq<string>)
    requires a.Valid()
    ensures var next := a.RevokeConcurrently(offered);
            && (next.Success? <==> && (exists c :: c in offered && a.IsAuthorized(c))
                                   && a.revision < MAX_SAFE_REVISION)
            && (next.Success? ==>
                  && next.value.Valid() && next.value.credentials != []
                  && next.value == a.(revision := a.revision + 1,
                                      credentials := a.Survivors(Among(a.credentials, offered))))
  {
    var revoked := Among(a.credentials, offered);
    AmongHolds(a.credentials, offered);
    assert forall c :: c in offered && a.IsAuthorized(c) ==> c in revoked;
    if revoked != [] {
      assert revoked[0] in offered && a.IsAuthorized(revoked[0]);
      SurvivorsHold(a, offered);
      DistinctHasNoRepeats(a.Survivors(revoked));
    }
  }

  lemma RevokedAlike(a: Authorization, b: Authorization, offered: seq<string>, other: seq<string>)
    requires a.Valid() && b.Valid() && SameHolders(a, b) && forall c :: c in offered <==> c in other
    ensures forall c :: c in Among(a.credentials, offered) <==> c in Among(b.credentials, other)
  {
    HeldAlike(a, b);
    AmongHolds(a.credentials, offered);
    AmongHolds(b.credentials, other);
  }

  lemma SurviveAlike(a: Authorization, b: Authorization, revoked: seq<string>, other: seq<string>)
    requires a.Valid() && b.Valid() && SameHolders(a, b) && forall c :: c in revoked <==> c in other
    ensures forall c :: c in a.Survivors(revoked) <==> c in b.Survivors(other)
  {
    HeldAlike(a, b);
    WithoutHolds(a.credentials, revoked);
    WithoutHolds(b.credentials, other);
    SameEmptiness(Without(a.credentials, revoked), Without(b.credentials, other));
  }

  lemma ConcurrentRevocationIgnoresOrder(a: Authorization, b: Authorization, offered: seq<string>, other: seq<string>)
    requires a.Valid() && b.Valid() && SameHolders(a, b) && forall c :: c in offered <==> c in other
    ensures SameOutcome(a.RevokeConcurrently(offered), b.RevokeConcurrently(other))
  {
    var these, those := Among(a.credentials, offered), Among(b.credentials, other);
    RevokedAlike(a, b, offered, other);
    SameEmptiness(these, those);
    SurviveAlike(a, b, these, those);
    SameBuild(a, b, a.revision + 1, a.epoch, a.Survivors(these), b.Survivors(those));
  }

  lemma SameEmptiness(these: seq<string>, those: seq<string>)
    requires forall c :: c in these <==> c in those
    ensures these == [] <==> those == []
  {
    assert these != [] ==> these[0] in those;
    assert those != [] ==> those[0] in these;
  }

  // ---- One at a time ----

  /** One device more. */
  lemma EnrollmentAddsOne(a: Authorization, credential: string)
    requires a.Valid()
    ensures var next := a.Enroll(credential);
            && (next.Success? <==> && !a.IsAuthorized(credential) && credential != a.recoveryAuthority
                                   && a.Room() > 0 && a.revision < MAX_SAFE_REVISION)
            && (next.Success? ==>
                  && next.value.Valid()
                  && next.value == a.(revision := a.revision + 1, credentials := a.credentials + [credential]))
  {
    if !a.IsAuthorized(credential) {
      DistinctHasNoRepeats(a.credentials + [credential]);
    }
  }

  lemma LeavesAnother(credentials: seq<string>, credential: string)
    requires Distinct(credentials)
    ensures Distinct(Without(credentials, [credential])) && |Without(credentials, [credential])| <= |credentials|
    ensures forall c :: c in Without(credentials, [credential]) ==> c in credentials
    ensures |credentials| > 1 ==> Without(credentials, [credential]) != []
  {
    WithoutHolds(credentials, [credential]);
    if |credentials| > 1 {
      assert credentials[0] != credentials[1];
      var other := if credentials[0] == credential then credentials[1] else credentials[0];
      assert other in Without(credentials, [credential]);
    }
  }

  /** One device fewer, but never the last. */
  lemma RevocationRemovesOne(a: Authorization, credential: string)
    requires a.Valid()
    ensures var next := a.Revoke(credential);
            && (next.Success? <==> a.IsAuthorized(credential) && |a.credentials| > 1 && a.revision < MAX_SAFE_REVISION)
            && (next.Success? ==>
                  && next.value.Valid() && next.value.credentials != []
                  && next.value == a.(revision := a.revision + 1, credentials := Without(a.credentials, [credential])))
  {
    LeavesAnother(a.credentials, credential);
    DistinctHasNoRepeats(Without(a.credentials, [credential]));
  }

  /** A recovery always leaves exactly its one device, and a required recovery always leaves none. */
  lemma RecoveryLeavesOneDevice(a: Authorization, revision: nat, credential: string, epoch: string)
    requires a.Valid()
    ensures var next := a.RecoverAt(revision, credential, epoch);
            && (next.Success? <==> a.revision < revision <= MAX_SAFE_REVISION && credential != a.recoveryAuthority)
            && (next.Success? ==> next.value == a.(revision := revision, epoch := epoch, credentials := [credential])
                                  && next.value.Valid())
    ensures a.Recover(credential, epoch) == a.RecoverAt(a.revision + 1, credential, epoch)
    ensures var next := a.RequireRecoveryAt(revision);
            && (next.Success? <==> a.revision < revision <= MAX_SAFE_REVISION)
            && (next.Success? ==> next.value == a.(revision := revision, credentials := []) && next.value.Valid())
  {
    DistinctHasNoRepeats([credential]);
  }

  /** A revocation and the enrollment of the same device bring back the same holders, one revision apart each. */
  lemma RevokeUndoesEnroll(a: Authorization, credential: string)
    requires a.Valid() && a.Enroll(credential).Success? && a.credentials != [] && a.revision + 2 <= MAX_SAFE_REVISION
    ensures var back := a.Enroll(credential).value.Revoke(credential);
            back.Success? && back.value == a.(revision := a.revision + 2)
  {
    EnrollmentAddsOne(a, credential);
    var enrolled := a.Enroll(credential).value;
    RevocationRemovesOne(enrolled, credential);
    var stays := (c: string) => c !in [credential];
    FilterAppend(stays, a.credentials, [credential]);
    FilterAll(stays, a.credentials);
    FilterNone(stays, [credential]);
    WithoutHolds(enrolled.credentials, [credential]);
    assert Without(enrolled.credentials, [credential]) == a.credentials;
    DistinctHasNoRepeats(a.credentials);
  }
}
