/** Replicated records that embed a signed proof: which of two wins, so that every replica folds the records
    it receives into the same one. */
module PublicMutationRecord {
  import opened Wrappers
  import opened CodeUnitOrder

  /** A proof, by the sequence it claims and the digest of the whole of it. */
  datatype Proof = Proof(sequence: nat, digest: string)

  /** A record with its proof, when it carries one that decodes. */
  datatype Record = Record(payload: string, proof: Option<Proof>)

  predicate SameDigest(x: Record, y: Record) {
    x.proof.Some? && y.proof.Some? && x.proof.value.digest == y.proof.value.digest
  }

  /** Two proofs with one digest are one proof, so the digest stands for all the rest of it. */
  ghost predicate DigestsIdentify(records: seq<Record>) {
    forall x, y :: (x in records && y in records && SameDigest(x, y)) ==> x.proof == y.proof
  }

  predicate WinsOver(a: Proof, b: Proof) {
    if a.sequence != b.sequence then a.sequence > b.sequence else Less(a.digest, b.digest)
  }

  /** Whether the candidate may replace the current record; nothing when neither carries a proof. */
  function Replaces(current: Record, candidate: Record): Option<bool> {
    if current.proof.None? && candidate.proof.None? then None
    else if current.proof.None? then Some(true)
    else if candidate.proof.None? then Some(false)
    else Some(!WinsOver(current.proof.value, candidate.proof.value))
  }

  // ---- The order ----

  /** The higher sequence wins, and of one sequence the smaller digest; of two proofs with different digests
      exactly one wins, and winning chains. */
  lemma WinningIsStrictTotalOrder(a: Proof, b: Proof, c: Proof)
    ensures a.sequence > b.sequence ==> WinsOver(a, b)
    ensures a.sequence == b.sequence && Less(a.digest, b.digest) ==> WinsOver(a, b)
    ensures !WinsOver(a, a)
    ensures a.digest != b.digest ==> WinsOver(a, b) != WinsOver(b, a)
    ensures WinsOver(a, b) && WinsOver(b, c) ==> WinsOver(a, c)
  {
    LessIsIrreflexive(a.digest);
    LessIsTotal(a.digest, b.digest);
    if Less(a.digest, b.digest) {
      LessIsAsymmetric(a.digest, b.digest);
    }
    if Less(a.digest, b.digest) && Less(b.digest, c.digest) {
      LessIsTransitive(a.digest, b.digest, c.digest);
    }
  }

  /** What is not beaten by a winner is not beaten by what the winner beats or ties with. */
  lemma NotBeatenChains(a: Proof, b: Proof, c: Proof)
    requires !WinsOver(a, b) && !WinsOver(b, c)
    ensures !WinsOver(a, c)
  {
    LessIsTotal(a.digest, b.digest);
    if a.sequence == b.sequence == c.sequence && Less(a.digest, c.digest) && a.digest != b.digest {
      LessIsTransitive(b.digest, a.digest, c.digest);
    }
  }

  // ---- Folding what arrives ----

  /** A replica's current record after each of the others reaches it. `unsigned` is the caller's own rule
      between two records without proofs. */
  function Fold(current: Record, arriving: seq<Record>, unsigned: (Record, Record) -> bool): Record
    decreases |arriving|
  {
    if arriving == [] then current else
      var replaced := Replaces(current, arriving[0]);
      var wins := if replaced.Some? then replaced.value else unsigned(current, arriving[0]);
      Fold(if wins then arriving[0] else current, arriving[1..], unsigned)
  }

  /** A higher sequence comes first, and of one sequence the smaller digest in code-unit order. */
  ghost predicate ComesFirst(a: Proof, b: Proof) {
    a.sequence > b.sequence || (a.sequence == b.sequence && Less(a.digest, b.digest))
  }

  /** The proof of one of the records that none of the others comes before; none when none is signed. */
  ghost predicate IsStrongest(proof: Option<Proof>, records: seq<Record>) {
    match proof
    case None => forall record :: record in records ==> record.proof.None?
    case Some(strongest) =>
      && (exists record :: record in records && record.proof == proof)
      && (forall record :: record in records && record.proof.Some? ==> !ComesFirst(record.proof.value, strongest))
  }

  lemma StrongestIsOne(x: Option<Proof>, y: Option<Proof>, records: seq<Record>)
    requires DigestsIdentify(records) && IsStrongest(x, records) && IsStrongest(y, records)
    ensures x == y
  {
    if x.Some? && y.Some? {
      var mine :| mine in records && mine.proof == x;
      var theirs :| theirs in records && theirs.proof == y;
      assert SameDigest(mine, theirs) ==> x == y;
      WinningIsStrictTotalOrder(x.value, y.value, y.value);
    }
  }

  /** The fold ends on the strongest proof of all. */
  lemma {:induction false} FoldEndsOnStrongest(current: Record, arriving: seq<Record>,
                                               unsigned: (Record, Record) -> bool)
    ensures IsStrongest(Fold(current, arriving, unsigned).proof, [current] + arriving)
    decreases |arriving|
  {
    if arriving == [] {
      if current.proof.Some? {
        WinningIsStrictTotalOrder(current.proof.value, current.proof.value, current.proof.value);
        assert current in [current] + arriving;
      }
    } else {
      var next, rest := arriving[0], arriving[1..];
      var replaced := Replaces(current, next);
      var wins := if replaced.Some? then replaced.value else unsigned(current, next);
      var kept, dropped := if wins then next else current, if wins then current else next;
      FoldEndsOnStrongest(kept, rest, unsigned);
      if current.proof.Some? && next.proof.Some? {
        WinningIsStrictTotalOrder(current.proof.value, next.proof.value, current.proof.value);
      }
      var end := Fold(current, arriving, unsigned).proof;
      KeptIsNotWeaker(kept, dropped, rest, end);
      assert forall record :: record in [current] + arriving <==> record in [kept] + rest || record == dropped;
    }
  }

  lemma KeptIsNotWeaker(kept: Record, dropped: Record, rest: seq<Record>, end: Option<Proof>)
    requires IsStrongest(end, [kept] + rest)
    requires dropped.proof.Some? ==> kept.proof.Some? && !ComesFirst(dropped.proof.value, kept.proof.value)
    ensures dropped.proof.Some? ==> end.Some? && !ComesFirst(dropped.proof.value, end.value)
  {
    if dropped.proof.Some? {
      assert kept in [kept] + rest;
      NotBeatenChains(dropped.proof.value, kept.proof.value, end.value);
    }
  }

  /** Replicas that have seen the same records hold the same proof, whatever the order and the repetitions
      in which they arrived, and whatever rule each applies to unsigned ones. */
  lemma ReplicasConverge(mine: Record, arriving: seq<Record>, theirs: Record, others: seq<Record>,
                         unsigned: (Record, Record) -> bool, theirRule: (Record, Record) -> bool)
    requires DigestsIdentify([mine] + arriving)
    requires forall record :: record in [mine] + arriving <==> record in [theirs] + others
    ensures Fold(mine, arriving, unsigned).proof == Fold(theirs, others, theirRule).proof
  {
    FoldEndsOnStrongest(mine, arriving, unsigned);
    FoldEndsOnStrongest(theirs, others, theirRule);
    var end := Fold(theirs, others, theirRule).proof;
    assert IsStrongest(end, [mine] + arriving);
    StrongestIsOne(Fold(mine, arriving, unsigned).proof, end, [mine] + arriving);
  }

  // ---- Refusing stale mutations ----

  datatype Stale = Stale(digest: string, sequence: nat)

  function Strongest(stored: seq<Record>): Option<Proof> {
    if stored == [] then None else
      var best, last := Strongest(stored[..|stored| - 1]), stored[|stored| - 1].proof;
      if last.None? then best
      else if best.None? || WinsOver(last.value, best.value) then last else best
  }

  function AssertNotStale(stored: seq<Record>, candidate: Record): Result<(), Stale> {
    var strongest := Strongest(stored);
    if strongest.Some? && candidate.proof.Some? && WinsOver(strongest.value, candidate.proof.value)
    then Failure(Stale(strongest.value.digest, strongest.value.sequence))
    else Success(())
  }

  lemma {:induction false} StrongestIsStrongest(stored: seq<Record>)
    ensures IsStrongest(Strongest(stored), stored)
  {
    if stored != [] {
      var front, last := stored[..|stored| - 1], stored[|stored| - 1];
      StrongestIsStrongest(front);
      assert stored == front + [last];
      var best, end := Strongest(front), Strongest(stored);
      assert best.Some? ==> exists record :: record in front && record.proof == best;
      if end.Some? {
        WinningIsStrictTotalOrder(end.value, end.value, end.value);
        forall record | record in stored && record.proof.Some? ensures !ComesFirst(record.proof.value, end.value) {
          if best.Some? && last.proof.Some? {
            WinningIsStrictTotalOrder(last.proof.value, best.value, last.proof.value);
            WinningIsStrictTotalOrder(record.proof.value, last.proof.value, best.value);
          }
        }
        assert last in stored;
      }
    }
  }

  ghost predicate Outranks(record: Record, candidate: Record) {
    record.proof.Some? && candidate.proof.Some? && ComesFirst(record.proof.value, candidate.proof.value)
  }

  /** A candidate is refused exactly when it is signed and some stored proof has a higher sequence, or the same
      one and a smaller digest; the refusal names the first of all stored proofs. */
  lemma RefusedExactlyWhenOutranked(stored: seq<Record>, candidate: Record)
    ensures AssertNotStale(stored, candidate).Failure?
       <==> exists record :: record in stored && Outranks(record, candidate)
    ensures candidate.proof.None? ==> AssertNotStale(stored, candidate).Success?
    ensures AssertNotStale(stored, candidate).Failure? ==>
              var stale := AssertNotStale(stored, candidate).error;
              IsStrongest(Some(Proof(stale.sequence, stale.digest)), stored)
  {
    StrongestIsStrongest(stored);
    var strongest := Strongest(stored);
    if strongest.Some? && candidate.proof.Some? {
      var holder :| holder in stored && holder.proof == strongest;
      assert Outranks(holder, candidate) == ComesFirst(strongest.value, candidate.proof.value);
      if !ComesFirst(strongest.value, candidate.proof.value) {
        forall record | record in stored && record.proof.Some?
          ensures !ComesFirst(record.proof.value, candidate.proof.value)
        {
          NotBeatenChains(record.proof.value, strongest.value, candidate.proof.value);
        }
      }
    }
  }

  /** A signed candidate passes exactly when, folded after everything stored, it is the one that stays. */
  lemma PassesExactlyWhenItStays(current: Record, stored: seq<Record>, candidate: Record,
                                 unsigned: (Record, Record) -> bool)
    requires candidate.proof.Some? && DigestsIdentify([current] + stored + [candidate])
    ensures AssertNotStale([current] + stored, candidate).Success?
       <==> Fold(current, stored + [candidate], unsigned).proof == candidate.proof
  {
    var all := [current] + (stored + [candidate]);
    assert all == [current] + stored + [candidate];
    assert candidate in all;
    FoldEndsOnStrongest(current, stored + [candidate], unsigned);
    RefusedExactlyWhenOutranked([current] + stored, candidate);
    if AssertNotStale([current] + stored, candidate).Success? {
      WinningIsStrictTotalOrder(candidate.proof.value, candidate.proof.value, candidate.proof.value);
      forall record | record in all && record.proof.Some?
        ensures !ComesFirst(record.proof.value, candidate.proof.value)
      {
        assert record in [current] + stored || record == candidate;
        assert record in [current] + stored ==> !Outranks(record, candidate);
      }
      assert IsStrongest(candidate.proof, all);
      StrongestIsOne(candidate.proof, Fold(current, stored + [candidate], unsigned).proof, all);
    }
  }
}
