/** A mailbox: who may read it and how far each has read, what it holds, and how fast it takes appends. */
module Mailbox {
  import opened Wrappers
  import opened Sequences
  import opened StableSort
  import opened AppendBucket

  datatype Limits = Limits(maxAppendsPerMinute: nat, maxBytes: nat, maxEnvelopes: nat, maxReaders: nat)

  /** A stored envelope, known by its cursor and its size. */
  datatype Envelope = Envelope(cursor: nat, size: nat)

  datatype Error = RateLimited | Full | ReaderLimitReached | ReaderNotFound | LastReader | LimitReached

  function Min(a: nat, b: nat): nat { if a > b then b else a }

  function Max(a: nat, b: nat): nat { if a < b then b else a }

  function TotalSize(envelopes: seq<Envelope>): nat {
    if envelopes == [] then 0 else envelopes[0].size + TotalSize(envelopes[1..])
  }

  lemma {:induction false} TotalSizeAppend(envelopes: seq<Envelope>, envelope: Envelope)
    ensures TotalSize(envelopes + [envelope]) == TotalSize(envelopes) + envelope.size
  {
    if envelopes == [] {
      assert envelopes + [envelope] == [envelope];
    } else {
      assert (envelopes + [envelope])[1..] == envelopes[1..] + [envelope];
      TotalSizeAppend(envelopes[1..], envelope);
    }
  }

  /** What is taken out and what is kept hold together what was there. */
  lemma {:induction false} RemovalConserves(envelopes: seq<Envelope>, out: Envelope -> bool, kept: Envelope -> bool)
    requires forall envelope :: out(envelope) != kept(envelope)
    ensures |Filter(out, envelopes)| + |Filter(kept, envelopes)| == |envelopes|
    ensures TotalSize(Filter(out, envelopes)) + TotalSize(Filter(kept, envelopes)) == TotalSize(envelopes)
  {
    if envelopes != [] {
      var first, rest := envelopes[0], envelopes[1..];
      RemovalConserves(rest, out, kept);
      assert ([first] + Filter(out, rest))[1..] == Filter(out, rest);
      assert ([first] + Filter(kept, rest))[1..] == Filter(kept, rest);
      assert Filter(out, envelopes) == if out(first) then [first] + Filter(out, rest) else Filter(out, rest);
      assert Filter(kept, envelopes) == if kept(first) then [first] + Filter(kept, rest) else Filter(kept, rest);
    }
  }

  /** Cursors strictly ascend, all below the next one to be given. */
  ghost predicate Ascend(envelopes: seq<Envelope>, next: nat) {
    && (forall i, j :: 0 <= i < j < |envelopes| ==> envelopes[i].cursor < envelopes[j].cursor)
    && (forall i :: 0 <= i < |envelopes| ==> envelopes[i].cursor < next)
  }

  lemma {:induction false} FilterAscends(keep: Envelope -> bool, envelopes: seq<Envelope>, next: nat)
    requires Ascend(envelopes, next)
    ensures Ascend(Filter(keep, envelopes), next)
  {
    if envelopes != [] {
      FilterAscends(keep, envelopes[1..], next);
      FilterMembers(keep, envelopes[1..]);
      var rest := Filter(keep, envelopes[1..]);
      forall i | 0 <= i < |rest| ensures envelopes[0].cursor < rest[i].cursor {
        assert rest[i] in envelopes[1..];
      }
    }
  }

  function SettledBy(cursor: nat): Envelope -> bool {
    (envelope: Envelope) => cursor >= envelope.cursor
  }

  function UnsettledBy(cursor: nat): Envelope -> bool {
    (envelope: Envelope) => cursor < envelope.cursor
  }

  /** One reader: the hash of its token and how far it acknowledged. */
  class MailboxReaderCursor {
    const readTokenHash: string
    var ackedCursor: nat

    constructor (readTokenHash: string)
      ensures this.readTokenHash == readTokenHash && ackedCursor == 0
    {
      this.readTokenHash, ackedCursor := readTokenHash, 0;
    }

    /** Never back; as far as was asked, or as far as was stored; and no move ends past either. */
    method Acknowledge(upTo: nat, highestCursor: nat)
      modifies this
      ensures old(ackedCursor) <= ackedCursor
      ensures upTo <= ackedCursor || highestCursor <= ackedCursor
      ensures ackedCursor > old(ackedCursor) ==> ackedCursor <= upTo && ackedCursor <= highestCursor
    {
      ackedCursor := Max(ackedCursor, Min(upTo, highestCursor));
    }
  }

  class Mailbox {
    var appendRefilledAt: int
    var appendTokens: real
    var bytes: int
    var envelopeCount: int
    var nextCursor: nat
    var readers: seq<MailboxReaderCursor>
    /** What the repository holds for this mailbox. */
    ghost var stored: seq<Envelope>

    ghost function Bucket(): Bucket
      reads this
    {
      AppendBucket.Bucket(appendTokens, appendRefilledAt)
    }

    /** Who reads the mailbox: one reader per hash, none ahead of what was stored. */
    ghost predicate ReadersSound()
      reads this`readers, this`nextCursor, readers
    {
      && nextCursor > 0
      && readers != []
      && (forall i, j :: 0 <= i < j < |readers| ==> readers[i].readTokenHash != readers[j].readTokenHash)
      && (forall i :: 0 <= i < |readers| ==> readers[i].ackedCursor < nextCursor)
    }

    /** The counters count what is stored. */
    ghost predicate Conserves()
      reads this`bytes, this`envelopeCount, this`stored, this`nextCursor
    {
      envelopeCount == |stored| && bytes == TotalSize(stored) && Ascend(stored, nextCursor)
    }

    ghost predicate Valid()
      reads this, readers
    {
      ReadersSound() && Conserves()
    }

    /** How far the reader holding the hash has acknowledged. */
    ghost predicate Acked(hash: string, cursor: nat)
      reads this`readers, readers
    {
      exists reader | reader in readers :: reader.readTokenHash == hash && reader.ackedCursor == cursor
    }

    constructor (now: int, readTokenHash: string, appendTokens: nat, firstCursor: nat)
      requires firstCursor > 0
      ensures Valid() && fresh(readers) && stored == [] && nextCursor == firstCursor
      ensures |readers| == 1 && readers[0].readTokenHash == readTokenHash && readers[0].ackedCursor == 0
      ensures Bucket() == AppendBucket.Bucket(appendTokens as real, now)
    {
      var reader := new MailboxReaderCursor(readTokenHash);
      appendRefilledAt, this.appendTokens := now, appendTokens as real;
      bytes, envelopeCount := 0, 0;
      nextCursor := firstCursor;
      readers, stored := [reader], [];
    }

    /** Takes one append, or refuses it and changes nothing. */
    method ConsumeAppend(now: int, limits: Limits) returns (result: Result<(), Error>)
      modifies this`appendTokens, this`appendRefilledAt
      ensures result.Success? <==> Consume(old(Bucket()), now, limits.maxAppendsPerMinute).Some?
      ensures result.Failure? ==> result.error == RateLimited
      ensures result.Success? ==> Bucket() == Consume(old(Bucket()), now, limits.maxAppendsPerMinute).value
      ensures result.Failure? ==> Bucket() == old(Bucket())
    {
      var perMinute := limits.maxAppendsPerMinute;
      if perMinute == 0 {
        return Success(());
      }
      var elapsed := now - appendRefilledAt;
      var refilled := appendTokens + (if elapsed < 0 then 0 else elapsed) as real * perMinute as real / MINUTE as real;
      var available := if perMinute as real < refilled then perMinute as real else refilled;
      if available < 1.0 {
        return Failure(RateLimited);
      }
      appendTokens := available - 1.0;
      appendRefilledAt := now;
      return Success(());
    }

    /** Stores an envelope under a cursor no other ever had, or refuses it past either limit. */
    method ReserveEnvelope(size: nat, limits: Limits) returns (result: Result<nat, Error>)
      requires Valid()
      modifies this`nextCursor, this`envelopeCount, this`bytes, this`stored
      ensures Valid()
      ensures result.Failure?
         <==> |old(stored)| + 1 > limits.maxEnvelopes || TotalSize(old(stored)) + size > limits.maxBytes
      ensures result.Failure? ==> result.error == Full && stored == old(stored) && nextCursor == old(nextCursor)
      ensures result.Success? ==> result.value == old(nextCursor) && nextCursor == old(nextCursor) + 1
      ensures result.Success? ==> stored == old(stored) + [Envelope(result.value, size)]
    {
      if envelopeCount + 1 > limits.maxEnvelopes || bytes + size > limits.maxBytes {
        return Failure(Full);
      }
      var cursor := nextCursor;
      TotalSizeAppend(stored, Envelope(cursor, size));
      nextCursor := cursor + 1;
      envelopeCount := envelopeCount + 1;
      bytes := bytes + size;
      stored := stored + [Envelope(cursor, size)];
      return Success(cursor);
    }

    /** Gives back what the removed envelopes took. */
    method ReleaseEnvelopes(removed: seq<Envelope>, ghost out: Envelope -> bool, ghost kept: Envelope -> bool)
      requires Valid() && removed == Filter(out, stored)
      requires forall envelope :: out(envelope) != kept(envelope)
      modifies this`envelopeCount, this`bytes, this`stored
      ensures Valid() && stored == Filter(kept, old(stored))
    {
      RemovalConserves(stored, out, kept);
      FilterAscends(kept, stored, nextCursor);
      envelopeCount := envelopeCount - |removed|;
      bytes := bytes - TotalSize(removed);
      stored := Filter(kept, stored);
    }

    /** Settling removes exactly the envelopes every reader has acknowledged. */
    method Settle(all: seq<Envelope>) returns (removed: seq<Envelope>)
      requires Valid() && all == stored
      modifies this`envelopeCount, this`bytes, this`stored
      ensures Valid()
      ensures forall e :: e in old(stored) ==>
                (e in removed <==> AckedByAll(readers, e.cursor))
      ensures forall e :: e in old(stored) ==> (e in stored <==> e !in removed)
      ensures forall e :: e in removed || e in stored ==> e in old(stored)
    {
      var settled := SettledCursor();
      removed := Filter(SettledBy(settled), all);
      FilterMembers(SettledBy(settled), all);
      FilterMembers(UnsettledBy(settled), all);
      ReleaseEnvelopes(removed, SettledBy(settled), UnsettledBy(settled));
      SettledMeansByAll(readers, settled);
    }

    method ReaderFor(hash: string) returns (reader: MailboxReaderCursor?)
      requires ReadersSound()
      ensures reader == null <==> forall cursor :: !Acked(hash, cursor)
      ensures reader != null ==> reader in readers && reader.readTokenHash == hash
    {
      reader := null;
      for i := 0 to |readers|
        invariant reader == null ==> forall k :: 0 <= k < i ==> readers[k].readTokenHash != hash
        invariant reader != null ==> reader in readers && reader.readTokenHash == hash
      {
        if readers[i].readTokenHash == hash {
          reader := readers[i];
        }
      }
      if reader != null {
        assert Acked(hash, reader.ackedCursor);
      }
    }

    /** Moves the one reader holding the hash, forward only and never past the newest envelope. */
    method Acknowledge(hash: string, upTo: nat) returns (found: bool)
      requires Valid()
      modifies readers
      ensures Valid()
      ensures found <==> exists cursor :: old(Acked(hash, cursor))
      ensures forall i :: 0 <= i < |readers| && readers[i].readTokenHash == hash ==>
                readers[i].ackedCursor == Max(old(readers[i].ackedCursor), Min(upTo, nextCursor - 1))
      ensures forall i :: 0 <= i < |readers| && readers[i].readTokenHash != hash ==>
                readers[i].ackedCursor == old(readers[i].ackedCursor)
    {
      var reader := ReaderFor(hash);
      if reader == null {
        forall i | 0 <= i < |readers| ensures readers[i].readTokenHash != hash {
          assert readers[i].readTokenHash == hash ==> Acked(hash, readers[i].ackedCursor);
        }
        return false;
      }
      assert Acked(hash, reader.ackedCursor);
      reader.Acknowledge(upTo, nextCursor - 1);
      return true;
    }

    /** A new reader has acknowledged nothing; a hash that already reads is left as it is. */
    method AddReader(hash: string, limits: Limits) returns (result: Result<bool, Error>)
      requires Valid()
      modifies this`readers
      ensures Valid()
      ensures result == Success(false) <==> exists reader :: reader in old(readers) && reader.readTokenHash == hash
      ensures result.Failure? ==> result.error == ReaderLimitReached && |readers| >= limits.maxReaders
      ensures result == Success(true) ==> |old(readers)| < limits.maxReaders
      ensures result != Success(true) ==> readers == old(readers)
      ensures result == Success(true) ==> |readers| == |old(readers)| + 1 && readers[..|old(readers)|] == old(readers)
      ensures result == Success(true) ==> fresh(readers[|readers| - 1]) && readers[|readers| - 1].readTokenHash == hash
      ensures result == Success(true) ==> readers[|readers| - 1].ackedCursor == 0
    {
      for i := 0 to |readers|
        invariant forall k :: 0 <= k < i ==> readers[k].readTokenHash != hash
      {
        if readers[i].readTokenHash == hash {
          return Success(false);
        }
      }
      if |readers| >= limits.maxReaders {
        return Failure(ReaderLimitReached);
      }
      var reader := new MailboxReaderCursor(hash);
      readers := readers + [reader];
      return Success(true);
    }

    /** Removes the reader holding the hash, but never the last one. */
    method RemoveReader(hash: string) returns (result: Result<(), Error>)
      requires Valid()
      modifies this`readers
      ensures Valid()
      ensures result == Failure(ReaderNotFound)
         <==> forall reader :: reader in old(readers) ==> reader.readTokenHash != hash
      ensures result == Failure(LastReader) ==> |readers| == 1
      ensures result.Failure? ==>
                readers == old(readers) && (result.error == ReaderNotFound || result.error == LastReader)
      ensures result.Success? ==> |readers| + 1 == |old(readers)|
      ensures result.Success? ==> forall reader ::
                reader in readers <==> reader in old(readers) && reader.readTokenHash != hash
    {
      var index := 0;
      while index < |readers| && readers[index].readTokenHash != hash
        invariant 0 <= index <= |readers|
        invariant forall k :: 0 <= k < index ==> readers[k].readTokenHash != hash
      {
        index := index + 1;
      }
      if index == |readers| {
        return Failure(ReaderNotFound);
      }
      assert readers[index] in readers;
      if |readers| == 1 {
        return Failure(LastReader);
      }
      OneOut(readers, index);
      readers := readers[..index] + readers[index + 1..];
      return Success(());
    }

    /** The lowest acknowledgement, or none without readers. */
    method SettledCursor() returns (settled: nat)
      ensures readers == [] ==> settled == 0
      ensures forall reader :: reader in readers ==> settled <= reader.ackedCursor
      ensures readers != [] ==> exists reader :: reader in readers && settled == reader.ackedCursor
    {
      if readers == [] {
        return 0;
      }
      settled := readers[0].ackedCursor;
      for i := 1 to |readers|
        invariant exists reader :: reader in readers && settled == reader.ackedCursor
        invariant forall k :: 0 <= k < i ==> settled <= readers[k].ackedCursor
      {
        settled := Min(settled, readers[i].ackedCursor);
      }
    }
  }

  ghost predicate AckedByAll(readers: seq<MailboxReaderCursor>, cursor: nat)
    reads readers
  {
    forall reader :: reader in readers ==> reader.ackedCursor >= cursor
  }

  lemma SettledMeansByAll(readers: seq<MailboxReaderCursor>, settled: nat)
    requires forall reader :: reader in readers ==> settled <= reader.ackedCursor
    requires exists reader :: reader in readers && settled == reader.ackedCursor
    ensures forall cursor: nat :: settled >= cursor <==> AckedByAll(readers, cursor)
  {
    var lowest :| lowest in readers && settled == lowest.ackedCursor;
  }

  lemma OneOut(readers: seq<MailboxReaderCursor>, index: nat)
    requires index < |readers|
    requires forall i, j :: 0 <= i < j < |readers| ==> readers[i].readTokenHash != readers[j].readTokenHash
    ensures forall reader :: reader in readers[..index] + readers[index + 1..]
                        <==> reader in readers && reader.readTokenHash != readers[index].readTokenHash
  {
    var rest := readers[..index] + readers[index + 1..];
    forall reader
      ensures reader in rest <==> reader in readers && reader.readTokenHash != readers[index].readTokenHash
    {
      if reader in rest {
        var i :| 0 <= i < |rest| && rest[i] == reader;
        assert reader == readers[if i < index then i else i + 1];
      }
      if reader in readers && reader.readTokenHash != readers[index].readTokenHash {
        var i :| 0 <= i < |readers| && readers[i] == reader;
        assert rest[if i < index then i else i - 1] == reader;
      }
    }
  }

  // ---- Eviction ----

  const EVICTION_IDLE := 604_800_000

  /** What eviction looks at in a mailbox. */
  datatype Occupant = Occupant(id: string, lastReadAt: int, envelopeCount: int)

  function IsIdleAndEmpty(now: int): Occupant -> bool {
    (mailbox: Occupant) => mailbox.envelopeCount == 0 && mailbox.lastReadAt + EVICTION_IDLE <= now
  }

  predicate ReadNoLater(a: Occupant, b: Occupant) {
    a.lastReadAt <= b.lastReadAt
  }

  function SelectEvictions(mailboxes: seq<Occupant>, now: int, needed: nat): Result<seq<Occupant>, Error> {
    var candidates := Sort(ReadNoLater, Filter(IsIdleAndEmpty(now), mailboxes));
    if |candidates| < needed then Failure(LimitReached) else Success(candidates[..needed])
  }

  /** Empty, and last read a week ago or earlier. */
  function MayGo(now: int): Occupant -> bool {
    (mailbox: Occupant) => mailbox.envelopeCount == 0 && now - mailbox.lastReadAt >= 7 * 24 * 60 * 60 * 1000
  }

  /** All or nothing: with enough mailboxes empty and unread for a week exactly the least recently read of them
      go, and otherwise none. */
  lemma EvictsTheLeastRecentlyRead(mailboxes: seq<Occupant>, now: int, needed: nat) returns (spared: seq<Occupant>)
    ensures SelectEvictions(mailboxes, now, needed).Failure? <==> |Filter(MayGo(now), mailboxes)| < needed
    ensures SelectEvictions(mailboxes, now, needed).Success? ==>
              var victims := SelectEvictions(mailboxes, now, needed).value;
              && |victims| == needed
              && multiset(victims) + multiset(spared) == multiset(Filter(MayGo(now), mailboxes))
              && forall x, y :: x in victims && y in spared ==> x.lastReadAt <= y.lastReadAt
  {
    FilterAgrees(MayGo(now), IsIdleAndEmpty(now), mailboxes);
    var idle := Filter(MayGo(now), mailboxes);
    SortIsPermutation(ReadNoLater, idle);
    SortIsSorted(ReadNoLater, idle);
    spared := SparedOf(Sort(ReadNoLater, idle), needed);
  }

  /** The rest of a sorted list after as many as are needed. */
  lemma SparedOf(candidates: seq<Occupant>, needed: nat) returns (spared: seq<Occupant>)
    requires SortedBy(ReadNoLater, candidates)
    ensures needed <= |candidates| ==>
              && multiset(candidates[..needed]) + multiset(spared) == multiset(candidates)
              && forall x, y :: x in candidates[..needed] && y in spared ==> x.lastReadAt <= y.lastReadAt
  {
    spared := if |candidates| < needed then [] else candidates[needed..];
    if needed <= |candidates| {
      assert candidates == candidates[..needed] + candidates[needed..];
      forall x, y | x in candidates[..needed] && y in spared ensures x.lastReadAt <= y.lastReadAt {
        var i :| 0 <= i < needed && candidates[i] == x;
        var j :| 0 <= j < |spared| && spared[j] == y;
        assert ReadNoLater(candidates[i], candidates[needed + j]);
      }
    }
  }
}
