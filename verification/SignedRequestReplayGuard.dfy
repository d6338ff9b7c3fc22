/** The guard against replayed signatures: an insertion-ordered map of live entries with counters kept
    beside it, proved to decide as a ledger that never forgets an acceptance would. */
module SignedRequestReplayGuard {
  import opened Sequences
  import opened Wrappers

  const MAX_ENTRIES := 100_000
  const SLOTS_PER_SIGNER := 1_000
  const STRANGER_SLOTS := 10_000
  const STRANGER_SLOTS_PER_SOURCE := 250

  /** An accepted signature: its replay key, when it expires, and whom it is charged to. */
  datatype Entry = Entry(key: string, expiration: int, signer: string, source: string, stranger: bool)

  /** Who an entry is charged to. */
  datatype Account = Signer(signer: string) | Served(source: string) | StrangerFrom(source: string) | AnyStranger

  predicate Charged(entry: Entry, account: Account) {
    match account
    case Signer(signer) => entry.signer == signer
    case Served(source) => !entry.stranger && entry.source == source
    case StrangerFrom(source) => entry.stranger && entry.source == source
    case AnyStranger => entry.stranger
  }

  function Count(entries: seq<Entry>, account: Account): nat {
    if entries == [] then 0 else (if Charged(entries[0], account) then 1 else 0) + Count(entries[1..], account)
  }

  function Cap(account: Account, servedLimit: nat): nat {
    match account
    case Signer(_) => SLOTS_PER_SIGNER
    case Served(_) => servedLimit
    case StrangerFrom(_) => STRANGER_SLOTS_PER_SOURCE
    case AnyStranger => STRANGER_SLOTS
  }

  function LiveAt(now: int): Entry -> bool {
    (entry: Entry) => entry.expiration > now
  }

  predicate HasKey(entries: seq<Entry>, key: string) {
    exists entry | entry in entries :: entry.key == key
  }

  /** A signature offered for recording; its signer's key and replay key, when they can be computed. */
  datatype Request = Request(signer: string, key: string, source: string, stranger: bool)

  predicate HasRoom(live: seq<Entry>, request: Request, servedLimit: nat) {
    && |live| < MAX_ENTRIES
    && Count(live, Signer(request.signer)) < SLOTS_PER_SIGNER
    && if request.stranger
       then Count(live, AnyStranger) < STRANGER_SLOTS
            && Count(live, StrangerFrom(request.source)) < STRANGER_SLOTS_PER_SOURCE
       else Count(live, Served(request.source)) < servedLimit
  }

  /** What the guard promises: refuse a signature that is still live, and any when there is no room. */
  predicate Admits(live: seq<Entry>, request: Request, servedLimit: nat) {
    !HasKey(live, request.key) && HasRoom(live, request, servedLimit)
  }

  // ---- Counting ----

  lemma {:induction false} CountAppend(entries: seq<Entry>, entry: Entry, account: Account)
    ensures Count(entries + [entry], account) == Count(entries, account) + if Charged(entry, account) then 1 else 0
  {
    if entries == [] {
      assert [] + [entry] == [entry];
      assert Count([], account) == 0;
    } else {
      assert (entries + [entry])[1..] == entries[1..] + [entry];
      CountAppend(entries[1..], entry, account);
    }
  }

  lemma {:induction false} CountOfPart(entries: seq<Entry>, keep: Entry -> bool, account: Account)
    ensures Count(Filter(keep, entries), account) <= Count(entries, account)
  {
    if entries != [] {
      CountOfPart(entries[1..], keep, account);
      var rest := Filter(keep, entries[1..]);
      assert keep(entries[0]) ==> ([entries[0]] + rest)[1..] == rest;
      assert Filter(keep, entries) == if keep(entries[0]) then [entries[0]] + rest else rest;
    }
  }

  lemma CountDrop(entries: seq<Entry>, account: Account)
    requires entries != []
    ensures Count(entries, account) == Count(entries[1..], account) + if Charged(entries[0], account) then 1 else 0
  {
  }

  lemma {:induction false} CountedMeansSome(entries: seq<Entry>, entry: Entry, account: Account)
    requires entry in entries && Charged(entry, account)
    ensures Count(entries, account) > 0
  {
    if entries[0] != entry {
      CountedMeansSome(entries[1..], entry, account);
    }
  }

  // ---- The counter maps ----

  function Get(slots: map<string, int>, key: string): int {
    if key in slots then slots[key] else 0
  }

  function Take(slots: map<string, int>, key: string): map<string, int> {
    slots[key := Get(slots, key) + 1]
  }

  function Give(slots: map<string, int>, key: string): map<string, int> {
    var left := (if key in slots then slots[key] else 1) - 1;
    if left == 0 then slots - {key} else slots[key := left]
  }

  /** The three families of accounts that have a counter map. */
  datatype Family = BySigner | ServedBySource | StrangersBySource

  function AccountIn(family: Family, key: string): Account {
    match family
    case BySigner => Signer(key)
    case ServedBySource => Served(key)
    case StrangersBySource => StrangerFrom(key)
  }

  /** The key the entry is charged under in a family, if it is charged there at all. */
  function KeyIn(family: Family, entry: Entry): Option<string> {
    match family
    case BySigner => Some(entry.signer)
    case ServedBySource => if entry.stranger then None else Some(entry.source)
    case StrangersBySource => if entry.stranger then Some(entry.source) else None
  }

  lemma ChargedUnderItsKey(family: Family, entry: Entry, key: string)
    ensures Charged(entry, AccountIn(family, key)) <==> KeyIn(family, entry) == Some(key)
  {
  }

  /** The map holds exactly the positive counts of the family. */
  ghost predicate Tracks(slots: map<string, int>, entries: seq<Entry>, family: Family) {
    forall key :: Get(slots, key) == Count(entries, AccountIn(family, key)) && (key in slots ==> slots[key] > 0)
  }

  /** Counting one entry more under its own key, and under no other. */
  lemma TakeTracks(slots: map<string, int>, entries: seq<Entry>, family: Family, entry: Entry)
    requires Tracks(slots, entries, family)
    ensures KeyIn(family, entry).Some? ==> Tracks(Take(slots, KeyIn(family, entry).value), entries + [entry], family)
    ensures KeyIn(family, entry).None? ==> Tracks(slots, entries + [entry], family)
  {
    var own := KeyIn(family, entry);
    var taken := if own.Some? then Take(slots, own.value) else slots;
    forall key
      ensures Get(taken, key) == Count(entries + [entry], AccountIn(family, key))
      ensures key in taken ==> taken[key] > 0
    {
      CountAppend(entries, entry, AccountIn(family, key));
      ChargedUnderItsKey(family, entry, key);
      assert Get(slots, key) == Count(entries, AccountIn(family, key));
    }
  }

  lemma GiveTracks(slots: map<string, int>, entries: seq<Entry>, family: Family)
    requires entries != [] && Tracks(slots, entries, family)
    ensures KeyIn(family, entries[0]).Some? ==>
              Tracks(Give(slots, KeyIn(family, entries[0]).value), entries[1..], family)
    ensures KeyIn(family, entries[0]).None? ==> Tracks(slots, entries[1..], family)
  {
    var own := KeyIn(family, entries[0]);
    var given := if own.Some? then Give(slots, own.value) else slots;
    forall key
      ensures Get(given, key) == Count(entries[1..], AccountIn(family, key))
      ensures key in given ==> given[key] > 0
    {
      ChargedUnderItsKey(family, entries[0], key);
      assert Get(slots, key) == Count(entries, AccountIn(family, key));
      if own.Some? {
        assert Get(slots, own.value) == Count(entries, AccountIn(family, own.value));
        ChargedUnderItsKey(family, entries[0], own.value);
      }
    }
  }

  // ---- The guard ----

  ghost predicate InOrder(entries: seq<Entry>) {
    forall i, j :: 0 <= i < j < |entries| ==> entries[i].expiration <= entries[j].expiration
  }

  /** In expiry order, dropping the expired entries from the front drops all of them. */
  lemma StopAtFirstLive(entries: seq<Entry>, now: int)
    requires InOrder(entries) && (entries != [] ==> entries[0].expiration > now)
    ensures Filter(LiveAt(now), entries) == entries
  {
    FilterAll(LiveAt(now), entries);
  }

  ghost predicate ExpiresBy(entries: seq<Entry>, time: int) {
    forall entry :: entry in entries ==> entry.expiration <= time
  }

  /** A new entry expires last. */
  lemma NewestExpiresLast(entries: seq<Entry>, entry: Entry, bound: int)
    requires InOrder(entries) && ExpiresBy(entries, bound) && bound <= entry.expiration
    ensures InOrder(entries + [entry]) && ExpiresBy(entries + [entry], entry.expiration)
  {
    forall i, j | 0 <= i < j < |entries + [entry]|
      ensures (entries + [entry])[i].expiration <= (entries + [entry])[j].expiration
    {
      assert (entries + [entry])[i] == entries[i] && entries[i] in entries;
      assert j < |entries| ==> (entries + [entry])[j] == entries[j];
    }
  }

  lemma LiveWithNewest(ledger: seq<Entry>, entry: Entry, now: int)
    ensures Filter(LiveAt(now), ledger + [entry])
         == if entry.expiration > now then Filter(LiveAt(now), ledger) + [entry] else Filter(LiveAt(now), ledger)
  {
    FilterAppend(LiveAt(now), ledger, [entry]);
    assert Filter(LiveAt(now), [entry]) == if entry.expiration > now then [entry] else [];
  }

  class ReplayGuard {
    const window: nat
    const servedSlotLimit: nat
    var entryBySignature: seq<Entry>
    var slotsBySigner: map<string, int>
    var servedSlotsBySource: map<string, int>
    var strangerSlotsBySource: map<string, int>
    var strangerSlots: int
    ghost var accepted: seq<Entry>
    ghost var clock: int

    /** The counters count the entries, the entries are in expiry order, and they are what is left of
        everything ever accepted once the expired ones are dropped. */
    ghost predicate Valid()
      reads this
    {
      && Counted()
      && InOrder(entryBySignature)
      && ExpiresBy(entryBySignature, clock + window)
      && window > 0
      && entryBySignature == Filter(LiveAt(clock), accepted)
    }

    constructor (window: nat, servedSlotLimit: nat, ghost now: int)
      requires window > 0
      ensures Valid() && accepted == [] && clock == now
      ensures this.window == window && this.servedSlotLimit == servedSlotLimit
    {
      this.window, this.servedSlotLimit := window, servedSlotLimit;
      entryBySignature := [];
      slotsBySigner, servedSlotsBySource, strangerSlotsBySource := map[], map[], map[];
      strangerSlots := 0;
      accepted, clock := [], now;
    }

    ghost predicate Counts(entries: seq<Entry>)
      reads this`slotsBySigner, this`servedSlotsBySource, this`strangerSlotsBySource, this`strangerSlots
    {
      && Tracks(slotsBySigner, entries, BySigner)
      && Tracks(servedSlotsBySource, entries, ServedBySource)
      && Tracks(strangerSlotsBySource, entries, StrangersBySource)
      && strangerSlots == Count(entries, AnyStranger)
    }

    ghost predicate Counted()
      reads this
    {
      Counts(entryBySignature)
    }

    /** No counter passes its cap. */
    ghost predicate CountersWithinCaps(servedLimit: nat)
      reads this
    {
      && (forall signer :: signer in slotsBySigner ==> slotsBySigner[signer] <= SLOTS_PER_SIGNER)
      && (forall source :: source in servedSlotsBySource ==> servedSlotsBySource[source] <= servedLimit)
      && (forall source :: source in strangerSlotsBySource ==>
            strangerSlotsBySource[source] <= STRANGER_SLOTS_PER_SOURCE)
      && strangerSlots <= STRANGER_SLOTS
    }

    /** The caps of the entries are those of the counters. */
    lemma CountersFollow()
      requires Counted() && WithinAllCaps(entryBySignature, servedSlotLimit)
      ensures CountersWithinCaps(servedSlotLimit)
    {
      forall signer | signer in slotsBySigner ensures slotsBySigner[signer] <= SLOTS_PER_SIGNER {
        assert Get(slotsBySigner, signer) == Count(entryBySignature, AccountIn(BySigner, signer));
        assert WithinCaps(entryBySignature, Signer(signer), servedSlotLimit);
      }
      forall source | source in servedSlotsBySource ensures servedSlotsBySource[source] <= servedSlotLimit {
        assert Get(servedSlotsBySource, source) == Count(entryBySignature, AccountIn(ServedBySource, source));
        assert WithinCaps(entryBySignature, Served(source), servedSlotLimit);
      }
      forall source | source in strangerSlotsBySource
        ensures strangerSlotsBySource[source] <= STRANGER_SLOTS_PER_SOURCE
      {
        assert Get(strangerSlotsBySource, source) == Count(entryBySignature, AccountIn(StrangersBySource, source));
        assert WithinCaps(entryBySignature, StrangerFrom(source), servedSlotLimit);
      }
      assert WithinCaps(entryBySignature, AnyStranger, servedSlotLimit);
    }

    /** Gives back the slots of the oldest of the counted entries. */
    method Release(entry: Entry, ghost entries: seq<Entry>)
      requires entries != [] && entry == entries[0] && Counts(entries)
      modifies this`slotsBySigner, this`servedSlotsBySource, this`strangerSlotsBySource, this`strangerSlots
      ensures Counts(entries[1..])
    {
      GiveTracks(slotsBySigner, entries, BySigner);
      slotsBySigner := Give(slotsBySigner, entry.signer);
      if entry.stranger {
        ReleasesStranger(entries);
        strangerSlotsBySource := Give(strangerSlotsBySource, entry.source);
        strangerSlots := strangerSlots - 1;
      } else {
        ReleasesServed(entries);
        servedSlotsBySource := Give(servedSlotsBySource, entry.source);
      }
    }

    lemma ReleasesStranger(entries: seq<Entry>)
      requires entries != [] && entries[0].stranger
      requires Tracks(servedSlotsBySource, entries, ServedBySource)
      requires Tracks(strangerSlotsBySource, entries, StrangersBySource)
      ensures Tracks(servedSlotsBySource, entries[1..], ServedBySource)
      ensures Tracks(Give(strangerSlotsBySource, entries[0].source), entries[1..], StrangersBySource)
      ensures Count(entries[1..], AnyStranger) == Count(entries, AnyStranger) - 1
    {
      CountDrop(entries, AnyStranger);
      GiveTracks(servedSlotsBySource, entries, ServedBySource);
      GiveTracks(strangerSlotsBySource, entries, StrangersBySource);
    }

    lemma ReleasesServed(entries: seq<Entry>)
      requires entries != [] && !entries[0].stranger
      requires Tracks(servedSlotsBySource, entries, ServedBySource)
      requires Tracks(strangerSlotsBySource, entries, StrangersBySource)
      ensures Tracks(Give(servedSlotsBySource, entries[0].source), entries[1..], ServedBySource)
      ensures Tracks(strangerSlotsBySource, entries[1..], StrangersBySource)
      ensures Count(entries[1..], AnyStranger) == Count(entries, AnyStranger)
    {
      CountDrop(entries, AnyStranger);
      GiveTracks(servedSlotsBySource, entries, ServedBySource);
      GiveTracks(strangerSlotsBySource, entries, StrangersBySource);
    }

    /** Drops exactly the expired entries, although it stops at the first live one. */
    method Prune(now: int)
      requires Counted() && InOrder(entryBySignature)
      modifies this`entryBySignature, this`slotsBySigner, this`servedSlotsBySource, this`strangerSlotsBySource,
               this`strangerSlots
      ensures entryBySignature == Filter(LiveAt(now), old(entryBySignature))
      ensures Counted() && InOrder(entryBySignature)
    {
      while entryBySignature != []
        invariant Counted() && InOrder(entryBySignature)
        invariant Filter(LiveAt(now), entryBySignature) == Filter(LiveAt(now), old(entryBySignature))
        decreases |entryBySignature|
      {
        if entryBySignature[0].expiration > now {
          break;
        }
        ghost var entries := entryBySignature;
        var entry := entryBySignature[0];
        entryBySignature := entryBySignature[1..];
        Release(entry, entries);
      }
      StopAtFirstLive(entryBySignature, now);
    }

    method HasRoomForRequest(request: Request) returns (room: bool)
      requires Counted()
      ensures room == HasRoom(entryBySignature, request, servedSlotLimit)
    {
      var hasRoomForSource :=
        if request.stranger
        then strangerSlots < STRANGER_SLOTS && Get(strangerSlotsBySource, request.source) < STRANGER_SLOTS_PER_SOURCE
        else Get(servedSlotsBySource, request.source) < servedSlotLimit;
      room := |entryBySignature| < MAX_ENTRIES
           && Get(slotsBySigner, request.signer) < SLOTS_PER_SIGNER
           && hasRoomForSource;
      assert Get(slotsBySigner, request.signer) == Count(entryBySignature, AccountIn(BySigner, request.signer));
      assert Get(servedSlotsBySource, request.source)
          == Count(entryBySignature, AccountIn(ServedBySource, request.source));
      assert Get(strangerSlotsBySource, request.source)
          == Count(entryBySignature, AccountIn(StrangersBySource, request.source));
    }

    /** Adds an entry and charges it. */
    method Charge(entry: Entry)
      requires Counted()
      modifies this`entryBySignature, this`slotsBySigner, this`servedSlotsBySource, this`strangerSlotsBySource,
               this`strangerSlots
      ensures entryBySignature == old(entryBySignature) + [entry] && Counted()
    {
      var before := entryBySignature;
      entryBySignature := entryBySignature + [entry];
      TakeTracks(slotsBySigner, before, BySigner, entry);
      slotsBySigner := Take(slotsBySigner, entry.signer);
      CountAppend(before, entry, AnyStranger);
      if entry.stranger {
        TakeTracks(strangerSlotsBySource, before, StrangersBySource, entry);
        TakeTracks(servedSlotsBySource, before, ServedBySource, entry);
        strangerSlotsBySource := Take(strangerSlotsBySource, entry.source);
        strangerSlots := strangerSlots + 1;
      } else {
        TakeTracks(servedSlotsBySource, before, ServedBySource, entry);
        TakeTracks(strangerSlotsBySource, before, StrangersBySource, entry);
        servedSlotsBySource := Take(servedSlotsBySource, entry.source);
      }
    }

    /** Records a signature, or refuses it. It decides as the whole ledger of acceptances would, looking
        only at the entries live now; a signer whose key cannot be read is refused outright. */
    method Record(request: Option<Request>, now: int) returns (ok: bool)
      requires Valid() && clock <= now
      modifies this
      ensures Valid()
      ensures clock == if request.Some? then now else old(clock)
      ensures ok <==> request.Some? && Admits(Filter(LiveAt(now), old(accepted)), request.value, servedSlotLimit)
      ensures accepted == if ok then old(accepted) + [Accepted(request.value, now, window)] else old(accepted)
    {
      if request.None? {
        ok := false;
        return;
      }
      FilterTwice(LiveAt(now), LiveAt(clock), LiveAt(now), accepted);
      FilterMembers(LiveAt(now), entryBySignature);
      Prune(now);
      ghost var live := entryBySignature;
      var value := request.value;
      var room := HasRoomForRequest(value);
      var seen := HasKey(entryBySignature, value.key);
      ok := !seen && room;
      if ok {
        var entry := Accepted(value, now, window);
        NewestExpiresLast(live, entry, clock + window);
        LiveWithNewest(accepted, entry, now);
        Charge(entry);
        accepted := accepted + [entry];
      }
      clock := now;
    }
  }

  /** The entry an acceptance at `now` leaves. */
  function Accepted(request: Request, now: int, window: nat): Entry {
    Entry(request.key, now + window, request.signer, request.source, request.stranger)
  }

  // ---- Whole runs ----

  /** A signature offered at some time; `None` when its signer's key or its replay key cannot be read. */
  datatype Attempt = Attempt(request: Option<Request>, at: int)

  /** Whether a guard that remembers every acceptance lets the attempt in. */
  predicate Decides(ledger: seq<Entry>, attempt: Attempt, servedLimit: nat) {
    attempt.request.Some? && Admits(Filter(LiveAt(attempt.at), ledger), attempt.request.value, servedLimit)
  }

  /** Every acceptance of a run. */
  function Ledger(attempts: seq<Attempt>, window: nat, servedLimit: nat): seq<Entry> {
    if attempts == [] then [] else
      var before, last := Ledger(attempts[..|attempts| - 1], window, servedLimit), attempts[|attempts| - 1];
      if Decides(before, last, servedLimit) then before + [Accepted(last.request.value, last.at, window)] else before
  }

  predicate Accepts(attempts: seq<Attempt>, i: nat, window: nat, servedLimit: nat)
    requires i < |attempts|
  {
    Decides(Ledger(attempts[..i], window, servedLimit), attempts[i], servedLimit)
  }

  lemma LedgerStep(attempts: seq<Attempt>, i: nat, window: nat, servedLimit: nat)
    requires i < |attempts|
    ensures Ledger(attempts[..i + 1], window, servedLimit)
         == Ledger(attempts[..i], window, servedLimit) +
            if Accepts(attempts, i, window, servedLimit)
            then [Accepted(attempts[i].request.value, attempts[i].at, window)] else []
  {
    var earlier := attempts[..i + 1];
    assert earlier[..|earlier| - 1] == attempts[..i] && earlier[|earlier| - 1] == attempts[i];
  }

  /** What was accepted stays in the ledger. */
  lemma {:induction false} AcceptedStays(attempts: seq<Attempt>, i: nat, n: nat, window: nat, servedLimit: nat)
    requires i < n <= |attempts| && Accepts(attempts, i, window, servedLimit)
    ensures Accepted(attempts[i].request.value, attempts[i].at, window) in Ledger(attempts[..n], window, servedLimit)
  {
    LedgerStep(attempts, n - 1, window, servedLimit);
    if i < n - 1 {
      AcceptedStays(attempts, i, n - 1, window, servedLimit);
    }
  }

  /** A live entry with the same key is enough to be refused. */
  lemma LiveKeyIsRefused(ledger: seq<Entry>, entry: Entry, attempt: Attempt, servedLimit: nat)
    requires entry in ledger && entry.expiration > attempt.at
    requires attempt.request.Some? ==> entry.key == attempt.request.value.key
    ensures !Decides(ledger, attempt, servedLimit)
  {
    FilterMembers(LiveAt(attempt.at), ledger);
  }

  /** The later attempt offers the same signature before the replay window of the earlier one has passed. */
  predicate IsReplay(earlier: Attempt, later: Attempt, window: nat) {
    && earlier.request.Some? && later.request.Some?
    && earlier.request.value.key == later.request.value.key
    && later.at < earlier.at + window
  }

  /** A signature accepted at some time is refused at every time before the replay window has passed,
      whatever was recorded or expired in between. */
  lemma ReplaysAreRefused(attempts: seq<Attempt>, i: nat, j: nat, window: nat, servedLimit: nat)
    requires i < j < |attempts| && IsReplay(attempts[i], attempts[j], window)
    requires Accepts(attempts, i, window, servedLimit)
    ensures !Accepts(attempts, j, window, servedLimit)
  {
    AcceptedStays(attempts, i, j, window, servedLimit);
    LiveKeyIsRefused(Ledger(attempts[..j], window, servedLimit),
                     Accepted(attempts[i].request.value, attempts[i].at, window), attempts[j], servedLimit);
  }

  ghost predicate Orderly(attempts: seq<Attempt>) {
    forall i, j :: 0 <= i < j < |attempts| ==> attempts[i].at <= attempts[j].at
  }

  ghost predicate WithinCaps(entries: seq<Entry>, account: Account, servedLimit: nat) {
    |entries| <= MAX_ENTRIES && Count(entries, account) <= Cap(account, servedLimit)
  }

  /** An admitted request fits. */
  lemma AdmittedFits(live: seq<Entry>, request: Request, now: int, window: nat, account: Account, servedLimit: nat)
    requires WithinCaps(live, account, servedLimit) && Admits(live, request, servedLimit)
    ensures WithinCaps(live + [Accepted(request, now, window)], account, servedLimit)
  {
    CountAppend(live, Accepted(request, now, window), account);
  }

  lemma FewerLater(ledger: seq<Entry>, since: int, now: int, account: Account, servedLimit: nat)
    requires since <= now && WithinCaps(Filter(LiveAt(since), ledger), account, servedLimit)
    ensures WithinCaps(Filter(LiveAt(now), ledger), account, servedLimit)
  {
    var live := Filter(LiveAt(since), ledger);
    FilterTwice(LiveAt(now), LiveAt(since), LiveAt(now), ledger);
    FilterMembers(LiveAt(now), live);
    CountOfPart(live, LiveAt(now), account);
  }

  /** What one attempt leaves is within the caps. */
  lemma DecisionFits(ledger: seq<Entry>, attempt: Attempt, window: nat, servedLimit: nat, account: Account)
    requires WithinCaps(Filter(LiveAt(attempt.at), ledger), account, servedLimit)
    requires Decides(ledger, attempt, servedLimit)
    ensures WithinCaps(Filter(LiveAt(attempt.at), ledger + [Accepted(attempt.request.value, attempt.at, window)]),
                       account, servedLimit)
  {
    AdmittedFits(Filter(LiveAt(attempt.at), ledger), attempt.request.value, attempt.at, window, account, servedLimit);
    LiveWithNewest(ledger, Accepted(attempt.request.value, attempt.at, window), attempt.at);
  }

  /** However the run goes, at no time from its last readable attempt on does any account hold more live
      entries than its cap, nor the guard more than it may. */
  lemma {:induction false} CapsHold(attempts: seq<Attempt>, n: nat, now: int, window: nat, servedLimit: nat,
                                    account: Account)
    requires Orderly(attempts) && n <= |attempts|
    requires forall i :: 0 <= i < n && attempts[i].request.Some? ==> attempts[i].at <= now
    ensures WithinCaps(Filter(LiveAt(now), Ledger(attempts[..n], window, servedLimit)), account, servedLimit)
  {
    if n > 0 {
      var last := attempts[n - 1];
      LedgerStep(attempts, n - 1, window, servedLimit);
      if Accepts(attempts, n - 1, window, servedLimit) {
        CapsHold(attempts, n - 1, last.at, window, servedLimit, account);
        DecisionFits(Ledger(attempts[..n - 1], window, servedLimit), last, window, servedLimit, account);
        FewerLater(Ledger(attempts[..n], window, servedLimit), last.at, now, account, servedLimit);
      } else {
        var before := Ledger(attempts[..n - 1], window, servedLimit);
        assert before + [] == before;
        CapsHold(attempts, n - 1, now, window, servedLimit, account);
      }
    }
  }

  // ---- Nothing else is refused ----

  /** The attempt was accepted, is of the kind, and its replay window has not passed. */
  predicate IsHeld(attempts: seq<Attempt>, i: nat, now: int, window: nat, servedLimit: nat, kind: Request -> bool) {
    && i < |attempts| && Accepts(attempts, i, window, servedLimit)
    && now < attempts[i].at + window && kind(attempts[i].request.value)
  }

  function Below(n: nat, holds: nat -> bool): set<nat> {
    set j: nat | j < n && holds(j)
  }

  lemma OneMoreBelow(n: nat, holds: nat -> bool)
    ensures |Below(n + 1, holds)| == |Below(n, holds)| + if holds(n) then 1 else 0
  {
    var before, after := Below(n, holds), Below(n + 1, holds);
    if holds(n) {
      assert after == before + {n} && n !in before;
    } else {
      assert after == before;
    }
  }

  /** The earlier attempts of this kind that were accepted and whose replay window has not passed. */
  function Held(attempts: seq<Attempt>, n: nat, now: int, window: nat, servedLimit: nat, kind: Request -> bool)
    : set<nat>
  {
    Below(n, (i: nat) => IsHeld(attempts, i, now, window, servedLimit, kind))
  }

  /** How many entries of a kind are live. */
  function LiveOf(ledger: seq<Entry>, now: int, entries: Entry -> bool): nat {
    |Filter(entries, Filter(LiveAt(now), ledger))|
  }

  /** Live entries of a kind are held attempts of that kind. */
  lemma {:induction false} LiveAreHeld(attempts: seq<Attempt>, n: nat, now: int, window: nat, servedLimit: nat,
                                       kind: Request -> bool, entries: Entry -> bool)
    requires n <= |attempts|
    requires forall request, at :: kind(request) <==> entries(Accepted(request, at, window))
    ensures LiveOf(Ledger(attempts[..n], window, servedLimit), now, entries)
         == |Held(attempts, n, now, window, servedLimit, kind)|
  {
    if n == 0 {
      assert Held(attempts, 0, now, window, servedLimit, kind) == {};
    } else {
      LiveAreHeld(attempts, n - 1, now, window, servedLimit, kind, entries);
      HeldStep(attempts, n, now, window, servedLimit, kind);
      LiveStep(attempts, n, now, window, servedLimit, kind, entries);
    }
  }

  lemma LiveStep(attempts: seq<Attempt>, n: nat, now: int, window: nat, servedLimit: nat, kind: Request -> bool,
                 entries: Entry -> bool)
    requires 0 < n <= |attempts|
    requires forall request, at :: kind(request) <==> entries(Accepted(request, at, window))
    ensures LiveOf(Ledger(attempts[..n], window, servedLimit), now, entries)
         == LiveOf(Ledger(attempts[..n - 1], window, servedLimit), now, entries)
            + if IsHeld(attempts, n - 1, now, window, servedLimit, kind) then 1 else 0
  {
    LedgerStep(attempts, n - 1, window, servedLimit);
    var before := Ledger(attempts[..n - 1], window, servedLimit);
    if Accepts(attempts, n - 1, window, servedLimit) {
      var entry := Accepted(attempts[n - 1].request.value, attempts[n - 1].at, window);
      OneMoreOfKind(entries, before, entry, now);
    } else {
      assert before + [] == before;
    }
  }

  lemma OneMoreOfKind(entries: Entry -> bool, ledger: seq<Entry>, entry: Entry, now: int)
    ensures LiveOf(ledger + [entry], now, entries)
         == LiveOf(ledger, now, entries) + if entry.expiration > now && entries(entry) then 1 else 0
  {
    LiveWithNewest(ledger, entry, now);
    FilterAppend(entries, Filter(LiveAt(now), ledger), [entry]);
    assert Filter(entries, [entry]) == if entries(entry) then [entry] else [];
  }

  lemma HeldStep(attempts: seq<Attempt>, n: nat, now: int, window: nat, servedLimit: nat, kind: Request -> bool)
    requires 0 < n <= |attempts|
    ensures |Held(attempts, n, now, window, servedLimit, kind)|
         == |Held(attempts, n - 1, now, window, servedLimit, kind)|
            + if IsHeld(attempts, n - 1, now, window, servedLimit, kind) then 1 else 0
  {
    OneMoreBelow(n - 1, (i: nat) => IsHeld(attempts, i, now, window, servedLimit, kind));
  }

  function AnyKind(): Request -> bool { (request: Request) => true }

  function OfKey(key: string): Request -> bool { (request: Request) => request.key == key }

  function SignedBy(signer: string): Request -> bool { (request: Request) => request.signer == signer }

  function ServedFrom(source: string): Request -> bool {
    (request: Request) => !request.stranger && request.source == source
  }

  function OfStranger(): Request -> bool { (request: Request) => request.stranger }

  function OfStrangerFrom(source: string): Request -> bool {
    (request: Request) => request.stranger && request.source == source
  }

  /** The shares a request needs a free place in: fewer than 100000 held in all, fewer than 1000 of its signer,
      and fewer than the limit of its source, or for a stranger fewer than 10000 of strangers and fewer than 250
      of strangers at its source. */
  ghost predicate SharesAreFree(attempts: seq<Attempt>, i: nat, window: nat, servedLimit: nat, request: Request)
    requires i < |attempts|
  {
    var now := attempts[i].at;
    && |Held(attempts, i, now, window, servedLimit, AnyKind())| < 100_000
    && |Held(attempts, i, now, window, servedLimit, SignedBy(request.signer))| < 1_000
    && if request.stranger
       then && |Held(attempts, i, now, window, servedLimit, OfStranger())| < 10_000
            && |Held(attempts, i, now, window, servedLimit, OfStrangerFrom(request.source))| < 250
       else |Held(attempts, i, now, window, servedLimit, ServedFrom(request.source))| < servedLimit
  }

  /** A readable signature is refused only for being held already or for a full share. */
  lemma AdmittedExactlyBelowCaps(attempts: seq<Attempt>, i: nat, window: nat, servedLimit: nat)
    requires i < |attempts|
    ensures Accepts(attempts, i, window, servedLimit) <==>
              && attempts[i].request.Some?
              && Held(attempts, i, attempts[i].at, window, servedLimit, OfKey(attempts[i].request.value.key)) == {}
              && SharesAreFree(attempts, i, window, servedLimit, attempts[i].request.value)
  {
    if attempts[i].request.Some? {
      var request, now := attempts[i].request.value, attempts[i].at;
      var live := Filter(LiveAt(now), Ledger(attempts[..i], window, servedLimit));
      AdmitsSpelledOut(live, request, servedLimit);
      KeyIsHeld(attempts, i, now, window, servedLimit, request.key);
      SharesAreCounts(attempts, i, window, servedLimit, request);
    }
  }

  ghost predicate CountsAreFree(live: seq<Entry>, request: Request, servedLimit: nat) {
    && |live| < 100_000
    && Count(live, Signer(request.signer)) < 1_000
    && if request.stranger
       then Count(live, AnyStranger) < 10_000 && Count(live, StrangerFrom(request.source)) < 250
       else Count(live, Served(request.source)) < servedLimit
  }

  lemma SharesAreCounts(attempts: seq<Attempt>, i: nat, window: nat, servedLimit: nat, request: Request)
    requires i < |attempts|
    ensures SharesAreFree(attempts, i, window, servedLimit, request)
       <==> CountsAreFree(Filter(LiveAt(attempts[i].at), Ledger(attempts[..i], window, servedLimit)), request,
                          servedLimit)
  {
    var now, all := attempts[i].at, (entry: Entry) => true;
    LiveAreHeld(attempts, i, now, window, servedLimit, AnyKind(), all);
    FilterAll(all, Filter(LiveAt(now), Ledger(attempts[..i], window, servedLimit)));
    CountIsHeld(attempts, i, now, window, servedLimit, SignedBy(request.signer), Signer(request.signer));
    CountIsHeld(attempts, i, now, window, servedLimit, OfStranger(), AnyStranger);
    CountIsHeld(attempts, i, now, window, servedLimit, OfStrangerFrom(request.source), StrangerFrom(request.source));
    CountIsHeld(attempts, i, now, window, servedLimit, ServedFrom(request.source), Served(request.source));
  }

  function ChargedTo(account: Account): Entry -> bool { (entry: Entry) => Charged(entry, account) }

  lemma CountIsHeld(attempts: seq<Attempt>, n: nat, now: int, window: nat, servedLimit: nat, kind: Request -> bool,
                    account: Account)
    requires n <= |attempts|
    requires forall request, at :: kind(request) <==> Charged(Accepted(request, at, window), account)
    ensures Count(Filter(LiveAt(now), Ledger(attempts[..n], window, servedLimit)), account)
         == |Held(attempts, n, now, window, servedLimit, kind)|
  {
    LiveAreHeld(attempts, n, now, window, servedLimit, kind, ChargedTo(account));
    CountIsFilter(Filter(LiveAt(now), Ledger(attempts[..n], window, servedLimit)), account);
  }

  lemma {:induction false} CountIsFilter(entries: seq<Entry>, account: Account)
    ensures Count(entries, account) == |Filter(ChargedTo(account), entries)|
  {
    if entries != [] {
      CountIsFilter(entries[1..], account);
    }
  }

  lemma KeyIsHeld(attempts: seq<Attempt>, n: nat, now: int, window: nat, servedLimit: nat, key: string)
    requires n <= |attempts|
    ensures HasKey(Filter(LiveAt(now), Ledger(attempts[..n], window, servedLimit)), key)
       <==> Held(attempts, n, now, window, servedLimit, OfKey(key)) != {}
  {
    var sameKey := (entry: Entry) => entry.key == key;
    LiveAreHeld(attempts, n, now, window, servedLimit, OfKey(key), sameKey);
    var live := Filter(LiveAt(now), Ledger(attempts[..n], window, servedLimit));
    FilterMembers(sameKey, live);
    if found :| found in live && found.key == key {
      assert found in Filter(sameKey, live);
    }
    if Filter(sameKey, live) != [] {
      assert Filter(sameKey, live)[0] in live;
    }
  }

  lemma AdmitsSpelledOut(live: seq<Entry>, request: Request, servedLimit: nat)
    ensures Admits(live, request, servedLimit)
       <==> !HasKey(live, request.key) && CountsAreFree(live, request, servedLimit)
  {
  }

  // ---- The guard over a whole run ----

  /** The answers are the ledger's. */
  ghost predicate AnswersAreTheLedgers(answers: seq<bool>, attempts: seq<Attempt>, window: nat, servedLimit: nat) {
    && |answers| <= |attempts|
    && forall i :: 0 <= i < |answers| ==> (answers[i] <==> Accepts(attempts, i, window, servedLimit))
  }

  /** No two accepted attempts are the same signature within the replay window. */
  ghost predicate NoReplayAccepted(answers: seq<bool>, attempts: seq<Attempt>, window: nat)
    requires |answers| == |attempts|
  {
    forall i, j :: 0 <= i < j < |attempts| && IsReplay(attempts[i], attempts[j], window) ==> !(answers[i] && answers[j])
  }

  lemma LedgerAnswersRefuseReplays(answers: seq<bool>, attempts: seq<Attempt>, window: nat, servedLimit: nat)
    requires |answers| == |attempts| && AnswersAreTheLedgers(answers, attempts, window, servedLimit)
    ensures NoReplayAccepted(answers, attempts, window)
  {
    forall i, j | 0 <= i < j < |attempts| && IsReplay(attempts[i], attempts[j], window)
      ensures !(answers[i] && answers[j])
    {
      if answers[i] {
        ReplaysAreRefused(attempts, i, j, window, servedLimit);
      }
    }
  }

  ghost predicate WithinAllCaps(entries: seq<Entry>, servedLimit: nat) {
    forall account :: WithinCaps(entries, account, servedLimit)
  }

  lemma LedgerIsWithinCaps(attempts: seq<Attempt>, now: int, window: nat, servedLimit: nat)
    requires Orderly(attempts) && ReadBy(attempts, now)
    ensures WithinAllCaps(Filter(LiveAt(now), Ledger(attempts, window, servedLimit)), servedLimit)
  {
    var n := |attempts|;
    assert attempts[..n] == attempts;
    forall account
      ensures WithinCaps(Filter(LiveAt(now), Ledger(attempts, window, servedLimit)), account, servedLimit)
    {
      CapsHold(attempts, n, now, window, servedLimit, account);
    }
  }

  /** Every readable attempt was made by this time. */
  ghost predicate ReadBy(attempts: seq<Attempt>, time: int) {
    forall attempt :: attempt in attempts && attempt.request.Some? ==> attempt.at <= time
  }

  lemma ReadByNext(attempts: seq<Attempt>, i: nat, time: int)
    requires i < |attempts| && ReadBy(attempts[..i], time) && time <= attempts[i].at
    ensures ReadBy(attempts[..i + 1], attempts[i].at)
    ensures attempts[i].request.None? ==> ReadBy(attempts[..i + 1], time)
  {
    assert attempts[..i + 1] == attempts[..i] + [attempts[i]];
  }

  /** The next attempt of a run. */
  method RecordNext(guard: ReplayGuard, attempts: seq<Attempt>, i: nat) returns (ok: bool)
    requires i < |attempts| && guard.Valid() && guard.clock <= attempts[i].at
    requires guard.accepted == Ledger(attempts[..i], guard.window, guard.servedSlotLimit)
    requires ReadBy(attempts[..i], guard.clock)
    modifies guard
    ensures guard.Valid() && old(guard.clock) <= guard.clock <= attempts[i].at
    ensures ok <==> Accepts(attempts, i, guard.window, guard.servedSlotLimit)
    ensures guard.accepted == Ledger(attempts[..i + 1], guard.window, guard.servedSlotLimit)
    ensures ReadBy(attempts[..i + 1], guard.clock)
  {
    LedgerStep(attempts, i, guard.window, guard.servedSlotLimit);
    ReadByNext(attempts, i, guard.clock);
    ok := guard.Record(attempts[i].request, attempts[i].at);
  }

  /** Offers the attempts to a new guard, one after another. */
  method RecordEach(attempts: seq<Attempt>, window: nat, servedSlotLimit: nat)
    returns (guard: ReplayGuard, answers: seq<bool>)
    requires window > 0 && Orderly(attempts)
    ensures fresh(guard) && guard.Valid() && guard.servedSlotLimit == servedSlotLimit
    ensures guard.accepted == Ledger(attempts, window, servedSlotLimit) && ReadBy(attempts, guard.clock)
    ensures |answers| == |attempts| && AnswersAreTheLedgers(answers, attempts, window, servedSlotLimit)
  {
    guard := new ReplayGuard(window, servedSlotLimit, if attempts == [] then 0 else attempts[0].at);
    answers := [];
    for i := 0 to |attempts|
      invariant fresh(guard) && guard.Valid() && guard.window == window && guard.servedSlotLimit == servedSlotLimit
      invariant guard.accepted == Ledger(attempts[..i], window, servedSlotLimit)
      invariant i < |attempts| ==> guard.clock <= attempts[i].at
      invariant ReadBy(attempts[..i], guard.clock)
      invariant |answers| == i && AnswersAreTheLedgers(answers, attempts, window, servedSlotLimit)
    {
      var ok := RecordNext(guard, attempts, i);
      answers := answers + [ok];
    }
    assert attempts[..|attempts|] == attempts;
  }

  /** A new guard that is offered the attempts accepts what the ledger accepts, so it never accepts a replay, and
      neither its entries nor its counters ever pass a cap. */
  method RecordAll(attempts: seq<Attempt>, window: nat, servedSlotLimit: nat)
    returns (guard: ReplayGuard, answers: seq<bool>)
    requires window > 0 && Orderly(attempts)
    ensures fresh(guard) && guard.Valid() && guard.accepted == Ledger(attempts, window, servedSlotLimit)
    ensures |answers| == |attempts| && AnswersAreTheLedgers(answers, attempts, window, servedSlotLimit)
    ensures NoReplayAccepted(answers, attempts, window)
    ensures WithinAllCaps(guard.entryBySignature, servedSlotLimit)
    ensures guard.CountersWithinCaps(servedSlotLimit)
  {
    guard, answers := RecordEach(attempts, window, servedSlotLimit);
    LedgerAnswersRefuseReplays(answers, attempts, window, servedSlotLimit);
    LedgerIsWithinCaps(attempts, guard.clock, window, servedSlotLimit);
    guard.CountersFollow();
  }
}
