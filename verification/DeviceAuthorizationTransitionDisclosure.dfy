/** Paging a device-authorization log: whole revisions at a time, in ascending order. */
module DeviceAuthorizationTransitionDisclosure {
  import opened Sequences
  import opened StableSort
  import opened Wrappers

  /** A signed log entry: the revision it lands at, and everything else. */
  datatype Entry = Entry(revision: nat, signed: string)

  datatype Disclosure = Disclosure(
    recoveries: seq<Entry>,
    concurrentRecoveries: seq<Entry>,
    transitions: seq<Entry>,
    nextCursor: Option<nat>)

  function LandsAfter(cursor: nat): Entry -> bool {
    (entry: Entry) => entry.revision > cursor
  }

  function LandsUpTo(revision: nat): Entry -> bool {
    (entry: Entry) => entry.revision <= revision
  }

  function LandsAt(revision: nat): Entry -> bool {
    (entry: Entry) => entry.revision == revision
  }

  function ByRevision(): (Entry, Entry) -> bool {
    (a: Entry, b: Entry) => a.revision <= b.revision
  }

  /** `filter(landsAfter).sort(byRevision)`. */
  function Above(entries: seq<Entry>, cursor: nat): seq<Entry> {
    Sort(ByRevision(), Filter(LandsAfter(cursor), entries))
  }

  function AllAbove(log: Disclosure, cursor: nat): seq<Entry> {
    Above(log.recoveries, cursor) + Above(log.concurrentRecoveries, cursor) + Above(log.transitions, cursor)
  }

  function Entries(log: Disclosure): seq<Entry> {
    log.recoveries + log.concurrentRecoveries + log.transitions
  }

  /** The distinct revisions of the entries, ascending. */
  function Revisions(entries: seq<Entry>): seq<nat> {
    if entries == [] then [] else AddAscending(entries[0].revision, Revisions(entries[1..]))
  }

  function CountAt(entries: seq<Entry>, revision: nat): nat {
    |Filter(LandsAt(revision), entries)|
  }

  /** How many of the entries each of the revisions has. */
  function CountsAt(entries: seq<Entry>, revisions: seq<nat>): (counts: seq<nat>)
    ensures |counts| == |revisions|
  {
    if revisions == [] then [] else [CountAt(entries, revisions[0])] + CountsAt(entries, revisions[1..])
  }

  function Counts(entries: seq<Entry>): (counts: seq<nat>)
    ensures |counts| == |Revisions(entries)|
  {
    CountsAt(entries, Revisions(entries))
  }

  lemma {:induction false} CountsIndexed(entries: seq<Entry>, revisions: seq<nat>, k: nat)
    requires k < |revisions|
    ensures CountsAt(entries, revisions)[k] == CountAt(entries, revisions[k])
  {
    if k > 0 {
      CountsIndexed(entries, revisions[1..], k - 1);
    }
  }

  /** How many of the revisions are served, the first `k` of them (`served` entries) being served
      already: the first one always, then as long as the entries stay within the limit. */
  function Served(counts: seq<nat>, limit: int, k: nat, served: nat): (n: nat)
    requires k <= |counts|
    ensures k <= n <= |counts|
    decreases |counts| - k
  {
    if k == |counts| then k
    else if k > 0 && served + counts[k] > limit then k
    else Served(counts, limit, k + 1, served + counts[k])
  }

  /** The last revision the loop serves, if there is any entry. */
  function LastOf(entries: seq<Entry>, limit: int): Option<nat> {
    var n := Served(Counts(entries), limit, 0, 0);
    if n == 0 then None else Some(Revisions(entries)[n - 1])
  }

  /** How many revisions the page holds. */
  function ServedOn(log: Disclosure, cursor: nat, limit: int): (n: nat)
    ensures n <= |Revisions(AllAbove(log, cursor))|
  {
    Served(Counts(AllAbove(log, cursor)), limit, 0, 0)
  }

  function LastRevision(log: Disclosure, cursor: nat, limit: int): Option<nat> {
    LastOf(AllAbove(log, cursor), limit)
  }

  function Included(last: Option<nat>): Entry -> bool {
    (entry: Entry) => last.Some? && entry.revision <= last.value
  }

  function PageOf(log: Disclosure, cursor: nat, limit: int): Disclosure {
    var last := LastRevision(log, cursor, limit);
    var revisions := Revisions(AllAbove(log, cursor));
    Disclosure(
      Filter(Included(last), Above(log.recoveries, cursor)),
      Filter(Included(last), Above(log.concurrentRecoveries, cursor)),
      Filter(Included(last), Above(log.transitions, cursor)),
      if last.Some? && revisions != [] && revisions[|revisions| - 1] > last.value then last else None)
  }

  /** The loop of `page`. */
  method ServeRevisions(all: seq<Entry>, limit: int) returns (lastRevision: Option<nat>)
    ensures lastRevision == LastOf(all, limit)
  {
    var revisions := Revisions(all);
    ghost var counts := Counts(all);
    var served := 0;
    lastRevision := None;
    ghost var k := 0;
    for index := 0 to |revisions|
      invariant k == index && 0 <= served
      invariant lastRevision == if k == 0 then None else Some(revisions[k - 1])
      invariant Served(counts, limit, k, served) == Served(counts, limit, 0, 0)
    {
      var revision := revisions[index];
      CountsIndexed(all, revisions, index);
      if lastRevision.Some? && served + CountAt(all, revision) > limit {
        break;
      }
      served := served + CountAt(all, revision);
      lastRevision := Some(revision);
      k := k + 1;
    }
    assert k == Served(counts, limit, 0, 0);
  }

  method Page(log: Disclosure, cursor: nat, limit: int) returns (page: Disclosure)
    ensures page == PageOf(log, cursor, limit)
  {
    var recoveries := Above(log.recoveries, cursor);
    var concurrentRecoveries := Above(log.concurrentRecoveries, cursor);
    var transitions := Above(log.transitions, cursor);
    var all := recoveries + concurrentRecoveries + transitions;
    var revisions := Revisions(all);
    var lastRevision := ServeRevisions(all, limit);
    var hasMore := lastRevision.Some? && revisions != [] && revisions[|revisions| - 1] > lastRevision.value;
    page := Disclosure(
      Filter(Included(lastRevision), recoveries),
      Filter(Included(lastRevision), concurrentRecoveries),
      Filter(Included(lastRevision), transitions),
      if hasMore then lastRevision else None);
  }

  // ---- Facts about revisions ----

  lemma {:induction false} RevisionsAscend(entries: seq<Entry>)
    ensures Ascending(Revisions(entries))
  {
    if entries != [] {
      RevisionsAscend(entries[1..]);
      AddAscends(entries[0].revision, Revisions(entries[1..]));
    }
  }

  /** Every entry's revision is listed. */
  lemma {:induction false} RevisionIndex(entries: seq<Entry>, entry: Entry) returns (i: nat)
    requires entry in entries
    ensures i < |Revisions(entries)| && Revisions(entries)[i] == entry.revision
  {
    var rest := Revisions(entries[1..]);
    RevisionsAscend(entries[1..]);
    AddAscends(entries[0].revision, rest);
    if entry != entries[0] {
      var k := RevisionIndex(entries[1..], entry);
      assert rest[k] in rest;
    }
    assert entry.revision in Revisions(entries);
    i :| i < |Revisions(entries)| && Revisions(entries)[i] == entry.revision;
  }

  /** Every listed revision is some entry's. */
  lemma {:induction false} RevisionEntry(entries: seq<Entry>, i: nat) returns (entry: Entry)
    requires i < |Revisions(entries)|
    ensures entry in entries && entry.revision == Revisions(entries)[i]
  {
    var rest := Revisions(entries[1..]);
    RevisionsAscend(entries[1..]);
    AddAscends(entries[0].revision, rest);
    assert Revisions(entries)[i] in Revisions(entries);
    if Revisions(entries)[i] == entries[0].revision {
      entry := entries[0];
    } else {
      var k :| 0 <= k < |rest| && rest[k] == Revisions(entries)[i];
      entry := RevisionEntry(entries[1..], k);
    }
  }

  lemma AboveMembers(entries: seq<Entry>, cursor: nat)
    ensures forall entry :: entry in Above(entries, cursor) <==> entry in entries && entry.revision > cursor
    ensures SortedBy(ByRevision(), Above(entries, cursor))
  {
    FilterMembers(LandsAfter(cursor), entries);
    SortIsPermutation(ByRevision(), Filter(LandsAfter(cursor), entries));
    SortIsSorted(ByRevision(), Filter(LandsAfter(cursor), entries));
  }

  lemma AllAboveMembers(log: Disclosure, cursor: nat)
    ensures forall entry :: entry in AllAbove(log, cursor) <==> entry in Entries(log) && entry.revision > cursor
  {
    AboveMembers(log.recoveries, cursor);
    AboveMembers(log.concurrentRecoveries, cursor);
    AboveMembers(log.transitions, cursor);
  }

  /** A sorted list splits at a revision. */
  lemma {:induction false} SortedSplits(entries: seq<Entry>, revision: nat)
    requires SortedBy(ByRevision(), entries)
    ensures entries == Filter(LandsUpTo(revision), entries) + Filter(LandsAfter(revision), entries)
  {
    if entries != [] {
      SortedSplits(entries[1..], revision);
      if entries[0].revision > revision {
        forall entry | entry in entries[1..] ensures !LandsUpTo(revision)(entry) {
          assert ByRevision()(entries[0], entry);
        }
        FilterNone(LandsUpTo(revision), entries[1..]);
      }
    }
  }

  /** What lands after the page is what lands above the next cursor. */
  lemma AboveLater(entries: seq<Entry>, cursor: nat, next: nat)
    requires cursor <= next
    ensures Above(entries, cursor) == Filter(LandsUpTo(next), Above(entries, cursor)) + Above(entries, next)
  {
    AboveMembers(entries, cursor);
    SortedSplits(Above(entries, cursor), next);
    SortFiltered(ByRevision(), LandsAfter(next), Filter(LandsAfter(cursor), entries));
    FilterTwice(LandsAfter(next), LandsAfter(cursor), LandsAfter(next), entries);
  }

  // ---- Following the cursor ----

  /** There is a next cursor exactly when some revision is left over, and then it is the last one
      served. */
  lemma CursorIsLastServed(log: Disclosure, cursor: nat, limit: int)
    ensures var n := ServedOn(log, cursor, limit);
            var revisions := Revisions(AllAbove(log, cursor));
            && Ascending(revisions)
            && PageOf(log, cursor, limit).nextCursor == (if 0 < n < |revisions| then Some(revisions[n - 1]) else None)
            && (revisions != [] ==> n > 0)
  {
    RevisionsAscend(AllAbove(log, cursor));
    if Revisions(AllAbove(log, cursor)) != [] {
      FirstIsServed(Counts(AllAbove(log, cursor)), limit);
    }
  }

  lemma FirstIsServed(counts: seq<nat>, limit: int)
    requires counts != []
    ensures Served(counts, limit, 0, 0) > 0
  {
  }

  /** The next cursor lies above the cursor, at or above some entry of the page. */
  lemma CursorAdvances(log: Disclosure, cursor: nat, limit: int) returns (served: Entry)
    requires PageOf(log, cursor, limit).nextCursor.Some?
    ensures served in Entries(log) && served.revision == PageOf(log, cursor, limit).nextCursor.value > cursor
    ensures LastRevision(log, cursor, limit) == PageOf(log, cursor, limit).nextCursor
  {
    CursorIsLastServed(log, cursor, limit);
    served := RevisionEntry(AllAbove(log, cursor), ServedOn(log, cursor, limit) - 1);
    AllAboveMembers(log, cursor);
  }

  ghost function Remaining(log: Disclosure, cursor: nat): nat {
    |Filter(LandsAfter(cursor), Entries(log))|
  }

  lemma RemainingShrinks(log: Disclosure, cursor: nat, limit: int)
    requires PageOf(log, cursor, limit).nextCursor.Some?
    ensures Remaining(log, PageOf(log, cursor, limit).nextCursor.value) < Remaining(log, cursor)
  {
    var served := CursorAdvances(log, cursor, limit);
    var next := PageOf(log, cursor, limit).nextCursor.value;
    var between := (entry: Entry) => cursor < entry.revision <= next;
    FilterSplitCount(LandsAfter(cursor), LandsAfter(next), between, Entries(log));
    FilterMembers(between, Entries(log));
    assert served in Filter(between, Entries(log));
  }

  /** Every page a reader gets by following the cursor. */
  ghost function Pages(log: Disclosure, cursor: nat, limit: int): (pages: seq<Disclosure>)
    ensures pages != []
    decreases Remaining(log, cursor)
  {
    var page := PageOf(log, cursor, limit);
    if page.nextCursor.None? then [page]
    else
      RemainingShrinks(log, cursor, limit);
      [page] + Pages(log, page.nextCursor.value, limit)
  }

  /** The pages put together, list by list. */
  ghost function Joined(pages: seq<Disclosure>): Disclosure {
    if pages == [] then Disclosure([], [], [], None) else
      var rest := Joined(pages[1..]);
      Disclosure(pages[0].recoveries + rest.recoveries,
                 pages[0].concurrentRecoveries + rest.concurrentRecoveries,
                 pages[0].transitions + rest.transitions,
                 None)
  }

  /** Without a next cursor the page reaches every entry above the cursor. */
  lemma LastPageReachesAll(log: Disclosure, cursor: nat, limit: int, entry: Entry)
    requires PageOf(log, cursor, limit).nextCursor.None?
    requires entry in AllAbove(log, cursor)
    ensures Included(LastRevision(log, cursor, limit))(entry)
  {
    var i := RevisionIndex(AllAbove(log, cursor), entry);
    CursorIsLastServed(log, cursor, limit);
    assert ServedOn(log, cursor, limit) == |Revisions(AllAbove(log, cursor))|;
  }

  /** One list of a page: up to the next cursor, or all of it on the last page. */
  lemma PageList(log: Disclosure, entries: seq<Entry>, cursor: nat, limit: int)
    requires forall entry :: entry in entries ==> entry in Entries(log)
    ensures var page := PageOf(log, cursor, limit);
            Filter(Included(LastRevision(log, cursor, limit)), Above(entries, cursor))
            == if page.nextCursor.Some? then Filter(LandsUpTo(page.nextCursor.value), Above(entries, cursor))
               else Above(entries, cursor)
  {
    var last := LastRevision(log, cursor, limit);
    var page := PageOf(log, cursor, limit);
    AboveMembers(entries, cursor);
    AllAboveMembers(log, cursor);
    if page.nextCursor.Some? {
      var served := CursorAdvances(log, cursor, limit);
      FilterAgrees(Included(last), LandsUpTo(page.nextCursor.value), Above(entries, cursor));
    } else {
      forall entry | entry in Above(entries, cursor) ensures Included(last)(entry) {
        LastPageReachesAll(log, cursor, limit, entry);
      }
      FilterAll(Included(last), Above(entries, cursor));
    }
  }

  /** Following the cursor from any point, the pages together hold every entry above it exactly once,
      each list in revision order. */
  lemma {:induction false} PagesHoldEverythingOnce(log: Disclosure, cursor: nat, limit: int)
    ensures Joined(Pages(log, cursor, limit))
         == Disclosure(Above(log.recoveries, cursor), Above(log.concurrentRecoveries, cursor),
                       Above(log.transitions, cursor), None)
    decreases Remaining(log, cursor)
  {
    var page := PageOf(log, cursor, limit);
    PageList(log, log.recoveries, cursor, limit);
    PageList(log, log.concurrentRecoveries, cursor, limit);
    PageList(log, log.transitions, cursor, limit);
    var pages := Pages(log, cursor, limit);
    if page.nextCursor.None? {
      assert pages[1..] == [];
    } else {
      var next := page.nextCursor.value;
      var served := CursorAdvances(log, cursor, limit);
      RemainingShrinks(log, cursor, limit);
      PagesHoldEverythingOnce(log, next, limit);
      assert pages[1..] == Pages(log, next, limit);
      AboveLater(log.recoveries, cursor, next);
      AboveLater(log.concurrentRecoveries, cursor, next);
      AboveLater(log.transitions, cursor, next);
    }
  }

  /** No revision is split: with one entry of a revision a page holds every entry of it. */
  lemma RevisionsAreWhole(log: Disclosure, cursor: nat, limit: int, served: Entry, other: Entry)
    requires served in Entries(PageOf(log, cursor, limit))
    requires other in Entries(log) && other.revision == served.revision
    ensures other in Entries(PageOf(log, cursor, limit))
  {
    var last := LastRevision(log, cursor, limit);
    AboveMembers(log.recoveries, cursor);
    AboveMembers(log.concurrentRecoveries, cursor);
    AboveMembers(log.transitions, cursor);
    FilterMembers(Included(last), Above(log.recoveries, cursor));
    FilterMembers(Included(last), Above(log.concurrentRecoveries, cursor));
    FilterMembers(Included(last), Above(log.transitions, cursor));
  }

  // ---- The limit ----

  /** How many entries the first `k` of the revisions have. */
  function EntriesThrough(entries: seq<Entry>, revisions: seq<nat>, k: nat): nat
    requires k <= |revisions|
  {
    if k == 0 then 0 else |Filter(LandsUpTo(revisions[k - 1]), entries)|
  }

  ghost predicate Lists(revisions: seq<nat>, entries: seq<Entry>) {
    && Ascending(revisions)
    && forall entry :: entry in entries ==> entry.revision in revisions
  }

  lemma RevisionsList(entries: seq<Entry>)
    ensures Lists(Revisions(entries), entries)
  {
    RevisionsAscend(entries);
    forall entry | entry in entries ensures entry.revision in Revisions(entries) {
      var i := RevisionIndex(entries, entry);
    }
  }

  /** One revision more adds its own entries. */
  lemma CountNext(entries: seq<Entry>, revisions: seq<nat>, k: nat)
    requires Lists(revisions, entries) && k < |revisions|
    ensures EntriesThrough(entries, revisions, k + 1)
         == EntriesThrough(entries, revisions, k) + CountAt(entries, revisions[k])
  {
    var previous := (entry: Entry) => k > 0 && entry.revision <= revisions[k - 1];
    forall entry | entry in entries
      ensures LandsUpTo(revisions[k])(entry) <==> previous(entry) || LandsAt(revisions[k])(entry)
    {
      var i :| 0 <= i < |revisions| && revisions[i] == entry.revision;
    }
    FilterSplitCount(LandsUpTo(revisions[k]), previous, LandsAt(revisions[k]), entries);
    if k == 0 {
      FilterNone(previous, entries);
    } else {
      FilterAgrees(previous, LandsUpTo(revisions[k - 1]), entries);
    }
  }

  function Total(counts: seq<nat>, k: nat): nat
    requires k <= |counts|
  {
    if k == 0 then 0 else Total(counts, k - 1) + counts[k - 1]
  }

  /** The loop stops at the first revision, after the first one, that would exceed the limit. */
  lemma {:induction false} LoopStops(counts: seq<nat>, limit: int, k: nat)
    requires k <= |counts| && (k > 1 ==> Total(counts, k) <= limit)
    ensures var n := Served(counts, limit, k, Total(counts, k));
            && (n > 1 ==> Total(counts, n) <= limit)
            && (0 < n < |counts| ==> Total(counts, n + 1) > limit)
    decreases |counts| - k
  {
    if k < |counts| && (k == 0 || Total(counts, k + 1) <= limit) {
      LoopStops(counts, limit, k + 1);
    }
  }

  lemma {:induction false} EntriesAreCounted(entries: seq<Entry>, revisions: seq<nat>, k: nat)
    requires Lists(revisions, entries) && k <= |revisions|
    ensures EntriesThrough(entries, revisions, k) == Total(CountsAt(entries, revisions), k)
  {
    if k > 0 {
      EntriesAreCounted(entries, revisions, k - 1);
      CountNext(entries, revisions, k - 1);
      CountsIndexed(entries, revisions, k - 1);
    }
  }

  lemma ServedEntries(entries: seq<Entry>, revisions: seq<nat>, limit: int)
    requires Lists(revisions, entries)
    ensures var n := Served(CountsAt(entries, revisions), limit, 0, 0);
            && (n > 1 ==> EntriesThrough(entries, revisions, n) <= limit)
            && (0 < n < |revisions| ==> EntriesThrough(entries, revisions, n + 1) > limit)
  {
    var counts := CountsAt(entries, revisions);
    var n := Served(counts, limit, 0, 0);
    LoopStops(counts, limit, 0);
    EntriesAreCounted(entries, revisions, n);
    if n < |revisions| {
      EntriesAreCounted(entries, revisions, n + 1);
    }
  }

  lemma PageEntries(log: Disclosure, cursor: nat, limit: int)
    ensures Entries(PageOf(log, cursor, limit))
         == Filter(Included(LastRevision(log, cursor, limit)), AllAbove(log, cursor))
    ensures |Entries(PageOf(log, cursor, limit))|
         == EntriesThrough(AllAbove(log, cursor), Revisions(AllAbove(log, cursor)), ServedOn(log, cursor, limit))
  {
    var last := LastRevision(log, cursor, limit);
    var included := Included(last);
    var a, b := Above(log.recoveries, cursor), Above(log.concurrentRecoveries, cursor);
    var c := Above(log.transitions, cursor);
    FilterAppend(included, a + b, c);
    FilterAppend(included, a, b);
    if last.None? {
      FilterNone(included, AllAbove(log, cursor));
    } else {
      FilterAgrees(included, LandsUpTo(last.value), AllAbove(log, cursor));
    }
  }

  /** A page exceeds the limit only when it holds a single revision. */
  lemma PageRespectsLimit(log: Disclosure, cursor: nat, limit: int)
    ensures var entries := Entries(PageOf(log, cursor, limit));
            |entries| > limit ==> forall a, b :: a in entries && b in entries ==> a.revision == b.revision
  {
    var all := AllAbove(log, cursor);
    PageEntries(log, cursor, limit);
    RevisionsList(all);
    ServedEntries(all, Revisions(all), limit);
    var entries := Entries(PageOf(log, cursor, limit));
    var included := Included(LastRevision(log, cursor, limit));
    FilterMembers(included, all);
    if |entries| > limit {
      forall a | a in entries ensures a.revision == Revisions(all)[0] {
        RevisionsAscend(all);
        var i := RevisionIndex(all, a);
      }
    }
  }

  /** A page is empty only when nothing is left above the cursor. */
  lemma ReaderAlwaysAdvances(log: Disclosure, cursor: nat, limit: int, entry: Entry)
    requires entry in Entries(log) && entry.revision > cursor
    ensures Entries(PageOf(log, cursor, limit)) != []
  {
    var all := AllAbove(log, cursor);
    AllAboveMembers(log, cursor);
    var i := RevisionIndex(all, entry);
    CursorIsLastServed(log, cursor, limit);
    var n := ServedOn(log, cursor, limit);
    var served := RevisionEntry(all, n - 1);
    PageEntries(log, cursor, limit);
    FilterMembers(Included(LastRevision(log, cursor, limit)), all);
    assert served in Entries(PageOf(log, cursor, limit));
  }

  lemma FewerUpTo(entries: seq<Entry>, low: nat, high: nat)
    requires low <= high
    ensures |Filter(LandsUpTo(low), entries)| <= |Filter(LandsUpTo(high), entries)|
  {
    var between := (entry: Entry) => low < entry.revision <= high;
    FilterSplitCount(LandsUpTo(high), LandsUpTo(low), between, entries);
  }

  lemma LaterRevisionExceeds(entries: seq<Entry>, revisions: seq<nat>, limit: int, n: nat, later: Entry)
    requires Lists(revisions, entries)
    requires 0 < n < |revisions| && EntriesThrough(entries, revisions, n + 1) > limit
    requires later in entries && later.revision > revisions[n - 1]
    ensures |Filter(LandsUpTo(later.revision), entries)| > limit
  {
    var i :| 0 <= i < |revisions| && revisions[i] == later.revision;
    FewerUpTo(entries, revisions[n], later.revision);
  }

  lemma SomethingIsLeft(revisions: seq<nat>, entries: seq<Entry>, n: nat, later: Entry)
    requires Lists(revisions, entries) && later in entries
    requires 0 < n <= |revisions| && later.revision > revisions[n - 1]
    ensures n < |revisions|
  {
    var i :| 0 <= i < |revisions| && revisions[i] == later.revision;
  }

  /** A page is as long as the limit allows: through any revision after the last one served there are
      too many entries. */
  lemma NextRevisionWouldExceed(entries: seq<Entry>, revisions: seq<nat>, limit: int, later: Entry)
    requires Lists(revisions, entries) && later in entries
    requires var n := Served(CountsAt(entries, revisions), limit, 0, 0);
             n > 0 && later.revision > revisions[n - 1]
    ensures |Filter(LandsUpTo(later.revision), entries)| > limit
  {
    var n := Served(CountsAt(entries, revisions), limit, 0, 0);
    ServedEntries(entries, revisions, limit);
    SomethingIsLeft(revisions, entries, n, later);
    LaterRevisionExceeds(entries, revisions, limit, n, later);
  }
}
