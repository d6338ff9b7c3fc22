/** Which domain events were processed already: claims, commits and releases of many consumers, interleaved
    at every await. No event is processed twice until its record may have expired. */
module LocalProcessedDomainEventIdempotencyStore {

  const TTL_MS := 2_592_000_000
  const CLEANUP_INTERVAL_MS := 86_400_000

  /** Where one consumer stands between two awaits. `found` is what its lookup saw when it was made. */
  datatype Phase =
    | LookingUp
    | LookedUp(found: bool)
    | Holding
    | CleaningUp(now: int)
    | Saving(now: int)
    | Saved

  datatype Consumer = Consumer(key: string, phase: Phase)

  datatype Save = Save(key: string, at: int)

  /** The keys in flight, the stored records with their times, and every save ever made. */
  datatype State = State(
    inFlight: set<string>,
    processed: map<string, int>,
    nextCleanupAt: int,
    consumers: map<nat, Consumer>,
    saves: seq<Save>,
    clock: int)

  /** What happens between two awaits. A lookup, a cleanup or a save may also fail. */
  datatype Step =
    | Claim(id: nat, key: string)
    | Look(id: nat)
    | Resume(id: nat)
    | LookupFails(id: nat)
    | Commit(id: nat, now: int)
    | Sweep(id: nat, key: string)
    | CleanedUp(id: nat)
    | Store(id: nat)
    | CommitFails(id: nat)
    | Finish(id: nat)
    | Release(id: nat)

  /** A node that starts on the records it finds. */
  function Start(processed: map<string, int>): State {
    State({}, processed, 0, map[], [], 0)
  }

  predicate At(s: State, id: nat, phase: Phase) {
    id in s.consumers && s.consumers[id].phase == phase
  }

  predicate Enabled(s: State, step: Step) {
    match step
    case Claim(id, _) => id !in s.consumers
    case Look(id) => At(s, id, LookingUp)
    case Resume(id) => id in s.consumers && s.consumers[id].phase.LookedUp?
    case LookupFails(id) => At(s, id, LookingUp)
    case Commit(id, now) => At(s, id, Holding) && s.clock <= now
    case Sweep(id, key) => id in s.consumers && s.consumers[id].phase.CleaningUp?
                           && key in s.processed && s.processed[key] < s.consumers[id].phase.now - TTL_MS
    case CleanedUp(id) => id in s.consumers && s.consumers[id].phase.CleaningUp?
    case Store(id) => id in s.consumers && s.consumers[id].phase.Saving?
    case CommitFails(id) => id in s.consumers && (s.consumers[id].phase.CleaningUp? || s.consumers[id].phase.Saving?)
    case Finish(id) => At(s, id, Saved)
    case Release(id) => At(s, id, Holding)
  }

  /** The consumer goes, and its key is no longer in flight. */
  function Leave(s: State, id: nat): State
    requires id in s.consumers
  {
    s.(inFlight := s.inFlight - {s.consumers[id].key}, consumers := s.consumers - {id})
  }

  function Move(s: State, id: nat, phase: Phase): State
    requires id in s.consumers
  {
    s.(consumers := s.consumers[id := s.consumers[id].(phase := phase)])
  }

  function Next(s: State, step: Step): State
    requires Enabled(s, step)
  {
    match step
    case Claim(id, key) =>
      if key in s.inFlight then s
      else s.(inFlight := s.inFlight + {key}, consumers := s.consumers[id := Consumer(key, LookingUp)])
    case Look(id) => Move(s, id, LookedUp(s.consumers[id].key in s.processed))
    case Resume(id) => if s.consumers[id].phase.found then Leave(s, id) else Move(s, id, Holding)
    case LookupFails(id) => Leave(s, id)
    case Commit(id, now) =>
      if now < s.nextCleanupAt then Move(s, id, Saving(now)).(clock := now)
      else Move(s, id, CleaningUp(now)).(clock := now, nextCleanupAt := now + CLEANUP_INTERVAL_MS)
    case Sweep(_, key) => s.(processed := s.processed - {key})
    case CleanedUp(id) => Move(s, id, Saving(s.consumers[id].phase.now))
    case Store(id) =>
      var key, now := s.consumers[id].key, s.consumers[id].phase.now;
      Move(s, id, Saved).(processed := s.processed[key := now], saves := s.saves + [Save(key, now)])
    case CommitFails(id) => Leave(s, id)
    case Finish(id) => Leave(s, id)
    case Release(id) => Leave(s, id)
  }

  // ---- What every step keeps ----

  /** The keys in flight are exactly those of the consumers under way, and no two share one. */
  ghost predicate OneConsumerPerKey(s: State) {
    && (forall id :: id in s.consumers ==> s.consumers[id].key in s.inFlight)
    && (forall key :: key in s.inFlight ==> exists id :: id in s.consumers && s.consumers[id].key == key)
    && (forall i, j :: i in s.consumers && j in s.consumers && i != j ==> s.consumers[i].key != s.consumers[j].key)
  }

  /** Every save of the key is older than the time by more than a record lives. */
  ghost predicate LongAgo(saves: seq<Save>, key: string, time: int) {
    forall i :: 0 <= i < |saves| && saves[i].key == key ==> saves[i].at + TTL_MS < time
  }

  /** A stored record is the newest save of its key; without one every save of the key is long ago. */
  ghost predicate RecordsTell(s: State, key: string) {
    if key in s.processed
    then forall i :: 0 <= i < |s.saves| && s.saves[i].key == key ==> s.saves[i].at <= s.processed[key]
    else LongAgo(s.saves, key, s.clock)
  }

  /** A consumer that was let through still finds no record of its key. */
  ghost predicate LetThrough(s: State, consumer: Consumer) {
    match consumer.phase
    case LookingUp => true
    case LookedUp(found) => !found ==> consumer.key !in s.processed
    case Holding => consumer.key !in s.processed
    case CleaningUp(now) => consumer.key !in s.processed && now <= s.clock && LongAgo(s.saves, consumer.key, now)
    case Saving(now) => consumer.key !in s.processed && now <= s.clock && LongAgo(s.saves, consumer.key, now)
    case Saved => true
  }

  ghost predicate Spaced(saves: seq<Save>) {
    forall i, j :: 0 <= i < j < |saves| && saves[i].key == saves[j].key ==> saves[i].at + TTL_MS < saves[j].at
  }

  ghost predicate Sound(s: State) {
    && OneConsumerPerKey(s)
    && (forall key :: RecordsTell(s, key))
    && (forall id :: id in s.consumers ==> LetThrough(s, s.consumers[id]))
    && Spaced(s.saves)
  }

  lemma LeavingKeeps(s: State, id: nat)
    requires Sound(s) && id in s.consumers
    ensures Sound(Leave(s, id))
  {
    var next := Leave(s, id);
    forall key | key in next.inFlight ensures exists i :: i in next.consumers && next.consumers[i].key == key {
      var i :| i in s.consumers && s.consumers[i].key == key;
      assert i in next.consumers;
    }
    forall key ensures RecordsTell(next, key) {
      assert RecordsTell(s, key);
    }
    forall i | i in next.consumers ensures LetThrough(next, next.consumers[i]) {
      assert LetThrough(s, s.consumers[i]);
    }
  }

  lemma MovingKeeps(s: State, id: nat, phase: Phase)
    requires Sound(s) && id in s.consumers && LetThrough(s, s.consumers[id].(phase := phase))
    ensures Sound(Move(s, id, phase))
  {
    var next := Move(s, id, phase);
    MovedStaysAlone(s, id, phase);
    forall key ensures RecordsTell(next, key) {
      assert RecordsTell(s, key);
    }
    forall i | i in next.consumers ensures LetThrough(next, next.consumers[i]) {
      assert i != id ==> LetThrough(s, s.consumers[i]);
    }
  }

  lemma TimePassingKeeps(s: State, now: int, nextCleanupAt: int)
    requires Sound(s) && s.clock <= now
    ensures Sound(s.(clock := now, nextCleanupAt := nextCleanupAt))
  {
    var next := s.(clock := now, nextCleanupAt := nextCleanupAt);
    forall key ensures RecordsTell(next, key) {
      assert RecordsTell(s, key);
    }
    forall i | i in next.consumers ensures LetThrough(next, next.consumers[i]) {
      assert LetThrough(s, s.consumers[i]);
    }
  }

  lemma ClaimKeeps(s: State, id: nat, key: string)
    requires Sound(s) && id !in s.consumers && key !in s.inFlight
    ensures Sound(Next(s, Claim(id, key)))
  {
    var next := Next(s, Claim(id, key));
    forall k | k in next.inFlight ensures exists i :: i in next.consumers && next.consumers[i].key == k {
      if k == key {
        assert next.consumers[id].key == k;
      } else {
        var i :| i in s.consumers && s.consumers[i].key == k;
        assert next.consumers[i].key == k;
      }
    }
    forall k ensures RecordsTell(next, k) {
      assert RecordsTell(s, k);
    }
    forall i | i in next.consumers ensures LetThrough(next, next.consumers[i]) {
      assert i != id ==> LetThrough(s, s.consumers[i]);
    }
  }

  lemma SweepKeeps(s: State, id: nat, key: string)
    requires Sound(s) && Enabled(s, Sweep(id, key))
    ensures Sound(Next(s, Sweep(id, key)))
  {
    var next := Next(s, Sweep(id, key));
    assert LetThrough(s, s.consumers[id]);
    forall k ensures RecordsTell(next, k) {
      assert RecordsTell(s, k);
    }
    forall i | i in next.consumers ensures LetThrough(next, next.consumers[i]) {
      assert LetThrough(s, s.consumers[i]);
    }
  }

  /** A save keeps every other consumer let through: none of them has its key. */
  lemma StoreKeeps(s: State, id: nat)
    requires Sound(s) && Enabled(s, Store(id))
    ensures Sound(Next(s, Store(id)))
  {
    var next := Next(s, Store(id));
    assert LetThrough(s, s.consumers[id]);
    StoredRecordsTell(s, id);
    MovedStaysAlone(s, id, Saved);
    assert OneConsumerPerKey(next);
    forall i | i in next.consumers ensures LetThrough(next, next.consumers[i]) {
      if i != id {
        OthersStayLetThrough(s, id, i);
      }
    }
  }

  lemma OthersStayLetThrough(s: State, id: nat, other: nat)
    requires Sound(s) && Enabled(s, Store(id)) && other in s.consumers && other != id
    ensures LetThrough(Next(s, Store(id)), s.consumers[other])
  {
    assert LetThrough(s, s.consumers[other]) && s.consumers[other].key != s.consumers[id].key;
  }

  lemma StoredRecordsTell(s: State, id: nat)
    requires Sound(s) && Enabled(s, Store(id))
    ensures forall key :: RecordsTell(Next(s, Store(id)), key)
    ensures Spaced(Next(s, Store(id)).saves)
  {
    assert LetThrough(s, s.consumers[id]);
    forall key ensures RecordsTell(Next(s, Store(id)), key) {
      assert RecordsTell(s, key);
    }
  }

  lemma MovedStaysAlone(s: State, id: nat, phase: Phase)
    requires OneConsumerPerKey(s) && id in s.consumers
    ensures OneConsumerPerKey(Move(s, id, phase))
  {
    var next := Move(s, id, phase);
    forall key | key in next.inFlight ensures exists i :: i in next.consumers && next.consumers[i].key == key {
      var i :| i in s.consumers && s.consumers[i].key == key;
      assert next.consumers[i].key == key;
    }
  }

  lemma CommitKeeps(s: State, id: nat, now: int)
    requires Sound(s) && Enabled(s, Commit(id, now))
    ensures Sound(Next(s, Commit(id, now)))
  {
    assert LetThrough(s, s.consumers[id]) && s.consumers[id].phase == Holding;
    var cleanup := if now < s.nextCleanupAt then s.nextCleanupAt else now + CLEANUP_INTERVAL_MS;
    var later := s.(clock := now, nextCleanupAt := cleanup);
    TimePassingKeeps(s, now, cleanup);
    assert RecordsTell(later, s.consumers[id].key);
    MovingKeeps(later, id, if now < s.nextCleanupAt then Saving(now) else CleaningUp(now));
  }

  lemma StepKeeps(s: State, step: Step)
    requires Sound(s) && Enabled(s, step)
    ensures Sound(Next(s, step))
  {
    match step
    case Claim(id, key) =>
      if key !in s.inFlight {
        ClaimKeeps(s, id, key);
      }
    case Look(id) => MovingKeeps(s, id, LookedUp(s.consumers[id].key in s.processed));
    case Resume(id) =>
      assert LetThrough(s, s.consumers[id]);
      if s.consumers[id].phase.found {
        LeavingKeeps(s, id);
      } else {
        MovingKeeps(s, id, Holding);
      }
    case LookupFails(id) => LeavingKeeps(s, id);
    case Commit(id, now) => CommitKeeps(s, id, now);
    case Sweep(id, key) => SweepKeeps(s, id, key);
    case CleanedUp(id) =>
      assert LetThrough(s, s.consumers[id]);
      MovingKeeps(s, id, Saving(s.consumers[id].phase.now));
    case Store(id) => StoreKeeps(s, id);
    case CommitFails(id) => LeavingKeeps(s, id);
    case Finish(id) => LeavingKeeps(s, id);
    case Release(id) => LeavingKeeps(s, id);
  }

  // ---- Whole runs ----

  ghost predicate Runs(from: State, steps: seq<Step>, to: State)
    decreases |steps|
  {
    if steps == [] then from == to
    else Enabled(from, steps[0]) && Runs(Next(from, steps[0]), steps[1..], to)
  }

  lemma {:induction false} RunKeeps(from: State, steps: seq<Step>, to: State)
    requires Sound(from) && Runs(from, steps, to)
    ensures Sound(to)
    decreases |steps|
  {
    if steps != [] {
      StepKeeps(from, steps[0]);
      RunKeeps(Next(from, steps[0]), steps[1..], to);
    }
  }

  /** However the steps of all consumers interleave, no key is held twice at once, and two commits of one
      key are further apart than a record lives. */
  lemma NeverProcessedTwice(processed: map<string, int>, steps: seq<Step>, s: State, i: nat, j: nat)
    requires Runs(Start(processed), steps, s)
    ensures OneConsumerPerKey(s)
    ensures i < j < |s.saves| && s.saves[i].key == s.saves[j].key ==> s.saves[i].at + TTL_MS < s.saves[j].at
  {
    assert Sound(Start(processed));
    RunKeeps(Start(processed), steps, s);
  }

  /** A consumer that holds a key finds it neither recorded nor committed within a record's life, and keeps
      finding it so until it commits or releases. */
  lemma HeldKeyIsUnrecorded(processed: map<string, int>, steps: seq<Step>, s: State, id: nat)
    requires Runs(Start(processed), steps, s) && At(s, id, Holding)
    ensures s.consumers[id].key !in s.processed && LongAgo(s.saves, s.consumers[id].key, s.clock)
  {
    assert Sound(Start(processed));
    RunKeeps(Start(processed), steps, s);
    assert LetThrough(s, s.consumers[id]) && RecordsTell(s, s.consumers[id].key);
  }

  // ---- Who is let through, and that keys come free ----

  /** Whose step it is. */
  function By(step: Step): nat {
    step.id
  }

  ghost predicate ByOthers(steps: seq<Step>, id: nat) {
    forall step :: step in steps ==> By(step) != id
  }

  /** A claim of a key in flight is refused and changes nothing. */
  lemma KeyInFlightIsRefused(processed: map<string, int>, steps: seq<Step>, s: State, id: nat, key: string,
                             after: State)
    requires Runs(Start(processed), steps, s) && Runs(s, [Claim(id, key)], after)
    requires exists other :: other in s.consumers && s.consumers[other].key == key
    ensures after == s
  {
    SoundAfter(processed, steps, s);
    OneStep(s, Claim(id, key), after);
  }

  lemma SoundAfter(processed: map<string, int>, steps: seq<Step>, s: State)
    requires Runs(Start(processed), steps, s)
    ensures Sound(s)
  {
    assert Sound(Start(processed));
    RunKeeps(Start(processed), steps, s);
  }

  lemma OneStep(s: State, step: Step, after: State)
    ensures Runs(s, [step], after) <==> Enabled(s, step) && after == Next(s, step)
  {
    assert [step][1..] == [];
    if Enabled(s, step) {
      assert Runs(Next(s, step), [], after) <==> after == Next(s, step);
    }
  }

  /** What others do leaves a consumer where it stands. */
  lemma {:induction false} OthersLeaveItAlone(from: State, steps: seq<Step>, to: State, id: nat)
    requires Runs(from, steps, to) && ByOthers(steps, id) && id in from.consumers
    ensures id in to.consumers && to.consumers[id] == from.consumers[id]
    decreases |steps|
  {
    if steps != [] {
      assert steps[0] in steps;
      assert forall step :: step in steps[1..] ==> step in steps;
      OthersLeaveItAlone(Next(from, steps[0]), steps[1..], to, id);
    }
  }

  /** A claim of a key that is not in flight goes to its lookup and, whatever others do meanwhile, ends up
      holding the key exactly when the lookup found no record; with a record the key is free again. */
  lemma ClaimIsDecidedByItsLookup(processed: map<string, int>, steps: seq<Step>, s: State, id: nat, key: string,
                                  claimed: State, meanwhile: seq<Step>, looked: State, found: State,
                                  later: seq<Step>, answered: State, end: State)
    requires Runs(Start(processed), steps, s)
    requires forall other :: other in s.consumers ==> s.consumers[other].key != key
    requires Runs(s, [Claim(id, key)], claimed) && Runs(claimed, meanwhile, looked) && ByOthers(meanwhile, id)
    requires Runs(looked, [Look(id)], found) && Runs(found, later, answered) && ByOthers(later, id)
    requires Runs(answered, [Resume(id)], end)
    ensures key !in looked.processed ==> At(end, id, Holding) && end.consumers[id].key == key && key in end.inFlight
    ensures key in looked.processed ==> id !in end.consumers && key !in end.inFlight
    ensures end.processed == answered.processed && end.saves == answered.saves
  {
    SoundAfter(processed, steps, s);
    OneStep(s, Claim(id, key), claimed);
    OthersLeaveItAlone(claimed, meanwhile, looked, id);
    RunKeeps(s, [Claim(id, key)], claimed);
    RunKeeps(claimed, meanwhile, looked);
    LookupDecides(looked, id, found, later, answered, end);
  }

  lemma LookupDecides(looked: State, id: nat, found: State, later: seq<Step>, answered: State, end: State)
    requires Sound(looked) && At(looked, id, LookingUp)
    requires Runs(looked, [Look(id)], found) && Runs(found, later, answered) && ByOthers(later, id)
    requires Runs(answered, [Resume(id)], end)
    ensures var key := looked.consumers[id].key;
            if key in looked.processed then id !in end.consumers && key !in end.inFlight
            else At(end, id, Holding) && end.consumers[id].key == key && key in end.inFlight
    ensures end.processed == answered.processed && end.saves == answered.saves
  {
    OneStep(looked, Look(id), found);
    OthersLeaveItAlone(found, later, answered, id);
    OneStep(answered, Resume(id), end);
    RunKeeps(looked, [Look(id)], found);
    RunKeeps(found, later, answered);
  }

  lemma {:induction false} RunsOn(from: State, steps: seq<Step>, middle: State, step: Step)
    requires Runs(from, steps, middle) && Enabled(middle, step)
    ensures Runs(from, steps + [step], Next(middle, step))
    decreases |steps|
  {
    if steps == [] {
      assert [] + [step] == [step];
      OneStep(from, step, Next(middle, step));
    } else {
      assert (steps + [step])[0] == steps[0] && (steps + [step])[1..] == steps[1..] + [step];
      RunsOn(Next(from, steps[0]), steps[1..], middle, step);
    }
  }

  /** A key without a record whose consumers have all left can be claimed, is then held, and can be committed:
      afterwards its record is stored, nothing else is, and the key is free. */
  lemma UnprocessedKeyCanBeProcessed(processed: map<string, int>, steps: seq<Step>, s: State, id: nat, key: string,
                                     now: int)
    returns (claim: seq<Step>, held: State, commit: seq<Step>, end: State)
    requires Runs(Start(processed), steps, s) && key !in s.processed
    requires forall other :: other in s.consumers ==> s.consumers[other].key != key
    requires id !in s.consumers && s.clock <= now
    ensures Runs(s, claim, held) && At(held, id, Holding) && held.consumers[id].key == key
    ensures held.processed == s.processed && held.saves == s.saves
    ensures Runs(held, commit, end) && end.processed == s.processed[key := now]
    ensures end.saves == s.saves + [Save(key, now)]
    ensures end.consumers == s.consumers && end.inFlight == s.inFlight && key !in end.inFlight
  {
    SoundAfter(processed, steps, s);
    claim, held := ClaimsThrough(s, id, key);
    commit, end := CommitsThrough(held, id, now);
    assert held.inFlight - {key} == s.inFlight && held.consumers - {id} == s.consumers;
  }

  lemma ClaimsThrough(s: State, id: nat, key: string) returns (claim: seq<Step>, held: State)
    requires key !in s.processed && key !in s.inFlight && id !in s.consumers
    ensures Runs(s, claim, held)
    ensures held == s.(inFlight := s.inFlight + {key}, consumers := s.consumers[id := Consumer(key, Holding)])
  {
    var claimed := Next(s, Claim(id, key));
    OneStep(s, Claim(id, key), claimed);
    var looked := Next(claimed, Look(id));
    RunsOn(s, [Claim(id, key)], claimed, Look(id));
    held := Next(looked, Resume(id));
    RunsOn(s, [Claim(id, key)] + [Look(id)], looked, Resume(id));
    claim := [Claim(id, key)] + [Look(id)] + [Resume(id)];
    assert held.consumers == s.consumers[id := Consumer(key, Holding)];
  }

  lemma CommitsThrough(s: State, id: nat, now: int) returns (commit: seq<Step>, end: State)
    requires At(s, id, Holding) && s.clock <= now
    ensures Runs(s, commit, end)
    ensures var key := s.consumers[id].key;
            end == s.(inFlight := s.inFlight - {key}, consumers := s.consumers - {id}, clock := now,
                      processed := s.processed[key := now], saves := s.saves + [Save(key, now)],
                      nextCleanupAt := end.nextCleanupAt)
  {
    var saving := Next(s, Commit(id, now));
    commit := [Commit(id, now)];
    OneStep(s, Commit(id, now), saving);
    if saving.consumers[id].phase.CleaningUp? {
      RunsOn(s, commit, saving, CleanedUp(id));
      commit, saving := commit + [CleanedUp(id)], Next(saving, CleanedUp(id));
    }
    RunsOn(s, commit, saving, Store(id));
    var saved := Next(saving, Store(id));
    commit := commit + [Store(id)];
    RunsOn(s, commit, saved, Finish(id));
    commit, end := commit + [Finish(id)], Next(saved, Finish(id));
    assert end.consumers == s.consumers - {id};
  }

  /** Wherever a consumer stands it can still leave, by steps of its own, and then its key is free. */
  lemma EveryKeyCanComeFree(processed: map<string, int>, steps: seq<Step>, s: State, id: nat)
    returns (leave: seq<Step>, end: State)
    requires Runs(Start(processed), steps, s) && id in s.consumers
    ensures Runs(s, leave, end) && (forall step :: step in leave ==> By(step) == id)
    ensures end.consumers == s.consumers - {id} && end.inFlight == s.inFlight - {s.consumers[id].key}
  {
    SoundAfter(processed, steps, s);
    match s.consumers[id].phase
    case LookingUp => leave, end := LeavesBy(s, LookupFails(id));
    case LookedUp(found) =>
      var resumed := Next(s, Resume(id));
      OneStep(s, Resume(id), resumed);
      leave, end := [Resume(id)], resumed;
      if !found {
        RunsOn(s, leave, resumed, Release(id));
        leave, end := leave + [Release(id)], Next(resumed, Release(id));
      }
    case Holding => leave, end := LeavesBy(s, Release(id));
    case CleaningUp(_) => leave, end := LeavesBy(s, CommitFails(id));
    case Saving(_) => leave, end := LeavesBy(s, CommitFails(id));
    case Saved => leave, end := LeavesBy(s, Finish(id));
    assert end.consumers == s.consumers - {id};
  }

  lemma LeavesBy(s: State, step: Step) returns (leave: seq<Step>, end: State)
    requires Enabled(s, step) && (step.LookupFails? || step.Release? || step.CommitFails? || step.Finish?)
    ensures Runs(s, leave, end) && leave == [step]
    ensures end.consumers == s.consumers - {step.id} && end.inFlight == s.inFlight - {s.consumers[step.id].key}
  {
    leave, end := [step], Next(s, step);
    OneStep(s, step, end);
  }

  // ---- How long records last ----

  /** In any one step a record goes only to a cleanup that began more than thirty days after it was stored, and
      such a cleanup can take it. */
  lemma RecordsLastThirtyDays(s: State, step: Step, after: State, key: string)
    requires Runs(s, [step], after) && key in s.processed && key !in after.processed
    ensures step.Sweep? && step.id in s.consumers && s.consumers[step.id].phase.CleaningUp?
         && s.processed[key] < s.consumers[step.id].phase.now - 30 * 24 * 60 * 60 * 1000
  {
    OneStep(s, step, after);
  }

  lemma OldRecordsCanGo(s: State, id: nat, key: string) returns (after: State)
    requires id in s.consumers && s.consumers[id].phase.CleaningUp? && key in s.processed
    requires s.processed[key] < s.consumers[id].phase.now - 30 * 24 * 60 * 60 * 1000
    ensures Runs(s, [Sweep(id, key)], after) && after == s.(processed := s.processed - {key})
  {
    after := Next(s, Sweep(id, key));
    OneStep(s, Sweep(id, key), after);
  }

  /** The times at which commits of a run began a cleanup. */
  function Cleanups(from: State, steps: seq<Step>): seq<int>
    decreases |steps|
  {
    if steps == [] || !Enabled(from, steps[0]) then [] else
      var next := Next(from, steps[0]);
      var rest := Cleanups(next, steps[1..]);
      if steps[0].Commit? && At(next, steps[0].id, CleaningUp(steps[0].now)) then [steps[0].now] + rest else rest
  }

  /** Cleanups begin at least a day apart, and the first commit a day after one begins another. */
  lemma {:induction false} CleanupsAreADayApart(from: State, steps: seq<Step>, to: State)
    requires Runs(from, steps, to)
    ensures var times := Cleanups(from, steps);
            && (times != [] ==> from.nextCleanupAt <= times[0])
            && (forall i :: 0 < i < |times| ==> times[i - 1] + 24 * 60 * 60 * 1000 <= times[i])
            && (times == [] ==> to.nextCleanupAt == from.nextCleanupAt)
            && (times != [] ==> to.nextCleanupAt == times[|times| - 1] + 24 * 60 * 60 * 1000)
    ensures forall id, now :: Enabled(to, Commit(id, now)) ==>
              (At(Next(to, Commit(id, now)), id, CleaningUp(now)) <==> to.nextCleanupAt <= now)
    decreases |steps|
  {
    if steps != [] {
      var next := Next(from, steps[0]);
      CleanupsAreADayApart(next, steps[1..], to);
    }
  }
}
