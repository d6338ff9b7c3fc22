/** The promise chain both serial queues are built on. A section on a key waits for the tail it found
    when it arrived; it leaves its own tail behind and, when it settles last, takes the tail away. */
module SerialSections {
  import opened Wrappers

  datatype Phase = Waiting | Open | Closed

  /** `previous` is the section whose tail this one found, if the key had one. */
  datatype Section<Key> = Section(key: Key, previous: Option<nat>, phase: Phase)

  /** Every section that ever arrived, in arrival order, and the tail map. */
  datatype Queue<!Key(==)> = Queue(sections: seq<Section<Key>>, tails: map<Key, nat>)

  /** Every link points back, so the chain of tails is finite. */
  ghost predicate LinksBack<Key>(sections: seq<Section<Key>>) {
    forall i :: 0 <= i < |sections| && sections[i].previous.Some? ==> sections[i].previous.value < i
  }

  /** The tail of a section resolves when it has closed and the tail before it has resolved. */
  ghost predicate TailResolved<Key>(sections: seq<Section<Key>>, i: nat)
    requires LinksBack(sections) && i < |sections|
    decreases i
  {
    sections[i].phase == Closed
    && (sections[i].previous.Some? ==> TailResolved(sections, sections[i].previous.value))
  }

  /** The section is waiting and the promise it awaits has resolved. */
  ghost predicate CanOpen<Key>(sections: seq<Section<Key>>, i: nat)
    requires LinksBack(sections)
  {
    && i < |sections| && sections[i].phase == Waiting
    && (sections[i].previous.Some? ==> TailResolved(sections, sections[i].previous.value))
  }

  // ---- The three steps between awaits ----

  function Arrive<Key>(queue: Queue<Key>, key: Key): Queue<Key> {
    var previous := if key in queue.tails then Some(queue.tails[key]) else None;
    Queue(queue.sections + [Section(key, previous, Waiting)], queue.tails[key := |queue.sections|])
  }

  function Enter<Key>(queue: Queue<Key>, i: nat): Queue<Key>
    requires i < |queue.sections|
  {
    queue.(sections := queue.sections[i := queue.sections[i].(phase := Open)])
  }

  function Settle<Key>(queue: Queue<Key>, i: nat): Queue<Key>
    requires i < |queue.sections|
  {
    var key := queue.sections[i].key;
    Queue(queue.sections[i := queue.sections[i].(phase := Closed)],
          if key in queue.tails && queue.tails[key] == i then queue.tails - {key} else queue.tails)
  }

  // ---- What every step keeps ----

  /** No section on the key lies strictly between the two. */
  ghost predicate NoneBetween<Key>(sections: seq<Section<Key>>, low: int, high: nat, key: Key)
    requires high <= |sections|
  {
    forall j :: 0 <= j && low < j < high ==> sections[j].key != key
  }

  ghost predicate ClosedBefore<Key>(sections: seq<Section<Key>>, i: nat, key: Key)
    requires i <= |sections|
  {
    forall j :: 0 <= j < i && sections[j].key == key ==> sections[j].phase == Closed
  }

  /** Where a section may stand: right behind the last one on its key, or behind none that is still
      unsettled; and it has only started once all before it on its key have closed. */
  ghost predicate SoundSection<Key>(sections: seq<Section<Key>>, i: nat)
    requires i < |sections|
  {
    var section := sections[i];
    && (match section.previous
        case Some(p) => p < i && sections[p].key == section.key && NoneBetween(sections, p, i, section.key)
        case None => ClosedBefore(sections, i, section.key))
    && (section.phase != Waiting ==> ClosedBefore(sections, i, section.key))
  }

  /** The tail map names the last section on each key that has unsettled sections, and no other key. */
  ghost predicate SoundTails<Key>(queue: Queue<Key>) {
    && (forall key :: key in queue.tails ==>
          && queue.tails[key] < |queue.sections|
          && queue.sections[queue.tails[key]].key == key
          && queue.sections[queue.tails[key]].phase != Closed
          && NoneBetween(queue.sections, queue.tails[key], |queue.sections|, key))
    && (forall i :: 0 <= i < |queue.sections| && queue.sections[i].phase != Closed ==>
          queue.sections[i].key in queue.tails)
  }

  ghost predicate Sound<Key>(queue: Queue<Key>) {
    && (forall i :: 0 <= i < |queue.sections| ==> SoundSection(queue.sections, i))
    && SoundTails(queue)
  }

  lemma SoundLinksBack<Key>(queue: Queue<Key>)
    requires Sound(queue)
    ensures LinksBack(queue.sections)
  {
    forall i | 0 <= i < |queue.sections| && queue.sections[i].previous.Some?
      ensures queue.sections[i].previous.value < i
    {
      assert SoundSection(queue.sections, i);
    }
  }

  lemma ArriveKeeps<Key>(queue: Queue<Key>, key: Key)
    requires Sound(queue)
    ensures Sound(Arrive(queue, key))
  {
    var before, next := queue.sections, Arrive(queue, key);
    var after := next.sections;
    forall i | 0 <= i < |after| ensures SoundSection(after, i) {
      if i < |before| {
        assert SoundSection(before, i);
        assert after[i] == before[i];
      } else if key !in queue.tails {
        assert forall j :: 0 <= j < |before| ==> after[j] == before[j];
      }
    }
    forall k | k in next.tails
      ensures next.tails[k] < |after| && after[next.tails[k]].key == k
      ensures after[next.tails[k]].phase != Closed && NoneBetween(after, next.tails[k], |after|, k)
    {
      if k != key {
        assert forall j :: queue.tails[k] < j < |before| ==> before[j].key != k;
      }
    }
  }

  /** The tail a section awaits resolves exactly when every earlier section on its key has closed. */
  lemma {:induction false} TailMeansClosed<Key>(queue: Queue<Key>, i: nat)
    requires Sound(queue) && LinksBack(queue.sections) && i < |queue.sections|
    ensures TailResolved(queue.sections, i) <==>
            queue.sections[i].phase == Closed && ClosedBefore(queue.sections, i, queue.sections[i].key)
    decreases i
  {
    assert SoundSection(queue.sections, i);
    var previous := queue.sections[i].previous;
    if previous.Some? {
      TailMeansClosed(queue, previous.value);
    }
  }

  /** A waiting section can open exactly when every earlier section on its key has closed: sections
      open in arrival order, and none is forgotten. */
  lemma OpensInArrivalOrder<Key>(queue: Queue<Key>, i: nat)
    requires Sound(queue) && LinksBack(queue.sections)
    requires i < |queue.sections| && queue.sections[i].phase == Waiting
    ensures CanOpen(queue.sections, i) <==> ClosedBefore(queue.sections, i, queue.sections[i].key)
  {
    assert SoundSection(queue.sections, i);
    var previous := queue.sections[i].previous;
    if previous.Some? {
      TailMeansClosed(queue, previous.value);
    }
  }

  lemma EnterKeeps<Key>(queue: Queue<Key>, i: nat)
    requires Sound(queue) && LinksBack(queue.sections) && CanOpen(queue.sections, i)
    ensures Sound(Enter(queue, i))
  {
    OpensInArrivalOrder(queue, i);
    var before, after := queue.sections, Enter(queue, i).sections;
    forall j | 0 <= j < |after| ensures SoundSection(after, j) {
      assert SoundSection(before, j);
    }
  }

  lemma SettleKeeps<Key>(queue: Queue<Key>, i: nat)
    requires Sound(queue) && i < |queue.sections| && queue.sections[i].phase == Open
    ensures Sound(Settle(queue, i))
  {
    var before, next := queue.sections, Settle(queue, i);
    var after := next.sections;
    assert SoundSection(before, i);
    forall j | 0 <= j < |after| ensures SoundSection(after, j) {
      assert SoundSection(before, j);
    }
    forall j | 0 <= j < |after| && after[j].phase != Closed ensures after[j].key in next.tails {
      if after[j].key == before[i].key {
        assert j > i;
      }
    }
  }

  // ---- What soundness means ----

  /** At most one section per key is open. */
  lemma AtMostOneOpen<Key>(queue: Queue<Key>, i: nat, j: nat)
    requires Sound(queue) && i < j < |queue.sections|
    requires queue.sections[i].key == queue.sections[j].key
    ensures !(queue.sections[i].phase == Open && queue.sections[j].phase == Open)
    ensures queue.sections[j].phase != Waiting ==> queue.sections[i].phase == Closed
  {
    assert SoundSection(queue.sections, j);
  }

  /** The tail map has an entry for a key exactly while some section on it has not settled. */
  lemma TailsAreUnsettledKeys<Key>(queue: Queue<Key>, key: Key)
    requires Sound(queue)
    ensures key in queue.tails
       <==> exists i :: 0 <= i < |queue.sections| && queue.sections[i].key == key && queue.sections[i].phase != Closed
  {
  }

  /** The first unsettled section on a key is open or can open. */
  lemma FirstUnsettledMoves<Key>(queue: Queue<Key>, i: nat) returns (first: nat)
    requires Sound(queue) && LinksBack(queue.sections)
    requires i < |queue.sections| && queue.sections[i].phase != Closed
    ensures first <= i && queue.sections[first].key == queue.sections[i].key
    ensures queue.sections[first].phase == Open || CanOpen(queue.sections, first)
  {
    var key := queue.sections[i].key;
    first := i;
    while !ClosedBefore(queue.sections, first, key)
      invariant first <= i && queue.sections[first].key == key && queue.sections[first].phase != Closed
      decreases first
    {
      var earlier :| 0 <= earlier < first && queue.sections[earlier].key == key
                  && queue.sections[earlier].phase != Closed;
      first := earlier;
    }
    if queue.sections[first].phase == Waiting {
      OpensInArrivalOrder(queue, first);
    }
  }

  // ---- How much is left to happen ----

  /** The steps a section still has to take: it starts and it settles. */
  function StepsLeft(phase: Phase): nat {
    match phase
    case Waiting => 2
    case Open => 1
    case Closed => 0
  }

  /** The steps all sections still have to take. */
  function Work<Key>(sections: seq<Section<Key>>): nat {
    if sections == [] then 0 else Work(sections[..|sections| - 1]) + StepsLeft(sections[|sections| - 1].phase)
  }

  lemma {:induction false} WorkAfterStep<Key>(sections: seq<Section<Key>>, i: nat, phase: Phase)
    requires i < |sections|
    ensures Work(sections[i := sections[i].(phase := phase)])
         == Work(sections) - StepsLeft(sections[i].phase) + StepsLeft(phase)
  {
    var after := sections[i := sections[i].(phase := phase)];
    var front := sections[..|sections| - 1];
    if i < |front| {
      WorkAfterStep(front, i, phase);
      assert after[..|after| - 1] == front[i := front[i].(phase := phase)];
    } else {
      assert after[..|after| - 1] == front;
    }
  }

  /** While work is left, some section has not settled. */
  lemma {:induction false} WorkIsUnsettled<Key>(sections: seq<Section<Key>>) returns (i: nat)
    requires Work(sections) > 0
    ensures i < |sections| && sections[i].phase != Closed
  {
    i := |sections| - 1;
    if sections[i].phase == Closed {
      i := WorkIsUnsettled(sections[..i]);
    }
  }

  lemma {:induction false} NoWorkIsSettled<Key>(sections: seq<Section<Key>>)
    requires Work(sections) == 0
    ensures forall i :: 0 <= i < |sections| ==> sections[i].phase == Closed
  {
    if sections != [] {
      NoWorkIsSettled(sections[..|sections| - 1]);
    }
  }
}
