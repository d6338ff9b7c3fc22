/** Sums, selections and the greedy history choice over lists of operations. */
module OperationLog {
  import opened Sequences
  import opened Wrappers
  import opened PrivateControlOperation

  const MAX_ACCEPTED_BYTES := 4 * 1024 * 1024
  const MAX_ACCEPTED_OPERATIONS := 128
  const MAX_HISTORICAL_OPERATIONS := 32

  function Bytes(operations: seq<Operation>): int {
    if operations == [] then 0 else operations[0].byteSize + Bytes(operations[1..])
  }

  ghost predicate NonNegative(operations: seq<Operation>) {
    forall operation :: operation in operations ==> operation.byteSize >= 0
  }

  /** At most `count` operations of at most `bytes` bytes together. */
  ghost predicate Within(operations: seq<Operation>, count: nat, bytes: int) {
    |operations| <= count && Bytes(operations) <= bytes
  }

  function HasIdIn(ids: set<string>): Operation -> bool {
    (operation: Operation) => operation.id in ids
  }

  /** The operations whose id is among `ids`, in order. */
  function Select(operations: seq<Operation>, ids: set<string>): seq<Operation> {
    Filter(HasIdIn(ids), operations)
  }

  /** The first operation with this id. */
  function Find(operations: seq<Operation>, id: string): Option<Operation> {
    if operations == [] then None
    else if operations[0].id == id then Some(operations[0])
    else Find(operations[1..], id)
  }

  /** Its index, or -1. */
  function FindIndex(operations: seq<Operation>, id: string): (index: int)
    ensures -1 <= index < |operations|
  {
    if operations == [] then -1
    else if operations[0].id == id then 0
    else
      var index := FindIndex(operations[1..], id);
      if index < 0 then -1 else index + 1
  }

  /** `splice(index, 1)`: an index of -1 counts from the end. */
  function SpliceOne(operations: seq<Operation>, index: int): seq<Operation>
    requires -1 <= index < |operations|
  {
    var at := if index >= 0 then index else |operations| - 1;
    if operations == [] then [] else operations[..at] + operations[at + 1..]
  }

  /** The ids kept by the newest-first walk over the history, given the ids already kept, their
      bytes and how many old operations were added so far. An operation that does not fit is
      skipped, not the end of the walk. */
  function Greedy(operations: seq<Operation>, kept: set<string>, bytes: int, historical: nat): set<string>
    decreases |operations|
  {
    if operations == [] then kept else
      var front, last := operations[..|operations| - 1], operations[|operations| - 1];
      if GreedyTakes(last, kept, bytes, historical)
      then Greedy(front, kept + {last.id}, bytes + last.byteSize, historical + 1)
      else Greedy(front, kept, bytes, historical)
  }

  /** Whether the walk adds this operation. */
  predicate GreedyTakes(operation: Operation, kept: set<string>, bytes: int, historical: nat) {
    && operation.id !in kept
    && historical < MAX_HISTORICAL_OPERATIONS
    && |kept| < MAX_ACCEPTED_OPERATIONS
    && bytes + operation.byteSize <= MAX_ACCEPTED_BYTES
  }

  lemma {:induction false} BytesAppend(a: seq<Operation>, b: seq<Operation>)
    ensures Bytes(a + b) == Bytes(a) + Bytes(b)
  {
    if a == [] {
      assert a + b == b;
    } else {
      assert (a + b)[1..] == a[1..] + b;
      BytesAppend(a[1..], b);
    }
  }

  lemma FilterLast<T>(keep: T -> bool, front: seq<T>, last: T)
    ensures Filter(keep, front + [last]) == Filter(keep, front) + if keep(last) then [last] else []
  {
    FilterAppend(keep, front, [last]);
    assert Filter(keep, [last]) == if keep(last) then [last] else [];
  }

  lemma BytesOfFilter(keep: Operation -> bool, operations: seq<Operation>)
    requires operations != []
    ensures Bytes(Filter(keep, operations))
         == (if keep(operations[0]) then operations[0].byteSize else 0) + Bytes(Filter(keep, operations[1..]))
  {
    var rest := Filter(keep, operations[1..]);
    assert Filter(keep, operations) == if keep(operations[0]) then [operations[0]] + rest else rest;
    assert ([operations[0]] + rest)[1..] == rest;
  }

  /** A stronger test keeps fewer operations and fewer bytes. */
  lemma {:induction false} FilterWithin(strong: Operation -> bool, weak: Operation -> bool, operations: seq<Operation>)
    requires NonNegative(operations)
    requires forall operation :: operation in operations && strong(operation) ==> weak(operation)
    ensures |Filter(strong, operations)| <= |Filter(weak, operations)|
    ensures 0 <= Bytes(Filter(strong, operations)) <= Bytes(Filter(weak, operations))
  {
    if operations != [] {
      assert operations[0] in operations;
      FilterWithin(strong, weak, operations[1..]);
      BytesOfFilter(strong, operations);
      BytesOfFilter(weak, operations);
    }
  }

  /** A kept part is no larger than the whole. */
  lemma FilterIsPart(keep: Operation -> bool, operations: seq<Operation>)
    requires NonNegative(operations)
    ensures |Filter(keep, operations)| <= |operations|
    ensures 0 <= Bytes(Filter(keep, operations)) <= Bytes(operations)
  {
    FilterAll((operation: Operation) => true, operations);
    FilterWithin(keep, (operation: Operation) => true, operations);
  }

  lemma {:induction false} FilterKeepsUniqueIds(keep: Operation -> bool, operations: seq<Operation>)
    requires UniqueIds(operations)
    ensures UniqueIds(Filter(keep, operations))
  {
    if operations != [] {
      FilterKeepsUniqueIds(keep, operations[1..]);
      FilterMembers(keep, operations[1..]);
      forall operation | operation in operations[1..] ensures operation.id != operations[0].id {
      }
    }
  }

  lemma {:induction false} SplitBytes(keep: Operation -> bool, part: Operation -> bool, rest: Operation -> bool,
                                      operations: seq<Operation>)
    requires forall operation :: operation in operations ==>
               (keep(operation) <==> part(operation) || rest(operation)) && !(part(operation) && rest(operation))
    ensures Bytes(Filter(keep, operations)) == Bytes(Filter(part, operations)) + Bytes(Filter(rest, operations))
  {
    if operations != [] {
      assert operations[0] in operations;
      SplitBytes(keep, part, rest, operations[1..]);
      BytesOfFilter(keep, operations);
      BytesOfFilter(part, operations);
      BytesOfFilter(rest, operations);
    }
  }

  lemma {:induction false} UniqueSelectionSize(operations: seq<Operation>, ids: set<string>)
    requires UniqueIds(operations)
    ensures |Select(operations, ids)| <= |ids|
  {
    if operations != [] {
      var id := operations[0].id;
      if id in ids {
        UniqueSelectionSize(operations[1..], ids - {id});
        forall operation | operation in operations[1..]
          ensures HasIdIn(ids)(operation) == HasIdIn(ids - {id})(operation)
        {
          assert operation.id != id;
        }
        FilterAgrees(HasIdIn(ids), HasIdIn(ids - {id}), operations[1..]);
      } else {
        UniqueSelectionSize(operations[1..], ids);
      }
    }
  }

  lemma {:induction false} FindFinds(operations: seq<Operation>, id: string)
    ensures Find(operations, id).None? <==> id !in Ids(operations)
    ensures Find(operations, id).Some? ==>
              Find(operations, id).value in operations && Find(operations, id).value.id == id
    ensures FindIndex(operations, id) < 0 <==> id !in Ids(operations)
    ensures FindIndex(operations, id) >= 0 ==> operations[FindIndex(operations, id)].id == id
  {
    if operations != [] {
      FindFinds(operations[1..], id);
      assert operations == [operations[0]] + operations[1..];
      assert Ids(operations) == {operations[0].id} + Ids(operations[1..]);
    }
  }

  function HasOtherId(id: string): Operation -> bool {
    (operation: Operation) => operation.id != id
  }

  /** Removing the entry with an id from a list of distinct ids filters it out. */
  lemma {:induction false} SpliceIsFilter(operations: seq<Operation>, id: string)
    requires UniqueIds(operations) && id in Ids(operations)
    ensures SpliceOne(operations, FindIndex(operations, id)) == Filter(HasOtherId(id), operations)
  {
    var rest := operations[1..];
    if operations[0].id == id {
      assert forall operation :: operation in rest ==> HasOtherId(id)(operation);
      FilterAll(HasOtherId(id), rest);
      assert SpliceOne(operations, 0) == rest;
    } else {
      assert id in Ids(rest);
      FindFinds(rest, id);
      SpliceIsFilter(rest, id);
      var index := FindIndex(rest, id);
      assert SpliceOne(operations, index + 1) == [operations[0]] + SpliceOne(rest, index);
    }
  }

  lemma {:induction false} GreedyGrows(operations: seq<Operation>, kept: set<string>, bytes: int, historical: nat)
    ensures kept <= Greedy(operations, kept, bytes, historical) <= kept + Ids(operations)
    decreases |operations|
  {
    if operations != [] {
      var front, last := operations[..|operations| - 1], operations[|operations| - 1];
      assert operations == front + [last];
      assert Ids(operations) == Ids(front) + {last.id};
      GreedyGrows(front, kept, bytes, historical);
      GreedyGrows(front, kept + {last.id}, bytes + last.byteSize, historical + 1);
    }
  }

  function AddedTo(chosen: set<string>, kept: set<string>): Operation -> bool {
    (operation: Operation) => operation.id in chosen && operation.id !in kept
  }

  lemma LastIsApart(front: seq<Operation>, last: Operation)
    requires UniqueIds(front + [last])
    ensures UniqueIds(front) && last.id !in Ids(front)
    ensures forall operation :: operation in front ==> operation.id in Ids(front) && operation.id != last.id
  {
    var operations := front + [last];
    forall i | 0 <= i < |front| ensures front[i].id != last.id {
      assert operations[i].id != operations[|front|].id;
    }
    forall i, j | 0 <= i < j < |front| ensures front[i].id != front[j].id {
      assert operations[i].id != operations[j].id;
    }
  }

  /** The arguments of the walk after its newest operation. */
  function WalkOn(last: Operation, kept: set<string>, bytes: int, historical: nat): (next: (set<string>, int, nat)) {
    if GreedyTakes(last, kept, bytes, historical)
    then (kept + {last.id}, bytes + last.byteSize, historical + 1)
    else (kept, bytes, historical)
  }

  lemma GreedyStep(front: seq<Operation>, last: Operation, kept: set<string>, bytes: int, historical: nat)
    ensures var (wider, total, count) := WalkOn(last, kept, bytes, historical);
            Greedy(front + [last], kept, bytes, historical) == Greedy(front, wider, total, count)
  {
    assert (front + [last])[..|front|] == front;
  }

  /** The walk stays within the log's limits. */
  lemma {:induction false} GreedyFits(operations: seq<Operation>, kept: set<string>, bytes: int, historical: nat)
    requires UniqueIds(operations)
    requires |kept| <= MAX_ACCEPTED_OPERATIONS && bytes <= MAX_ACCEPTED_BYTES
    ensures var chosen := Greedy(operations, kept, bytes, historical);
            && |chosen| <= MAX_ACCEPTED_OPERATIONS
            && bytes + Bytes(Filter(AddedTo(chosen, kept), operations)) <= MAX_ACCEPTED_BYTES
    decreases |operations|
  {
    if operations != [] {
      var front, last := operations[..|operations| - 1], operations[|operations| - 1];
      assert operations == front + [last];
      var (wider, total, count) := WalkOn(last, kept, bytes, historical);
      var chosen := Greedy(front, wider, total, count);
      assert UniqueIds(front) && |wider| <= MAX_ACCEPTED_OPERATIONS;
      GreedyFits(front, wider, total, count);
      AddedByStep(front, last, kept, bytes, historical);
      GreedyStep(front, last, kept, bytes, historical);
    }
  }

  lemma AddedByStep(front: seq<Operation>, last: Operation, kept: set<string>, bytes: int, historical: nat)
    requires UniqueIds(front + [last])
    ensures var (wider, total, count) := WalkOn(last, kept, bytes, historical);
            var chosen := Greedy(front, wider, total, count);
            bytes + Bytes(Filter(AddedTo(chosen, kept), front + [last]))
            == total + Bytes(Filter(AddedTo(chosen, wider), front))
  {
    var (wider, total, count) := WalkOn(last, kept, bytes, historical);
    var chosen := Greedy(front, wider, total, count);
    LastIsApart(front, last);
    GreedyGrows(front, wider, total, count);
    FilterAgrees(AddedTo(chosen, kept), AddedTo(chosen, wider), front);
    FilterLast(AddedTo(chosen, kept), front, last);
    BytesAppend(Filter(AddedTo(chosen, kept), front), if AddedTo(chosen, kept)(last) then [last] else []);
    assert Bytes([last]) == last.byteSize;
  }

  /** Walking again over only what was chosen chooses the same ids: an operation that was skipped
      changed nothing for the ones after it. */
  lemma {:induction false} GreedyAgain(operations: seq<Operation>, kept: set<string>, bytes: int, historical: nat)
    requires UniqueIds(operations)
    ensures var chosen := Greedy(operations, kept, bytes, historical);
            Greedy(Select(operations, chosen), kept, bytes, historical) == chosen
    decreases |operations|
  {
    if operations != [] {
      var front, last := operations[..|operations| - 1], operations[|operations| - 1];
      assert operations == front + [last];
      var (wider, total, count) := WalkOn(last, kept, bytes, historical);
      var chosen := Greedy(front, wider, total, count);
      LastIsApart(front, last);
      GreedyAgain(front, wider, total, count);
      GreedyGrows(front, wider, total, count);
      GreedyStep(front, last, kept, bytes, historical);
      FilterLast(HasIdIn(chosen), front, last);
      var again := Select(front, chosen);
      if last.id in chosen {
        GreedyStep(again, last, kept, bytes, historical);
      } else {
        assert Select(operations, chosen) == again;
      }
    }
  }

  /** The operation fits beside the newer ones the walk took: fewer than 32 of those, fewer than 128 operations
      in all, and room for its bytes within 4 MiB. */
  predicate FitsBeside(newer: seq<Operation>, operation: Operation, keptCount: nat, bytes: int, historical: nat) {
    && historical + |newer| < 32
    && keptCount + |newer| < 128
    && bytes + Bytes(newer) + operation.byteSize <= 4_194_304
  }

  /** The walk takes an operation exactly when it fits beside the newer ones it took. */
  lemma {:induction false} GreedyTakesWhatFits(operations: seq<Operation>, kept: set<string>, bytes: int,
                                               historical: nat, i: nat)
    requires UniqueIds(operations) && i < |operations| && operations[i].id !in kept
    ensures var chosen := Greedy(operations, kept, bytes, historical);
            operations[i].id in chosen <==>
            FitsBeside(Filter(AddedTo(chosen, kept), operations[i + 1..]), operations[i], |kept|, bytes, historical)
    decreases |operations|
  {
    var front, last := operations[..|operations| - 1], operations[|operations| - 1];
    assert operations == front + [last];
    GreedyStep(front, last, kept, bytes, historical);
    if i == |front| {
      LastIsTakenIfItFits(front, last, kept, bytes, historical);
      assert operations[i + 1..] == [];
    } else {
      var (wider, total, count) := WalkOn(last, kept, bytes, historical);
      var chosen := Greedy(front, wider, total, count);
      LastIsApart(front, last);
      GreedyGrows(front, wider, total, count);
      assert front[i] == operations[i];
      GreedyTakesWhatFits(front, wider, total, count, i);
      FitsOn(front, last, i, kept, bytes, historical, chosen);
    }
  }

  lemma LastIsTakenIfItFits(front: seq<Operation>, last: Operation, kept: set<string>, bytes: int, historical: nat)
    requires UniqueIds(front + [last]) && last.id !in kept
    ensures var (wider, total, count) := WalkOn(last, kept, bytes, historical);
            last.id in Greedy(front, wider, total, count) <==> FitsBeside([], last, |kept|, bytes, historical)
  {
    LastIsApart(front, last);
    var (wider, total, count) := WalkOn(last, kept, bytes, historical);
    GreedyGrows(front, wider, total, count);
  }

  /** What fits after the newest operation was looked at fits before it was, and the other way round. */
  lemma FitsOn(front: seq<Operation>, last: Operation, i: nat, kept: set<string>, bytes: int, historical: nat,
               chosen: set<string>)
    requires UniqueIds(front + [last]) && i < |front|
    requires var (wider, total, count) := WalkOn(last, kept, bytes, historical);
             wider <= chosen && (last.id in chosen ==> last.id in wider)
    ensures var (wider, total, count) := WalkOn(last, kept, bytes, historical);
            FitsBeside(Filter(AddedTo(chosen, wider), front[i + 1..]), front[i], |wider|, total, count) <==>
            FitsBeside(Filter(AddedTo(chosen, kept), (front + [last])[i + 1..]), front[i], |kept|, bytes, historical)
  {
    var (wider, total, count) := WalkOn(last, kept, bytes, historical);
    NewerWithLast(front, last, i, chosen, kept, wider);
    assert Bytes([last]) == last.byteSize;
  }

  lemma NewerWithLast(front: seq<Operation>, last: Operation, i: nat, chosen: set<string>, kept: set<string>,
                      wider: set<string>)
    requires UniqueIds(front + [last]) && i < |front| && wider <= chosen
    requires wider == kept + {last.id} || (wider == kept && (last.id in kept || last.id !in chosen))
    ensures var newer := Filter(AddedTo(chosen, kept), (front + [last])[i + 1..]);
            var before := Filter(AddedTo(chosen, wider), front[i + 1..]);
            var taken := if last.id in wider && last.id !in kept then [last] else [];
            newer == before + taken && Bytes(newer) == Bytes(before) + Bytes(taken)
  {
    var rest := front[i + 1..];
    assert (front + [last])[i + 1..] == rest + [last];
    LastIsApart(front, last);
    FilterAgrees(AddedTo(chosen, kept), AddedTo(chosen, wider), rest);
    FilterLast(AddedTo(chosen, kept), rest, last);
    BytesAppend(Filter(AddedTo(chosen, wider), rest), if last.id in wider && last.id !in kept then [last] else []);
    assert Bytes([last]) == last.byteSize;
  }
}
