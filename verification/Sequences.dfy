/** `Array#filter` and the facts about it that the models need. */
module Sequences {

  function Filter<T>(keep: T -> bool, s: seq<T>): (r: seq<T>)
  {
    if s == [] then [] else (if keep(s[0]) then [s[0]] else []) + Filter(keep, s[1..])
  }

  lemma {:induction false} FilterMembers<T>(keep: T -> bool, s: seq<T>)
    ensures forall x :: x in Filter(keep, s) <==> x in s && keep(x)
    ensures |Filter(keep, s)| <= |s|
  {
    if s != [] {
      FilterMembers(keep, s[1..]);
      assert s == [s[0]] + s[1..];
    }
  }

  lemma {:induction false} FilterAppend<T>(keep: T -> bool, a: seq<T>, b: seq<T>)
    ensures Filter(keep, a + b) == Filter(keep, a) + Filter(keep, b)
  {
    if a == [] {
      assert a + b == b;
    } else {
      assert (a + b)[1..] == a[1..] + b && (a + b)[0] == a[0];
      FilterAppend(keep, a[1..], b);
      var head := if keep(a[0]) then [a[0]] else [];
      assert Filter(keep, a + b) == head + Filter(keep, a[1..] + b);
      assert Filter(keep, a) == head + Filter(keep, a[1..]);
    }
  }

  lemma {:induction false} FilterAgrees<T>(keep: T -> bool, also: T -> bool, s: seq<T>)
    requires forall x :: x in s ==> keep(x) == also(x)
    ensures Filter(keep, s) == Filter(also, s)
  {
    if s != [] {
      assert s[0] in s;
      FilterAgrees(keep, also, s[1..]);
    }
  }

  lemma {:induction false} FilterAll<T>(keep: T -> bool, s: seq<T>)
    requires forall x :: x in s ==> keep(x)
    ensures Filter(keep, s) == s
  {
    if s != [] {
      assert s[0] in s;
      FilterAll(keep, s[1..]);
    }
  }

  lemma {:induction false} FilterNone<T>(keep: T -> bool, s: seq<T>)
    requires forall x :: x in s ==> !keep(x)
    ensures Filter(keep, s) == []
  {
    if s != [] {
      assert s[0] in s;
      FilterNone(keep, s[1..]);
    }
  }

  /** Filtering twice keeps what passes both tests. */
  lemma {:induction false} FilterTwice<T>(outer: T -> bool, inner: T -> bool, both: T -> bool, s: seq<T>)
    requires forall x :: x in s ==> both(x) == (inner(x) && outer(x))
    ensures Filter(outer, Filter(inner, s)) == Filter(both, s)
  {
    if s != [] {
      assert s[0] in s;
      FilterTwice(outer, inner, both, s[1..]);
      var rest := Filter(inner, s[1..]);
      if inner(s[0]) {
        assert Filter(inner, s) == [s[0]] + rest;
        assert ([s[0]] + rest)[1..] == rest;
      } else {
        assert Filter(inner, s) == rest;
        assert Filter(both, s) == Filter(both, s[1..]);
      }
    }
  }

  /** Two tests that split a third between them count together what it counts. */
  lemma {:induction false} FilterSplitCount<T>(keep: T -> bool, part: T -> bool, rest: T -> bool, s: seq<T>)
    requires forall x :: x in s ==> (keep(x) <==> part(x) || rest(x)) && !(part(x) && rest(x))
    ensures |Filter(keep, s)| == |Filter(part, s)| + |Filter(rest, s)|
  {
    if s != [] {
      assert s[0] in s;
      FilterSplitCount(keep, part, rest, s[1..]);
    }
  }

  ghost predicate Distinct<T>(s: seq<T>) {
    forall i, j :: 0 <= i < j < |s| ==> s[i] != s[j]
  }

  lemma {:induction false} FilterKeepsDistinct<T>(keep: T -> bool, s: seq<T>)
    requires Distinct(s)
    ensures Distinct(Filter(keep, s))
  {
    if s != [] {
      FilterKeepsDistinct(keep, s[1..]);
      FilterMembers(keep, s[1..]);
    }
  }

  lemma {:induction false} DistinctSetSize<T>(s: seq<T>)
    ensures |set x | x in s| <= |s|
    ensures Distinct(s) <==> |set x | x in s| == |s|
  {
    if s != [] {
      DistinctSetSize(s[1..]);
      var rest := set x | x in s[1..];
      assert (set x | x in s) == rest + {s[0]};
      if s[0] in rest {
        assert (set x | x in s) == rest;
        var i :| 0 <= i < |s[1..]| && s[1..][i] == s[0];
        assert s[i + 1] == s[0];
      }
    }
  }

  ghost predicate Ascending(numbers: seq<nat>) {
    forall i, j :: 0 <= i < j < |numbers| ==> numbers[i] < numbers[j]
  }

  /** Puts a number into an ascending list that does not hold it yet. */
  function AddAscending(number: nat, numbers: seq<nat>): seq<nat> {
    if numbers == [] || number < numbers[0] then [number] + numbers
    else if number == numbers[0] then numbers
    else [numbers[0]] + AddAscending(number, numbers[1..])
  }

  lemma {:induction false} AddAscends(number: nat, numbers: seq<nat>)
    requires Ascending(numbers)
    ensures Ascending(AddAscending(number, numbers))
    ensures forall n :: n in AddAscending(number, numbers) <==> n == number || n in numbers
  {
    if numbers != [] && number > numbers[0] {
      var rest := AddAscending(number, numbers[1..]);
      AddAscends(number, numbers[1..]);
      assert numbers == [numbers[0]] + numbers[1..];
      assert AddAscending(number, numbers) == [numbers[0]] + rest;
      forall n | n in rest ensures numbers[0] < n {
        assert n == number || n in numbers[1..];
      }
      forall i, j | 0 <= i < j < |rest| + 1 ensures ([numbers[0]] + rest)[i] < ([numbers[0]] + rest)[j] {
        assert rest[j - 1] in rest;
      }
    }
  }

  lemma {:induction false} DistinctCounts<T>(s: seq<T>, x: T)
    requires Distinct(s)
    ensures multiset(s)[x] == if x in s then 1 else 0
  {
    if s != [] {
      assert s == [s[0]] + s[1..];
      DistinctCounts(s[1..], x);
    }
  }

  /** Lists without repeats and with the same elements are permutations of each other. */
  lemma DistinctPermutation<T(!new)>(a: seq<T>, b: seq<T>)
    requires Distinct(a) && Distinct(b) && forall x :: x in a <==> x in b
    ensures multiset(a) == multiset(b) && |a| == |b|
  {
    forall x ensures multiset(a)[x] == multiset(b)[x] {
      DistinctCounts(a, x);
      DistinctCounts(b, x);
    }
    assert |a| == |multiset(a)| && |b| == |multiset(b)|;
  }

  /** An array without repeats, keeping first occurrences. */
  function WithoutRepeats<T(==)>(s: seq<T>): seq<T> {
    if s == [] then [] else
      var front, last := WithoutRepeats(s[..|s| - 1]), s[|s| - 1];
      if last in front then front else front + [last]
  }

  lemma {:induction false} WithoutRepeatsHolds<T>(s: seq<T>)
    ensures Distinct(WithoutRepeats(s))
    ensures forall x :: x in WithoutRepeats(s) <==> x in s
  {
    if s != [] {
      var front, last := s[..|s| - 1], s[|s| - 1];
      WithoutRepeatsHolds(front);
      assert s == front + [last];
      assert WithoutRepeats(s)
          == if last in WithoutRepeats(front) then WithoutRepeats(front) else WithoutRepeats(front) + [last];
    }
  }
}
