/** `Array#sort` with a comparator: a stable sort. `atMost(a, b)` is `compare(a, b) <= 0`. */
module StableSort {
  import opened Sequences

  ghost predicate TotalPreorder<T(!new)>(atMost: (T, T) -> bool)
  {
    && (forall a, b :: atMost(a, b) || atMost(b, a))
    && (forall a, b, c :: atMost(a, b) && atMost(b, c) ==> atMost(a, c))
  }

  ghost predicate SortedBy<T>(atMost: (T, T) -> bool, s: seq<T>)
  {
    forall i, j :: 0 <= i < j < |s| ==> atMost(s[i], s[j])
  }

  function Insert<T>(atMost: (T, T) -> bool, x: T, s: seq<T>): (r: seq<T>)
  {
    if s == [] || atMost(x, s[0]) then [x] + s else [s[0]] + Insert(atMost, x, s[1..])
  }

  function Sort<T>(atMost: (T, T) -> bool, s: seq<T>): (r: seq<T>)
  {
    if s == [] then [] else Insert(atMost, s[0], Sort(atMost, s[1..]))
  }

  lemma {:induction false} InsertIsPermutation<T>(atMost: (T, T) -> bool, x: T, s: seq<T>)
    ensures multiset(Insert(atMost, x, s)) == multiset{x} + multiset(s)
  {
    if s != [] {
      assert s == [s[0]] + s[1..];
      if !atMost(x, s[0]) {
        InsertIsPermutation(atMost, x, s[1..]);
      }
    }
  }

  lemma {:induction false} SortIsPermutation<T>(atMost: (T, T) -> bool, s: seq<T>)
    ensures multiset(Sort(atMost, s)) == multiset(s)
    ensures |Sort(atMost, s)| == |s|
    ensures forall x :: x in Sort(atMost, s) <==> x in s
  {
    if s != [] {
      assert s == [s[0]] + s[1..];
      SortIsPermutation(atMost, s[1..]);
      InsertIsPermutation(atMost, s[0], Sort(atMost, s[1..]));
    }
    assert |multiset(Sort(atMost, s))| == |Sort(atMost, s)|;
    forall x ensures x in Sort(atMost, s) <==> x in s {
      assert x in Sort(atMost, s) <==> x in multiset(Sort(atMost, s));
      assert x in s <==> x in multiset(s);
    }
  }

  lemma {:induction false} InsertKeepsSorted<T(!new)>(atMost: (T, T) -> bool, x: T, s: seq<T>)
    requires TotalPreorder(atMost) && SortedBy(atMost, s)
    ensures SortedBy(atMost, Insert(atMost, x, s))
  {
    if s != [] && !atMost(x, s[0]) {
      InsertKeepsSorted(atMost, x, s[1..]);
      InsertIsPermutation(atMost, x, s[1..]);
      var r := Insert(atMost, x, s[1..]);
      forall y | y in r ensures atMost(s[0], y) {
        assert y in multiset(r);
        assert y == x || y in s[1..];
      }
    }
  }

  lemma {:induction false} SortIsSorted<T(!new)>(atMost: (T, T) -> bool, s: seq<T>)
    requires TotalPreorder(atMost)
    ensures SortedBy(atMost, Sort(atMost, s))
  {
    if s != [] {
      SortIsSorted(atMost, s[1..]);
      InsertKeepsSorted(atMost, s[0], Sort(atMost, s[1..]));
    }
  }

  lemma {:induction false} InsertFiltered<T(!new)>(atMost: (T, T) -> bool, keep: T -> bool, x: T, s: seq<T>)
    requires TotalPreorder(atMost) && SortedBy(atMost, s)
    ensures Filter(keep, Insert(atMost, x, s))
         == if keep(x) then Insert(atMost, x, Filter(keep, s)) else Filter(keep, s)
  {
    if s == [] {
    } else if atMost(x, s[0]) {
      assert ([x] + s)[1..] == s;
      FilterMembers(keep, s);
      var f := Filter(keep, s);
      if f != [] {
        assert f[0] in s;
        assert atMost(x, f[0]);
      }
    } else {
      InsertFiltered(atMost, keep, x, s[1..]);
      assert ([s[0]] + Insert(atMost, x, s[1..]))[1..] == Insert(atMost, x, s[1..]);
      if keep(s[0]) {
        assert ([s[0]] + Filter(keep, s[1..]))[1..] == Filter(keep, s[1..]);
      } else if keep(x) {
        assert Filter(keep, s) == Filter(keep, s[1..]);
      }
    }
  }

  /** Filtering and stable sorting commute. */
  lemma {:induction false} SortFiltered<T(!new)>(atMost: (T, T) -> bool, keep: T -> bool, s: seq<T>)
    requires TotalPreorder(atMost)
    ensures Filter(keep, Sort(atMost, s)) == Sort(atMost, Filter(keep, s))
  {
    if s != [] {
      SortFiltered(atMost, keep, s[1..]);
      SortIsSorted(atMost, s[1..]);
      InsertFiltered(atMost, keep, s[0], Sort(atMost, s[1..]));
      var rest := Filter(keep, s[1..]);
      assert Filter(keep, s) == if keep(s[0]) then [s[0]] + rest else rest;
      assert keep(s[0]) ==> ([s[0]] + rest)[1..] == rest;
    }
  }

  lemma HeadIsLeast<T(!new)>(atMost: (T, T) -> bool, s: seq<T>, x: T)
    requires TotalPreorder(atMost) && SortedBy(atMost, s) && x in s
    ensures atMost(s[0], x)
  {
    var i :| 0 <= i < |s| && s[i] == x;
    assert atMost(x, x) || atMost(x, x);
  }

  lemma LastIsGreatest<T(!new)>(atMost: (T, T) -> bool, s: seq<T>, x: T)
    requires TotalPreorder(atMost) && SortedBy(atMost, s) && x in s
    ensures atMost(x, s[|s| - 1])
  {
    var i :| 0 <= i < |s| && s[i] == x;
    assert atMost(x, x) || atMost(x, x);
  }

  lemma TailMultiset<T>(s: seq<T>)
    requires s != []
    ensures multiset(s[1..]) == multiset(s) - multiset{s[0]}
  {
    assert s == [s[0]] + s[1..];
  }

  ghost predicate NoTies<T(!new)>(atMost: (T, T) -> bool, s: seq<T>) {
    forall x, y :: x in s && y in s && atMost(x, y) && atMost(y, x) ==> x == y
  }

  lemma HeadsAgree<T(!new)>(atMost: (T, T) -> bool, a: seq<T>, b: seq<T>)
    requires TotalPreorder(atMost) && SortedBy(atMost, a) && SortedBy(atMost, b) && NoTies(atMost, a)
    requires a != [] && multiset(a) == multiset(b)
    ensures b != [] && a[0] == b[0]
  {
    assert a[0] in multiset(b) && |b| == |multiset(b)|;
    assert b[0] in multiset(a);
    HeadIsLeast(atMost, a, b[0]);
    HeadIsLeast(atMost, b, a[0]);
  }

  /** A sorted list is settled by its elements when no two of them tie. */
  lemma {:induction false} SortedTogether<T(!new)>(atMost: (T, T) -> bool, a: seq<T>, b: seq<T>)
    requires TotalPreorder(atMost) && SortedBy(atMost, a) && SortedBy(atMost, b)
    requires multiset(a) == multiset(b)
    requires NoTies(atMost, a)
    ensures a == b
  {
    if a == [] {
      assert |multiset(b)| == 0;
    } else {
      HeadsAgree(atMost, a, b);
      TailMultiset(a);
      TailMultiset(b);
      assert NoTies(atMost, a[1..]);
      SortedTogether(atMost, a[1..], b[1..]);
      assert a == [a[0]] + a[1..] && b == [b[0]] + b[1..];
    }
  }

  lemma {:induction false} InsertIntoFront<T(!new)>(atMost: (T, T) -> bool, x: T, front: seq<T>, back: seq<T>)
    requires forall y :: y in back ==> atMost(x, y)
    ensures Insert(atMost, x, front + back) == Insert(atMost, x, front) + back
  {
    if front == [] {
      assert front + back == back;
      assert back != [] ==> back[0] in back;
    } else if !atMost(x, front[0]) {
      assert (front + back)[1..] == front[1..] + back;
      InsertIntoFront(atMost, x, front[1..], back);
    } else {
      assert [x] + (front + back) == [x] + front + back;
    }
  }

  /** Lists of which the first stays below the second sort apart. */
  lemma {:induction false} SortConcatenated<T(!new)>(atMost: (T, T) -> bool, front: seq<T>, back: seq<T>)
    requires forall x, y :: x in front && y in back ==> atMost(x, y)
    ensures Sort(atMost, front + back) == Sort(atMost, front) + Sort(atMost, back)
  {
    if front == [] {
      assert front + back == back;
    } else {
      assert (front + back)[1..] == front[1..] + back;
      SortConcatenated(atMost, front[1..], back);
      SortIsPermutation(atMost, back);
      InsertIntoFront(atMost, front[0], Sort(atMost, front[1..]), Sort(atMost, back));
    }
  }
}
