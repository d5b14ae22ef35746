/** Stable sorting by a numeric key. */
module Sorting {

  ghost predicate SortedBy<T>(key: T -> int, xs: seq<T>) {
    forall i, j :: 0 <= i < j < |xs| ==> key(xs[i]) <= key(xs[j])
  }

  ghost predicate Distinct<T(!new)>(xs: seq<T>) {
    forall i, j :: 0 <= i < j < |xs| ==> xs[i] != xs[j]
  }

  /** Insert `x` after the last element whose key is not larger. */
  function Insert<T>(key: T -> int, x: T, xs: seq<T>): (r: seq<T>)
    ensures |r| == |xs| + 1
  {
    if xs != [] && key(x) < key(xs[|xs| - 1]) then
      Insert(key, x, xs[..|xs| - 1]) + [xs[|xs| - 1]]
    else xs + [x]
  }

  /** The elements of `xs` in ascending key order; equal keys keep their order. */
  function SortBy<T>(key: T -> int, xs: seq<T>): (r: seq<T>)
    ensures |r| == |xs|
  {
    if xs == [] then []
    else Insert(key, xs[|xs| - 1], SortBy(key, xs[..|xs| - 1]))
  }

  lemma {:induction false} InsertElements<T>(key: T -> int, x: T, xs: seq<T>)
    ensures multiset(Insert(key, x, xs)) == multiset(xs) + multiset{x}
  {
    if xs != [] && key(x) < key(xs[|xs| - 1]) {
      InsertElements(key, x, xs[..|xs| - 1]);
      assert xs == xs[..|xs| - 1] + [xs[|xs| - 1]];
    }
  }

  lemma {:induction false} InsertSorted<T>(key: T -> int, x: T, xs: seq<T>)
    requires SortedBy(key, xs)
    ensures SortedBy(key, Insert(key, x, xs))
  {
    if xs != [] && key(x) < key(xs[|xs| - 1]) {
      var front, last := xs[..|xs| - 1], xs[|xs| - 1];
      InsertSorted(key, x, front);
      var r := Insert(key, x, front);
      forall i | 0 <= i < |r| ensures key(r[i]) <= key(last) {
        InsertElements(key, x, front);
        assert r[i] in multiset(r);
        assert r[i] == x || r[i] in front;
      }
    }
  }

  /** Sorting rearranges: no element is lost or invented, and keys ascend. */
  lemma {:induction false} SortByCorrect<T>(key: T -> int, xs: seq<T>)
    ensures multiset(SortBy(key, xs)) == multiset(xs)
    ensures SortedBy(key, SortBy(key, xs))
  {
    if xs != [] {
      var front, last := xs[..|xs| - 1], xs[|xs| - 1];
      SortByCorrect(key, front);
      InsertSorted(key, last, SortBy(key, front));
      InsertElements(key, last, SortBy(key, front));
      assert xs == front + [last];
    }
  }

  /** The elements of one key, in their order. */
  function WithKey<T>(key: T -> int, v: int, xs: seq<T>): seq<T> {
    if xs == [] then []
    else WithKey(key, v, xs[..|xs| - 1]) + if key(xs[|xs| - 1]) == v then [xs[|xs| - 1]] else []
  }

  lemma {:induction false} InsertIsStable<T>(key: T -> int, v: int, x: T, xs: seq<T>)
    requires SortedBy(key, xs)
    ensures WithKey(key, v, Insert(key, x, xs)) == WithKey(key, v, xs) + if key(x) == v then [x] else []
  {
    var all := Insert(key, x, xs);
    if xs != [] && key(x) < key(xs[|xs| - 1]) {
      var front, last := xs[..|xs| - 1], xs[|xs| - 1];
      InsertIsStable(key, v, x, front);
      assert all[..|all| - 1] == Insert(key, x, front) && all[|all| - 1] == last;
      if key(x) == v {
        assert key(last) != v;
      }
    } else {
      assert all[..|all| - 1] == xs && all[|all| - 1] == x;
    }
  }

  /** Sorting is stable: elements of one key keep their order. */
  lemma {:induction false} SortByIsStable<T>(key: T -> int, v: int, xs: seq<T>)
    ensures WithKey(key, v, SortBy(key, xs)) == WithKey(key, v, xs)
  {
    if xs != [] {
      var front, last := xs[..|xs| - 1], xs[|xs| - 1];
      SortByIsStable(key, v, front);
      SortByCorrect(key, front);
      InsertIsStable(key, v, last, SortBy(key, front));
    }
  }

  lemma SortByMembers<T>(key: T -> int, xs: seq<T>)
    ensures forall x :: x in SortBy(key, xs) <==> x in xs
  {
    SortByCorrect(key, xs);
    forall x ensures x in SortBy(key, xs) <==> x in xs {
      assert x in SortBy(key, xs) <==> x in multiset(SortBy(key, xs));
      assert x in xs <==> x in multiset(xs);
    }
  }

  /** Sorting leaves a sorted sequence alone. */
  lemma {:induction false} SortByIdentity<T>(key: T -> int, xs: seq<T>)
    requires SortedBy(key, xs)
    ensures SortBy(key, xs) == xs
  {
    if xs != [] {
      var front, last := xs[..|xs| - 1], xs[|xs| - 1];
      SortByIdentity(key, front);
      assert front != [] ==> key(front[|front| - 1]) <= key(last);
      assert SortBy(key, xs) == Insert(key, last, front) == front + [last];
    }
  }

  lemma {:induction false} DistinctMultiset<T(!new)>(xs: seq<T>)
    ensures Distinct(xs) <==> forall x :: multiset(xs)[x] <= 1
  {
    if xs != [] {
      var front, last := xs[..|xs| - 1], xs[|xs| - 1];
      DistinctMultiset(front);
      assert xs == front + [last];
      assert forall x :: multiset(xs)[x] == multiset(front)[x] + multiset{last}[x];
      if Distinct(xs) {
        forall i, j | 0 <= i < j < |front| ensures front[i] != front[j] {
          assert xs[i] != xs[j];
        }
        assert last !in front;
        assert multiset(front)[last] == 0;
      }
      if forall x :: multiset(xs)[x] <= 1 {
        assert multiset(xs)[last] <= 1;
        assert multiset(front)[last] == 0;
        assert last !in front;
        forall i, j | 0 <= i < j < |xs| ensures xs[i] != xs[j] {
          assert xs[i] == front[i] && front[i] in front;
          if j < |front| { assert xs[j] == front[j]; }
        }
      }
    }
  }

  /** Distinct numbers below their own count, in order, are 0, 1, 2, ... */
  lemma {:induction false} AscendingIsIdentity(ks: seq<int>)
    requires forall i, j :: 0 <= i < j < |ks| ==> ks[i] < ks[j]
    requires forall i :: 0 <= i < |ks| ==> 0 <= ks[i] < |ks|
    ensures forall i :: 0 <= i < |ks| ==> ks[i] == i
  {
    var i := 0;
    while i < |ks|
      invariant 0 <= i <= |ks|
      invariant forall j :: 0 <= j < i ==> j <= ks[j]
    {
      assert i > 0 ==> ks[i - 1] < ks[i];
      i := i + 1;
    }
    while i > 0
      invariant 0 <= i <= |ks|
      invariant forall j :: i <= j < |ks| ==> ks[j] <= j
    {
      i := i - 1;
      assert i + 1 < |ks| ==> ks[i] < ks[i + 1];
    }
  }
}
