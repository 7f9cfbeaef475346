/** The stable sort by a key, as a function, and what it does. */
module Sorting {

  predicate Sorted<T>(s: seq<T>, key: T -> int) {
    forall i, j :: 0 <= i < j < |s| ==> key(s[i]) <= key(s[j])
  }

  /** Places `x` behind everything whose key is not larger. */
  function Insert<T>(s: seq<T>, key: T -> int, x: T): seq<T> {
    if s == [] || key(s[|s| - 1]) <= key(x) then s + [x]
    else Insert(s[..|s| - 1], key, x) + [s[|s| - 1]]
  }

  function Sort<T>(s: seq<T>, key: T -> int): seq<T> {
    if s == [] then [] else Insert(Sort(s[..|s| - 1], key), key, s[|s| - 1])
  }

  lemma {:induction false} InsertMembers<T>(s: seq<T>, key: T -> int, x: T)
    ensures |Insert(s, key, x)| == |s| + 1
    ensures forall i :: 0 <= i <= |s| ==> Insert(s, key, x)[i] == x || Insert(s, key, x)[i] in s
  {
    if s != [] && key(s[|s| - 1]) > key(x) { InsertMembers(s[..|s| - 1], key, x); }
  }

  lemma {:induction false} InsertSorted<T>(s: seq<T>, key: T -> int, x: T)
    requires Sorted(s, key)
    ensures Sorted(Insert(s, key, x), key)
  {
    if s != [] && key(s[|s| - 1]) > key(x) {
      InsertSorted(s[..|s| - 1], key, x);
      InsertMembers(s[..|s| - 1], key, x);
    }
  }

  lemma {:induction false} InsertMultiset<T>(s: seq<T>, key: T -> int, x: T)
    ensures multiset(Insert(s, key, x)) == multiset(s) + multiset{x}
  {
    if s != [] && key(s[|s| - 1]) > key(x) {
      var n := |s| - 1;
      InsertMultiset(s[..n], key, x);
      assert s == s[..n] + [s[n]];
    }
  }

  /** The result is in order and a permutation of the input. */
  lemma {:induction false} SortSorts<T>(s: seq<T>, key: T -> int)
    ensures Sorted(Sort(s, key), key) && multiset(Sort(s, key)) == multiset(s)
  {
    if s != [] {
      var n := |s| - 1;
      SortSorts(s[..n], key);
      hide Insert, Sorted;
      InsertSorted(Sort(s[..n], key), key, s[n]);
      InsertMultiset(Sort(s[..n], key), key, s[n]);
      assert s == s[..n] + [s[n]];
    }
  }

  lemma {:induction false} SortedIsFixed<T>(s: seq<T>, key: T -> int)
    requires Sorted(s, key)
    ensures Sort(s, key) == s
  {
    if s != [] {
      var n := |s| - 1;
      SortedIsFixed(s[..n], key);
      assert s == s[..n] + [s[n]];
    }
  }

  /** Sorting a sorted sequence with one element appended inserts that element. */
  lemma SortAppended<T>(s: seq<T>, key: T -> int, x: T)
    requires Sorted(s, key)
    ensures Sort(s + [x], key) == Insert(s, key, x)
  {
    assert (s + [x])[..|s|] == s;
    SortedIsFixed(s, key);
  }

  /** The elements with key `v`, in order. */
  function WithKey<T>(s: seq<T>, key: T -> int, v: int): seq<T> {
    if s == [] then []
    else WithKey(s[..|s| - 1], key, v) + (if key(s[|s| - 1]) == v then [s[|s| - 1]] else [])
  }

  lemma {:induction false} InsertStable<T>(s: seq<T>, key: T -> int, x: T, v: int)
    ensures WithKey(Insert(s, key, x), key, v) == WithKey(s, key, v) + (if key(x) == v then [x] else [])
  {
    var r := Insert(s, key, x);
    if s == [] || key(s[|s| - 1]) <= key(x) {
      assert r[..|r| - 1] == s;
    } else {
      InsertStable(s[..|s| - 1], key, x, v);
      assert r[..|r| - 1] == Insert(s[..|s| - 1], key, x);
    }
  }

  /** The sort is stable: elements with the same key keep their order. */
  lemma {:induction false} SortIsStable<T>(s: seq<T>, key: T -> int, v: int)
    ensures WithKey(Sort(s, key), key, v) == WithKey(s, key, v)
  {
    if s != [] {
      SortIsStable(s[..|s| - 1], key, v);
      InsertStable(Sort(s[..|s| - 1], key), key, s[|s| - 1], v);
    }
  }
}
