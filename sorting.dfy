/**
  `Array.prototype.sort` with a comparator of the form `(a, b) => key(a) - key(b)`:
  a stable sort by an integer key, written as insertion sort.
 */
module Sorting {

  /** The keys of `s` never decrease. */
  ghost predicate SortedBy<T>(s: seq<T>, key: T -> int) {
    forall i, j :: 0 <= i < j < |s| ==> key(s[i]) <= key(s[j])
  }

  /** Insert `x` before the first element of `s` whose key is not smaller. */
  function InsertBy<T(!new)>(x: T, s: seq<T>, key: T -> int): (r: seq<T>)
    requires SortedBy(s, key)
    ensures SortedBy(r, key)
    ensures multiset(r) == multiset(s) + multiset{x}
    ensures forall y :: y in r <==> y == x || y in s
    decreases |s|
  {
    if s == [] || key(x) <= key(s[0]) then [x] + s
    else
      var r' := InsertBy(x, s[1..], key);
      HeadBelow(s[0], r', s[1..], x, key);
      assert s == [s[0]] + s[1..];
      [s[0]] + r'
  }

  /** An element whose key is at most every key of `s` and of `x` is at most every key of a rearrangement of `s` plus `x`. */
  lemma HeadBelow<T(!new)>(h: T, r: seq<T>, s: seq<T>, x: T, key: T -> int)
    requires multiset(r) == multiset(s) + multiset{x}
    requires key(h) <= key(x) && forall i :: 0 <= i < |s| ==> key(h) <= key(s[i])
    requires SortedBy(r, key)
    ensures SortedBy([h] + r, key)
  {
    forall i | 0 <= i < |r| ensures key(h) <= key(r[i]) {
      assert r[i] in multiset(r);
      if r[i] != x {
        assert r[i] in multiset(s);
        var k :| 0 <= k < |s| && s[k] == r[i];
      }
    }
  }

  /** The stable sort of `s` by `key`. */
  function SortBy<T(!new)>(s: seq<T>, key: T -> int): (r: seq<T>)
    ensures SortedBy(r, key)
    ensures multiset(r) == multiset(s)
    ensures forall x :: x in r <==> x in s
    decreases |s|
  {
    if s == [] then []
    else
      assert s == [s[0]] + s[1..];
      InsertBy(s[0], SortBy(s[1..], key), key)
  }

  /** Sorting an already sorted sequence leaves it as it is, so sorting twice is sorting once. */
  lemma {:induction false} SortSorted<T(!new)>(s: seq<T>, key: T -> int)
    requires SortedBy(s, key)
    ensures SortBy(s, key) == s
    decreases |s|
  {
    if s != [] {
      SortSorted(s[1..], key);
      assert s == [s[0]] + s[1..];
    }
  }

  /** Sorting is idempotent. */
  lemma SortTwice<T(!new)>(s: seq<T>, key: T -> int)
    ensures SortBy(SortBy(s, key), key) == SortBy(s, key)
  {
    SortSorted(SortBy(s, key), key);
  }

  /** The elements of `s` whose key is `k`, in their order in `s`. */
  function WithKey<T>(s: seq<T>, key: T -> int, k: int): (r: seq<T>)
    ensures forall i :: 0 <= i < |r| ==> key(r[i]) == k
    ensures |r| <= |s|
  {
    if s == [] then []
    else if key(s[0]) == k then [s[0]] + WithKey(s[1..], key, k)
    else WithKey(s[1..], key, k)
  }

  /** Inserting `x` puts it before every element with its own key. */
  lemma {:induction false} InsertWithKey<T(!new)>(x: T, s: seq<T>, key: T -> int, k: int)
    requires SortedBy(s, key)
    ensures WithKey(InsertBy(x, s, key), key, k) == (if key(x) == k then [x] else []) + WithKey(s, key, k)
    decreases |s|
  {
    if s == [] || key(x) <= key(s[0]) {
      assert ([x] + s)[1..] == s;
    } else {
      var r' := InsertBy(x, s[1..], key);
      InsertWithKey(x, s[1..], key, k);
      assert ([s[0]] + r')[1..] == r';
    }
  }

  /**
    `SortBy` is stable: among elements with equal keys the sorted sequence keeps the order of the
    input, as `Array.prototype.sort` has since ECMAScript 2019.
   */
  lemma {:induction false} SortStable<T(!new)>(s: seq<T>, key: T -> int, k: int)
    ensures WithKey(SortBy(s, key), key, k) == WithKey(s, key, k)
    decreases |s|
  {
    if s != [] {
      SortStable(s[1..], key, k);
      InsertWithKey(s[0], SortBy(s[1..], key), key, k);
    }
  }

  /** The identity key, for sorting numbers with `(a, b) => a - b`. */
  function Id(x: int): int { x }
}
