/**
 * Descending sort by a key that may be missing, with missing keys last: the
 * order pandas' `sort_values(ascending=False)` and `nlargest` produce. Ties may
 * come out in any order in pandas; the sort here is a stable insertion sort, but
 * its contract promises only a permutation in key order.
 */
module Sorting {
  import opened Basics

  /** An element with key `a` may stand before one with key `b`. */
  predicate Precedes(a: Option<real>, b: Option<real>) {
    b.None? || (a.Some? && a.value >= b.value)
  }

  /** Keys are non-increasing, and every missing key comes after every present one. */
  predicate SortedDesc<T>(s: seq<T>, key: T -> Option<real>) {
    forall i, j :: 0 <= i < j < |s| ==> Precedes(key(s[i]), key(s[j]))
  }

  lemma PrecedesTotal(a: Option<real>, b: Option<real>)
    ensures Precedes(a, b) || Precedes(b, a)
  {
  }

  /** Puts `x` before the first element it may precede. */
  function Insert<T>(x: T, s: seq<T>, key: T -> Option<real>): (r: seq<T>)
    ensures multiset(r) == multiset(s) + multiset{x}
    ensures |r| == |s| + 1
  {
    if s == [] || Precedes(key(x), key(s[0])) then [x] + s
    else
      assert s == [s[0]] + s[1..];
      [s[0]] + Insert(x, s[1..], key)
  }

  lemma {:induction false} InsertSorted<T>(x: T, s: seq<T>, key: T -> Option<real>)
    requires SortedDesc(s, key)
    ensures SortedDesc(Insert(x, s, key), key)
  {
    if s == [] || Precedes(key(x), key(s[0])) {
      assert forall j :: 0 <= j < |s| ==> Precedes(key(x), key(s[j]));
    } else {
      var rest := Insert(x, s[1..], key);
      InsertSorted(x, s[1..], key);
      PrecedesTotal(key(x), key(s[0]));
      forall j | 0 <= j < |rest|
        ensures Precedes(key(s[0]), key(rest[j]))
      {
        assert rest[j] in multiset(rest);
        assert rest[j] == x || rest[j] in multiset(s[1..]);
      }
      var r := [s[0]] + rest;
      forall i, j | 0 <= i < j < |r|
        ensures Precedes(key(r[i]), key(r[j]))
      {
        if i == 0 {
          assert r[j] == rest[j - 1];
        } else {
          assert r[i] == rest[i - 1] && r[j] == rest[j - 1];
        }
      }
    }
  }

  /** The elements of `s` in non-increasing key order, missing keys last. */
  function SortDesc<T>(s: seq<T>, key: T -> Option<real>): (r: seq<T>)
    ensures SortedDesc(r, key)
    ensures multiset(r) == multiset(s)
    ensures |r| == |s|
  {
    if s == [] then []
    else
      assert s == [s[0]] + s[1..];
      var rest := SortDesc(s[1..], key);
      InsertSorted(s[0], rest, key);
      Insert(s[0], rest, key)
  }
}
