/** Filtering a query's rows, as `filter` does, and ordering them by an integer column, as `order_by(column)` does. */
module Sorting {

  /** `s` is in ascending order of `key`. */
  predicate SortedBy<T>(s: seq<T>, key: T -> int)
  {
    forall i, j :: 0 <= i < j < |s| ==> key(s[i]) <= key(s[j])
  }

  /** Inserts `x` into the ascending sequence `s` after every row with a smaller key and before the rest. */
  function Insert<T>(x: T, s: seq<T>, key: T -> int): (r: seq<T>)
    ensures multiset(r) == multiset(s) + multiset{x}
  {
    if |s| == 0 then [x]
    else if key(x) <= key(s[0]) then [x] + s
    else
      assert s == [s[0]] + s[1..];
      [s[0]] + Insert(x, s[1..], key)
  }

  /** Inserting into an ascending sequence keeps it ascending. */
  lemma {:induction false} InsertSorted<T>(x: T, s: seq<T>, key: T -> int)
    requires SortedBy(s, key)
    ensures SortedBy(Insert(x, s, key), key)
    decreases |s|
  {
    if |s| > 0 && key(s[0]) < key(x) {
      var tail := Insert(x, s[1..], key);
      InsertSorted(x, s[1..], key);
      forall k | 0 <= k < |tail|
        ensures key(s[0]) <= key(tail[k])
      {
        InsertFrom(x, s[1..], key, k);
        if tail[k] != x {
          var j :| 0 <= j < |s[1..]| && s[1..][j] == tail[k];
          assert s[1..][j] == s[j + 1];
        }
      }
      ConsSorted(s[0], tail, key);
    }
  }

  /** Every row of an insertion is the row inserted or one of the rows before. */
  lemma InsertFrom<T>(x: T, s: seq<T>, key: T -> int, k: nat)
    requires k < |Insert(x, s, key)|
    ensures Insert(x, s, key)[k] == x || Insert(x, s, key)[k] in s
  {
    var r := Insert(x, s, key);
    assert r[k] in multiset(r);
  }

  /** A row with a key no greater than any of an ascending sequence's can head it. */
  lemma ConsSorted<T>(a: T, tail: seq<T>, key: T -> int)
    requires SortedBy(tail, key)
    requires forall k :: 0 <= k < |tail| ==> key(a) <= key(tail[k])
    ensures SortedBy([a] + tail, key)
  {
    var r := [a] + tail;
    assert forall k :: 1 <= k < |r| ==> r[k] == tail[k - 1];
  }

  /** The rows of `s` in ascending order of `key`. */
  function SortBy<T>(s: seq<T>, key: T -> int): (r: seq<T>)
    ensures SortedBy(r, key)
    ensures multiset(r) == multiset(s)
  {
    if |s| == 0 then []
    else
      assert s == [s[0]] + s[1..];
      InsertSorted(s[0], SortBy(s[1..], key), key);
      Insert(s[0], SortBy(s[1..], key), key)
  }

  /** The rows with key `v`. */
  function KeyIs<T>(key: T -> int, v: int): T -> bool
  {
    y => key(y) == v
  }

  /** Inserting a row puts it before the rows with its own key. */
  lemma {:induction false} InsertKeyIs<T>(x: T, s: seq<T>, key: T -> int, v: int)
    ensures Filter(Insert(x, s, key), KeyIs(key, v)) == (if key(x) == v then [x] else []) + Filter(s, KeyIs(key, v))
    decreases |s|
  {
    if |s| == 0 {
      FilterCons(x, [], KeyIs(key, v));
    } else if key(x) <= key(s[0]) {
      FilterCons(x, s, KeyIs(key, v));
    } else {
      var p := KeyIs(key, v);
      var rest := Insert(x, s[1..], key);
      assert Insert(x, s, key) == [s[0]] + rest;
      InsertKeyIs(x, s[1..], key, v);
      FilterCons(s[0], rest, p);
      FilterCons(s[0], s[1..], p);
      assert s == [s[0]] + s[1..];
      var tail := Filter(s[1..], p);
      if p(x) {
        assert !p(s[0]);
        assert Filter(Insert(x, s, key), p) == [x] + tail;
        assert Filter(s, p) == tail;
      } else {
        assert Filter(rest, p) == tail;
      }
    }
  }

  /** The ordering is stable: the rows with any one key come out in the order they were stored. */
  lemma {:induction false} SortByStable<T>(s: seq<T>, key: T -> int, v: int)
    ensures Filter(SortBy(s, key), KeyIs(key, v)) == Filter(s, KeyIs(key, v))
    decreases |s|
  {
    if |s| > 0 {
      SortByStable(s[1..], key, v);
      InsertKeyIs(s[0], SortBy(s[1..], key), key, v);
      FilterCons(s[0], s[1..], KeyIs(key, v));
      assert s == [s[0]] + s[1..];
    }
  }

  /** Sorting neither drops nor invents a row. */
  lemma SortByKeeps<T>(s: seq<T>, key: T -> int, x: T)
    ensures x in SortBy(s, key) <==> x in s
  {
    var r := SortBy(s, key);
    assert x in r <==> x in multiset(r);
    assert x in s <==> x in multiset(s);
  }

  /** The rows of `s` that satisfy `keep`, in order. */
  function Filter<T>(s: seq<T>, keep: T -> bool): (r: seq<T>)
    ensures |r| <= |s|
  {
    if |s| == 0 then []
    else Filter(s[..|s| - 1], keep) + (if keep(s[|s| - 1]) then [s[|s| - 1]] else [])
  }

  /** A row is selected exactly when it is one of the rows and satisfies the condition. */
  lemma {:induction false} FilterSpec<T>(s: seq<T>, keep: T -> bool, x: T)
    ensures x in Filter(s, keep) <==> x in s && keep(x)
    decreases |s|
  {
    if |s| > 0 {
      var n := |s| - 1;
      FilterSpec(s[..n], keep, x);
      assert s == s[..n] + [s[n]];
    }
  }

  /** Filtering a sequence with a row in front filters that row, then the rest. */
  lemma {:induction false} FilterCons<T>(a: T, s: seq<T>, keep: T -> bool)
    ensures Filter([a] + s, keep) == (if keep(a) then [a] else []) + Filter(s, keep)
    decreases |s|
  {
    if |s| > 0 {
      var n := |s| - 1;
      var t := [a] + s;
      FilterCons(a, s[..n], keep);
      var head := if keep(a) then [a] else [];
      var last := if keep(s[n]) then [s[n]] else [];
      assert t[..|t| - 1] == [a] + s[..n];
      assert t[|t| - 1] == s[n];
      assert Filter(t, keep) == Filter([a] + s[..n], keep) + last;
      assert Filter(s, keep) == Filter(s[..n], keep) + last;
      assert Filter(t, keep) == (head + Filter(s[..n], keep)) + last;
    }
  }

  /** Filtering twice is filtering once by both conditions. */
  lemma {:induction false} FilterFilter<T>(s: seq<T>, p: T -> bool, q: T -> bool, both: T -> bool)
    requires forall x :: both(x) == (p(x) && q(x))
    ensures Filter(Filter(s, p), q) == Filter(s, both)
    decreases |s|
  {
    if |s| > 0 {
      var n := |s| - 1;
      FilterFilter(s[..n], p, q, both);
      var a := Filter(s[..n], p);
      if p(s[n]) {
        assert Filter(s, p) == a + [s[n]];
        assert (a + [s[n]])[..|a|] == a;
      } else {
        assert Filter(s, p) == a;
      }
    }
  }

  /** Filters by conditions that agree on every row select the same rows. */
  lemma {:induction false} FilterSame<T>(s: seq<T>, p: T -> bool, q: T -> bool)
    requires forall x :: p(x) == q(x)
    ensures Filter(s, p) == Filter(s, q)
    decreases |s|
  {
    if |s| > 0 {
      FilterSame(s[..|s| - 1], p, q);
    }
  }

  /** A condition no row satisfies selects nothing. */
  lemma {:induction false} FilterRejectsAll<T>(s: seq<T>, keep: T -> bool)
    requires forall x :: x in s ==> !keep(x)
    ensures Filter(s, keep) == []
    decreases |s|
  {
    if |s| > 0 {
      var n := |s| - 1;
      assert s[n] in s;
      assert forall x :: x in s[..n] ==> x in s;
      FilterRejectsAll(s[..n], keep);
    }
  }

  /** The first `k` rows of an ordered sequence are in order, are among its rows,
      and none of the rows after them has a smaller key. */
  lemma TakeSorted<T>(s: seq<T>, key: T -> int, k: nat)
    requires SortedBy(s, key) && k <= |s|
    ensures SortedBy(s[..k], key)
    ensures multiset(s[..k]) <= multiset(s)
    ensures forall x :: x in s && x !in s[..k] ==> forall i :: 0 <= i < k ==> key(s[i]) <= key(x)
  {
    assert s == s[..k] + s[k..];
    assert multiset(s) == multiset(s[..k]) + multiset(s[k..]);
    forall x | x in s && x !in s[..k]
      ensures forall i :: 0 <= i < k ==> key(s[i]) <= key(x)
    {
      var j :| 0 <= j < |s| && s[j] == x;
      assert j >= k;
    }
  }
}
