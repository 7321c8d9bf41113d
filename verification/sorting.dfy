/**
  The pages sort with `Array.prototype.sort` and a subtracting comparator.
  That sort is stable, so the result is determined: ordered by the key in the
  chosen direction, with equal keys left in their original order. It is
  modelled here as insertion sort over a real-valued key.
 */
module Sorting {
  import Seqs

  /** A key `a` may precede a key `b` in the chosen direction. */
  predicate InOrder(a: real, b: real, descending: bool)
  {
    if descending then a >= b else a <= b
  }

  /** Every earlier element's key may precede every later element's key. */
  predicate Ordered<T>(s: seq<T>, key: T -> real, descending: bool)
  {
    forall i, j :: 0 <= i < j < |s| ==> InOrder(key(s[i]), key(s[j]), descending)
  }

  /** The elements of `s` whose key is `k`, in their order in `s`. */
  function WithKey<T>(s: seq<T>, key: T -> real, k: real): seq<T>
  {
    if s == [] then []
    else (if key(s[0]) == k then [s[0]] else []) + WithKey(s[1..], key, k)
  }

  /** Puts `x` in front of the first element it may precede. */
  function Insert<T>(x: T, s: seq<T>, key: T -> real, descending: bool): (r: seq<T>)
    ensures multiset(r) == multiset(s) + multiset{x}
    ensures Ordered(s, key, descending) ==> Ordered(r, key, descending)
  {
    if s == [] || InOrder(key(x), key(s[0]), descending) then [x] + s
    else
      var rest := Insert(x, s[1..], key, descending);
      var r := [s[0]] + rest;
      assert s == [s[0]] + s[1..];
      assert multiset(r) == multiset(s) + multiset{x};
      if Ordered(s, key, descending) then
        InsertOrdered(x, s, rest, key, descending);
        r
      else r
  }

  /** The step of `Insert` that keeps the order: the head stays ahead of the inserted element. */
  lemma InsertOrdered<T>(x: T, s: seq<T>, rest: seq<T>, key: T -> real, descending: bool)
    requires s != [] && !InOrder(key(x), key(s[0]), descending)
    requires Ordered(s, key, descending)
    requires multiset(rest) == multiset(s[1..]) + multiset{x}
    requires Ordered(s[1..], key, descending) ==> Ordered(rest, key, descending)
    ensures Ordered([s[0]] + rest, key, descending)
  {
    var r := [s[0]] + rest;
    assert Ordered(s[1..], key, descending) by {
      forall i, j | 0 <= i < j < |s[1..]|
        ensures InOrder(key(s[1..][i]), key(s[1..][j]), descending)
      {
        assert s[1..][i] == s[i + 1] && s[1..][j] == s[j + 1];
      }
    }
    forall i, j | 0 <= i < j < |r|
      ensures InOrder(key(r[i]), key(r[j]), descending)
    {
      if i == 0 {
        var y := r[j];
        assert y == rest[j - 1];
        assert y in multiset(rest);
        if y != x {
          assert y in s[1..];
          var k :| 0 <= k < |s[1..]| && s[1..][k] == y;
          assert s[k + 1] == y;
        }
      } else {
        assert r[i] == rest[i - 1] && r[j] == rest[j - 1];
      }
    }
  }

  /** Sorts by `key`, largest first when `descending`, smallest first otherwise. */
  function SortBy<T>(s: seq<T>, key: T -> real, descending: bool): (r: seq<T>)
    ensures multiset(r) == multiset(s)
    ensures |r| == |s|
    ensures Ordered(r, key, descending)
  {
    if s == [] then []
    else
      assert s == [s[0]] + s[1..];
      Insert(s[0], SortBy(s[1..], key, descending), key, descending)
  }

  lemma WithKeyCons<T>(y: T, s: seq<T>, key: T -> real, k: real)
    ensures WithKey([y] + s, key, k) == (if key(y) == k then [y] else []) + WithKey(s, key, k)
  {
    assert ([y] + s)[1..] == s;
  }

  /** An element that may not precede the head goes in after it. */
  lemma InsertPastHead<T>(x: T, s: seq<T>, key: T -> real, descending: bool)
    requires s != [] && !InOrder(key(x), key(s[0]), descending)
    ensures Insert(x, s, key, descending) == [s[0]] + Insert(x, s[1..], key, descending)
  {
  }

  lemma {:induction false} InsertKeepsTies<T>(x: T, s: seq<T>, key: T -> real, descending: bool, k: real)
    ensures WithKey(Insert(x, s, key, descending), key, k)
            == (if key(x) == k then [x] else []) + WithKey(s, key, k)
  {
    if s == [] || InOrder(key(x), key(s[0]), descending) {
      WithKeyCons(x, s, key, k);
    } else {
      var rest := Insert(x, s[1..], key, descending);
      var mine: seq<T> := if key(x) == k then [x] else [];
      var head: seq<T> := if key(s[0]) == k then [s[0]] else [];
      calc {
        WithKey(Insert(x, s, key, descending), key, k);
        { InsertPastHead(x, s, key, descending); }
        WithKey([s[0]] + rest, key, k);
        { WithKeyCons(s[0], rest, key, k); }
        head + WithKey(rest, key, k);
        { InsertKeepsTies(x, s[1..], key, descending, k); }
        head + (mine + WithKey(s[1..], key, k));
        { assert key(x) != key(s[0]); assert mine == [] || head == []; }
        mine + (head + WithKey(s[1..], key, k));
        { WithKeyCons(s[0], s[1..], key, k); assert s == [s[0]] + s[1..]; }
        mine + WithKey(s, key, k);
      }
    }
  }

  /** Sorting is stable: the elements sharing any one key keep their original order. */
  lemma {:induction false} SortByIsStable<T>(s: seq<T>, key: T -> real, descending: bool, k: real)
    ensures WithKey(SortBy(s, key, descending), key, k) == WithKey(s, key, k)
  {
    if s != [] {
      SortByIsStable(s[1..], key, descending, k);
      InsertKeepsTies(s[0], SortBy(s[1..], key, descending), key, descending, k);
    }
  }

  /** Removing elements from an ordered sequence leaves it ordered. */
  lemma {:induction false} FilterKeepsOrder<T(!new)>(s: seq<T>, p: T -> bool, key: T -> real, descending: bool)
    requires Ordered(s, key, descending)
    ensures Ordered(Seqs.Filter(s, p), key, descending)
  {
    if s != [] {
      FilterKeepsOrder(s[1..], p, key, descending);
      var rest := Seqs.Filter(s[1..], p);
      assert forall y :: y in rest ==> y in s[1..];
      forall j | 0 <= j < |rest|
        ensures InOrder(key(s[0]), key(rest[j]), descending)
      {
        assert rest[j] in s[1..];
        var i :| 0 <= i < |s[1..]| && s[1..][i] == rest[j];
        assert s[i + 1] == rest[j];
      }
    }
  }
}
