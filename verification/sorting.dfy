/** Python's `sorted(xs, key=...)` on a list whose keys are numbers: a
    stable insertion sort, specified by sortedness, permutation and
    stability. */
module Sorting {

  predicate SortedBy<T>(xs: seq<T>, key: T -> real)
  {
    forall i, j :: 0 <= i < j < |xs| ==> key(xs[i]) <= key(xs[j])
  }

  /** Places `x` after every element whose key is not greater, so equal keys
      keep their order. */
  function InsertBy<T>(x: T, xs: seq<T>, key: T -> real): (r: seq<T>)
    requires SortedBy(xs, key)
    ensures SortedBy(r, key)
    ensures multiset(r) == multiset(xs) + multiset{x}
    ensures |r| == |xs| + 1
    decreases |xs|
  {
    if |xs| == 0 then [x]
    else if key(x) < key(xs[0]) then [x] + xs
    else
      var rest := InsertBy(x, xs[1..], key);
      assert xs == [xs[0]] + xs[1..];
      InsertBounded(xs[0], x, xs[1..], rest, key);
      [xs[0]] + rest
  }

  lemma InsertBounded<T>(first: T, x: T, tail: seq<T>, rest: seq<T>, key: T -> real)
    requires key(first) <= key(x)
    requires forall i :: 0 <= i < |tail| ==> key(first) <= key(tail[i])
    requires multiset(rest) == multiset(tail) + multiset{x}
    requires SortedBy(rest, key)
    ensures SortedBy([first] + rest, key)
  {
    forall i | 0 <= i < |rest| ensures key(first) <= key(rest[i]) {
      assert rest[i] in multiset(rest);
      if rest[i] != x {
        assert rest[i] in multiset(tail);
        var k :| 0 <= k < |tail| && tail[k] == rest[i];
      }
    }
    var s := [first] + rest;
    forall i, j | 0 <= i < j < |s| ensures key(s[i]) <= key(s[j]) {
      if i > 0 {
        assert s[i] == rest[i - 1] && s[j] == rest[j - 1];
      } else {
        assert s[j] == rest[j - 1];
      }
    }
  }

  /** `sorted(xs, key=key)`. */
  function SortBy<T>(xs: seq<T>, key: T -> real): (r: seq<T>)
    ensures SortedBy(r, key)
    ensures multiset(r) == multiset(xs)
    ensures |r| == |xs|
    decreases |xs|
  {
    if |xs| == 0 then []
    else
      var n := |xs| - 1;
      assert xs == xs[..n] + [xs[n]];
      InsertBy(xs[n], SortBy(xs[..n], key), key)
  }

  /** Sorting keeps exactly the elements it was given. */
  lemma SortKeepsMembers<T>(xs: seq<T>, key: T -> real, x: T)
    ensures x in SortBy(xs, key) <==> x in xs
  {
    assert x in SortBy(xs, key) <==> x in multiset(SortBy(xs, key));
    assert x in xs <==> x in multiset(xs);
  }

  /** A list already in order is returned as it is. */
  lemma {:induction false} SortedUnchanged<T>(xs: seq<T>, key: T -> real)
    requires forall i, j :: 0 <= i < j < |xs| ==> key(xs[i]) < key(xs[j])
    ensures SortBy(xs, key) == xs
    decreases |xs|
  {
    if |xs| > 0 {
      var n := |xs| - 1;
      SortedUnchanged(xs[..n], key);
      InsertLast(xs[n], xs[..n], key);
      assert xs[..n] + [xs[n]] == xs;
    }
  }

  lemma {:induction false} InsertLast<T>(x: T, xs: seq<T>, key: T -> real)
    requires SortedBy(xs, key)
    requires forall i :: 0 <= i < |xs| ==> key(xs[i]) <= key(x)
    ensures InsertBy(x, xs, key) == xs + [x]
    decreases |xs|
  {
    if |xs| > 0 {
      assert SortedBy(xs[1..], key);
      InsertLast(x, xs[1..], key);
      assert xs == [xs[0]] + xs[1..];
    }
  }

  /** The elements whose key is `v`, in list order. */
  function WithKey<T>(xs: seq<T>, key: T -> real, v: real): seq<T>
    decreases |xs|
  {
    if |xs| == 0 then []
    else (if key(xs[0]) == v then [xs[0]] else []) + WithKey(xs[1..], key, v)
  }

  lemma {:induction false} WithKeyConcat<T>(a: seq<T>, b: seq<T>, key: T -> real, v: real)
    ensures WithKey(a + b, key, v) == WithKey(a, key, v) + WithKey(b, key, v)
    decreases |a|
  {
    if |a| == 0 {
      assert a + b == b;
    } else {
      var h := if key(a[0]) == v then [a[0]] else [];
      assert (a + b)[0] == a[0] && (a + b)[1..] == a[1..] + b;
      assert WithKey(a + b, key, v) == h + WithKey(a[1..] + b, key, v);
      WithKeyConcat(a[1..], b, key, v);
      assert WithKey(a, key, v) == h + WithKey(a[1..], key, v);
    }
  }

  lemma {:induction false} WithKeyNone<T>(xs: seq<T>, key: T -> real, v: real)
    requires forall i :: 0 <= i < |xs| ==> key(xs[i]) > v
    ensures WithKey(xs, key, v) == []
    decreases |xs|
  {
    if |xs| > 0 {
      WithKeyNone(xs[1..], key, v);
    }
  }

  /** Inserting places the new element after every element of equal key. */
  lemma ConsWithKey<T>(y: T, ys: seq<T>, key: T -> real, v: real)
    ensures WithKey([y] + ys, key, v) == (if key(y) == v then [y] else []) + WithKey(ys, key, v)
  {
    assert ([y] + ys)[0] == y && ([y] + ys)[1..] == ys;
  }

  /** An element placed in front is before every element of its key. */
  lemma InsertFrontWithKey<T>(x: T, xs: seq<T>, key: T -> real, v: real)
    requires SortedBy(xs, key) && |xs| > 0 && key(x) < key(xs[0])
    ensures WithKey([x] + xs, key, v) == WithKey(xs, key, v) + (if key(x) == v then [x] else [])
  {
    ConsWithKey(x, xs, key, v);
    if key(x) == v {
      WithKeyNone(xs, key, v);
      assert [x] + [] == [] + [x];
    }
  }

  lemma {:induction false} InsertWithKey<T>(x: T, xs: seq<T>, key: T -> real, v: real)
    requires SortedBy(xs, key)
    ensures WithKey(InsertBy(x, xs, key), key, v) == WithKey(xs, key, v) + (if key(x) == v then [x] else [])
    decreases |xs|
  {
    if |xs| == 0 {
      assert InsertBy(x, xs, key) == [x] + xs;
      ConsWithKey(x, xs, key, v);
    } else if key(x) < key(xs[0]) {
      assert InsertBy(x, xs, key) == [x] + xs;
      InsertFrontWithKey(x, xs, key, v);
    } else {
      var rest := InsertBy(x, xs[1..], key);
      assert InsertBy(x, xs, key) == [xs[0]] + rest;
      assert xs == [xs[0]] + xs[1..];
      ConsWithKey(xs[0], rest, key, v);
      ConsWithKey(xs[0], xs[1..], key, v);
      InsertWithKey(x, xs[1..], key, v);
    }
  }

  /** `sorted` is stable: the elements sharing a key come out in the order
      they went in. */
  lemma {:induction false} SortStable<T>(xs: seq<T>, key: T -> real, v: real)
    ensures WithKey(SortBy(xs, key), key, v) == WithKey(xs, key, v)
    decreases |xs|
  {
    if |xs| > 0 {
      var n := |xs| - 1;
      var pre, x := xs[..n], xs[n];
      var t := if key(x) == v then [x] else [];
      assert xs == pre + [x];
      assert SortBy(xs, key) == InsertBy(x, SortBy(pre, key), key);
      SortStable(pre, key, v);
      InsertWithKey(x, SortBy(pre, key), key, v);
      WithKeyConcat(pre, [x], key, v);
      assert [x][1..] == [];
      assert WithKey([x], key, v) == t + WithKey([x][1..], key, v);
    }
  }
}
