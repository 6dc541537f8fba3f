/** The sorts the exporters and endpoints apply to their rows:
    `rows.sort((a, b) => key(b) - key(a))`, newest first. `Array.prototype.sort`
    is stable, so rows with equal keys keep their input order. The model is an
    insertion sort over sequences. */
module Sorting {

  /** Non-increasing by `key`. */
  predicate Descending<T>(xs: seq<T>, key: T -> real) {
    forall i, j :: 0 <= i < j < |xs| ==> key(xs[i]) >= key(xs[j])
  }

  /** `x` placed before the first element whose key is at most its own. */
  function Insert<T>(x: T, ys: seq<T>, key: T -> real): (r: seq<T>)
    ensures |r| == |ys| + 1
    decreases |ys|
  {
    if |ys| == 0 || key(x) >= key(ys[0]) then [x] + ys
    else [ys[0]] + Insert(x, ys[1..], key)
  }

  /** The rows sorted by `key`, largest first, ties in input order. */
  function SortDesc<T>(xs: seq<T>, key: T -> real): (r: seq<T>)
    ensures |r| == |xs|
    decreases |xs|
  {
    if |xs| == 0 then [] else Insert(xs[0], SortDesc(xs[1..], key), key)
  }

  /** The elements whose key is `v`, in order. */
  function WithKey<T>(xs: seq<T>, key: T -> real, v: real): seq<T>
    decreases |xs|
  {
    if |xs| == 0 then []
    else (if key(xs[0]) == v then [xs[0]] else []) + WithKey(xs[1..], key, v)
  }

  lemma {:induction false} InsertPerm<T>(x: T, ys: seq<T>, key: T -> real)
    ensures multiset(Insert(x, ys, key)) == multiset([x]) + multiset(ys)
    decreases |ys|
  {
    if !(|ys| == 0 || key(x) >= key(ys[0])) {
      InsertPerm(x, ys[1..], key);
      assert ys == [ys[0]] + ys[1..];
    }
  }

  /** Every element after the head of a descending sequence has a key no larger than the head's. */
  lemma BelowHead<T>(ys: seq<T>, key: T -> real, y: T)
    requires Descending(ys, key) && |ys| > 0 && y in ys[1..]
    ensures key(y) <= key(ys[0])
  {
    var k :| 0 <= k < |ys[1..]| && ys[1..][k] == y;
    assert ys[k + 1] == y;
  }

  lemma {:induction false} InsertDescending<T>(x: T, ys: seq<T>, key: T -> real)
    requires Descending(ys, key)
    ensures Descending(Insert(x, ys, key), key)
    decreases |ys|
  {
    var r := Insert(x, ys, key);
    if !(|ys| == 0 || key(x) >= key(ys[0])) {
      var tail := Insert(x, ys[1..], key);
      InsertDescending(x, ys[1..], key);
      InsertPerm(x, ys[1..], key);
      assert r == [ys[0]] + tail;
      forall i, j | 0 <= i < j < |r| ensures key(r[i]) >= key(r[j]) {
        if i == 0 {
          var y := tail[j - 1];
          assert y in multiset(tail);
          if y != x {
            assert y in multiset(ys[1..]);
            BelowHead(ys, key, y);
          }
        } else {
          assert r[i] == tail[i - 1] && r[j] == tail[j - 1];
        }
      }
    }
  }

  lemma {:induction false} InsertStable<T>(x: T, ys: seq<T>, key: T -> real, v: real)
    requires Descending(ys, key)
    ensures WithKey(Insert(x, ys, key), key, v) == (if key(x) == v then [x] else []) + WithKey(ys, key, v)
    decreases |ys|
  {
    var r := Insert(x, ys, key);
    if |ys| == 0 || key(x) >= key(ys[0]) {
      assert r[1..] == ys;
    } else {
      assert Descending(ys[1..], key);
      InsertStable(x, ys[1..], key, v);
      assert r[1..] == Insert(x, ys[1..], key);
      if key(x) == v {
        assert key(ys[0]) != v;
      }
    }
  }

  /** The sort is non-increasing by key, a permutation of its input, and
      stable: the rows of any one key appear in their input order. */
  lemma {:induction false} SortDescFacts<T>(xs: seq<T>, key: T -> real)
    ensures Descending(SortDesc(xs, key), key)
    ensures multiset(SortDesc(xs, key)) == multiset(xs)
    ensures forall v :: WithKey(SortDesc(xs, key), key, v) == WithKey(xs, key, v)
    decreases |xs|
  {
    if |xs| > 0 {
      var rest := SortDesc(xs[1..], key);
      SortDescFacts(xs[1..], key);
      InsertDescending(xs[0], rest, key);
      InsertPerm(xs[0], rest, key);
      forall v ensures WithKey(SortDesc(xs, key), key, v) == WithKey(xs, key, v) {
        InsertStable(xs[0], rest, key, v);
      }
      assert xs == [xs[0]] + xs[1..];
    }
  }

  /** Keeping the first `n` rows, as the endpoints that cap their output do. */
  function Top<T>(xs: seq<T>, n: nat): (r: seq<T>)
    ensures |r| == if |xs| < n then |xs| else n
    ensures r == xs[..|r|]
  {
    if |xs| <= n then xs else xs[..n]
  }

  /** The first `n` rows of the sorted list: still sorted, drawn from the
      input, and no row left out has a greater key than a row kept. */
  lemma TopFacts<T>(xs: seq<T>, key: T -> real, n: nat)
    ensures var b := Top(SortDesc(xs, key), n);
      && |b| == (if |xs| < n then |xs| else n)
      && Descending(b, key)
      && multiset(b) <= multiset(xs)
      && forall x, y :: x in b && y in multiset(xs) - multiset(b) ==> key(y) <= key(x)
  {
    var s := SortDesc(xs, key);
    SortDescFacts(xs, key);
    PrefixFacts(s, key, |Top(s, n)|);
  }

  /** A prefix of a sorted list is sorted and outranks what follows it. */
  lemma PrefixFacts<T>(s: seq<T>, key: T -> real, k: nat)
    requires Descending(s, key) && k <= |s|
    ensures Descending(s[..k], key)
    ensures multiset(s[..k]) <= multiset(s)
    ensures forall x, y :: x in s[..k] && y in multiset(s) - multiset(s[..k]) ==> key(y) <= key(x)
  {
    var b := s[..k];
    var rest := s[k..];
    assert s == b + rest;
    assert multiset(s) == multiset(b) + multiset(rest);
    forall x, y | x in b && y in multiset(s) - multiset(b)
      ensures key(y) <= key(x)
    {
      assert y in multiset(rest);
      var i :| 0 <= i < |b| && b[i] == x;
      var j :| 0 <= j < |rest| && rest[j] == y;
      assert s[i] == x && s[k + j] == y;
    }
  }
}
