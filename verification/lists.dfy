/** Sequence helpers the endpoints share: `xs.map(f)` and the multiset
    facts about it. */
module Lists {

  /** `xs.map(f)` */
  function Mapped<A, B>(xs: seq<A>, f: A -> B): (r: seq<B>)
    ensures |r| == |xs|
    ensures forall i :: 0 <= i < |xs| ==> r[i] == f(xs[i])
  {
    seq(|xs|, i requires 0 <= i < |xs| => f(xs[i]))
  }

  /** The lists of a list of lists, one after another. */
  function Concat<T>(xss: seq<seq<T>>): seq<T>
    decreases |xss|
  {
    if |xss| == 0 then [] else xss[0] + Concat(xss[1..])
  }

  /** Taking out the element at `j` takes one copy of it out of the multiset. */
  lemma RemoveAt<T>(ys: seq<T>, j: int)
    requires 0 <= j < |ys|
    ensures multiset(ys[..j] + ys[j + 1..]) == multiset(ys) - multiset{ys[j]}
  {
    assert ys == ys[..j] + [ys[j]] + ys[j + 1..];
  }

  /** A non-empty list has its head as a member. */
  lemma HeadIn<T>(s: seq<T>)
    requires |s| > 0
    ensures s[0] in s
  {
  }

  lemma MappedHead<A, B>(ys: seq<A>, f: A -> B)
    requires |ys| > 0
    ensures multiset(Mapped(ys, f)) == multiset(Mapped(ys[1..], f)) + multiset{f(ys[0])}
  {
    assert Mapped(ys, f) == [f(ys[0])] + Mapped(ys[1..], f);
  }

  lemma MappedRemoveAt<A, B>(ys: seq<A>, j: int, f: A -> B)
    requires 0 <= j < |ys|
    ensures multiset(Mapped(ys, f)) == multiset(Mapped(ys[..j] + ys[j + 1..], f)) + multiset{f(ys[j])}
  {
    var m := Mapped(ys, f);
    RemoveAt(m, j);
    assert m[..j] + m[j + 1..] == Mapped(ys[..j] + ys[j + 1..], f);
  }

  /** Mapping two lists with the same elements gives two lists with the same elements. */
  lemma {:induction false} MappedPerm<A, B>(xs: seq<A>, ys: seq<A>, f: A -> B)
    requires multiset(xs) == multiset(ys)
    ensures multiset(Mapped(xs, f)) == multiset(Mapped(ys, f))
    decreases |xs|
  {
    if |xs| == 0 {
      assert |ys| == |multiset(ys)| == 0;
    } else {
      var x := xs[0];
      assert x in multiset(ys) by {
        assert x in multiset(xs);
      }
      var j :| 0 <= j < |ys| && ys[j] == x;
      var xs', ys' := xs[1..], ys[..j] + ys[j + 1..];
      RemoveAt(ys, j);
      assert xs == [x] + xs';
      assert multiset(xs') == multiset(ys');
      MappedPerm(xs', ys', f);
      var rest := multiset(Mapped(xs', f));
      assert rest == multiset(Mapped(ys', f));
      MappedHead(xs, f);
      MappedRemoveAt(ys, j, f);
      assert multiset(Mapped(xs, f)) == rest + multiset{f(x)};
      assert multiset(Mapped(ys, f)) == rest + multiset{f(x)};
    }
  }

  /** An element of a permutation of `Mapped(xs, f)` is the image of some element of `xs`. */
  lemma PickSource<A, B>(xs: seq<A>, f: A -> B, ys: seq<B>, y: B) returns (x: A)
    requires multiset(ys) == multiset(Mapped(xs, f)) && y in ys
    ensures x in xs && f(x) == y
  {
    assert y in multiset(Mapped(xs, f));
    var j :| 0 <= j < |xs| && Mapped(xs, f)[j] == y;
    x := xs[j];
  }

  /** A reordering of a list whose elements have distinct keys has distinct keys. */
  lemma PermDistinct<T, K>(xs: seq<T>, ys: seq<T>, key: T -> K)
    requires multiset(ys) == multiset(xs)
    requires forall a, b :: 0 <= a < b < |xs| ==> key(xs[a]) != key(xs[b])
    ensures forall p, q :: 0 <= p < q < |ys| ==> key(ys[p]) != key(ys[q])
  {
    forall p, q | 0 <= p < q < |ys|
      ensures key(ys[p]) != key(ys[q])
    {
      var a := IndexIn(xs, ys, p);
      var b := IndexIn(xs, ys, q);
      if a == b {
        var c := OtherCopy(xs, ys, p, q, a);
        assert false;
      }
    }
  }

  /** Where in `xs` an element of its reordering `ys` sits. */
  lemma IndexIn<T>(xs: seq<T>, ys: seq<T>, p: int) returns (a: int)
    requires multiset(ys) == multiset(xs) && 0 <= p < |ys|
    ensures 0 <= a < |xs| && xs[a] == ys[p]
  {
    assert ys[p] in multiset(xs);
    a :| 0 <= a < |xs| && xs[a] == ys[p];
  }

  /** An element found twice in a reordering is found twice in the original. */
  lemma OtherCopy<T>(xs: seq<T>, ys: seq<T>, p: int, q: int, a: int) returns (c: int)
    requires multiset(ys) == multiset(xs)
    requires 0 <= p < q < |ys| && ys[p] == ys[q]
    requires 0 <= a < |xs| && xs[a] == ys[p]
    ensures 0 <= c < |xs| && c != a && xs[c] == xs[a]
  {
    assert multiset(ys)[ys[p]] >= 2 by {
      assert ys == ys[..p] + [ys[p]] + ys[p + 1..q] + [ys[q]] + ys[q + 1..];
    }
    var rest := xs[..a] + xs[a + 1..];
    RemoveAt(xs, a);
    assert xs[a] in multiset(rest);
    var d :| 0 <= d < |rest| && rest[d] == xs[a];
    c := if d < a then d else d + 1;
    assert xs[c] == rest[d];
  }
}
