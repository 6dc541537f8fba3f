/** The two de-duplication folds every endpoint and exporter repeats.

    Records arrive paired with their key, `(key(o), o)`, in input order.

    "Newest wins": the pairs are folded, in order, into an insertion-ordered
    map (a JavaScript `Map`). A pair whose key is new is appended; one whose
    key is present replaces the stored record, in place, when it is newer
    than it. So one record survives per key, keys keep the order of their
    first appearance and, when "newer" means a strictly greater time stamp,
    the survivor is the newest record of its key and the first one seen among
    equally new ones.

    "Keep first": a `Set` of seen keys filters the list, keeping the first
    record per key, in order. */
module Merge {
  import opened Outcome

  predicate UniqueKeys<K(==), T>(table: seq<(K, T)>) {
    forall p, q :: 0 <= p < q < |table| ==> table[p].0 != table[q].0
  }

  predicate HasKey<K(==), T>(table: seq<(K, T)>, k: K) {
    exists p :: 0 <= p < |table| && table[p].0 == k
  }

  lemma HasKeyCons<K, T>(e: (K, T), rest: seq<(K, T)>, k: K)
    ensures HasKey([e] + rest, k) <==> e.0 == k || HasKey(rest, k)
  {
    var r := [e] + rest;
    if HasKey(rest, k) {
      var p :| 0 <= p < |rest| && rest[p].0 == k;
      assert r[p + 1].0 == k;
    }
    if HasKey(r, k) && e.0 != k {
      var p :| 0 <= p < |r| && r[p].0 == k;
      assert rest[p - 1].0 == k;
    }
    assert r[0] == e;
  }

  /** `map.get(k)` */
  function Find<K(==), T>(table: seq<(K, T)>, k: K): (r: Option<T>)
    ensures r.Some? <==> HasKey(table, k)
    ensures r.Some? ==> exists p :: 0 <= p < |table| && table[p] == (k, r.value)
    decreases |table|
  {
    if |table| == 0 then None
    else if table[0].0 == k then Some(table[0].1)
    else
      var rest := Find(table[1..], k);
      assert forall p :: 1 <= p < |table| ==> table[p] == table[1..][p - 1];
      assert HasKey(table, k) ==> HasKey(table[1..], k) by {
        if HasKey(table, k) {
          var p :| 0 <= p < |table| && table[p].0 == k;
          assert table[1..][p - 1].0 == k;
        }
      }
      rest
  }

  /** In a table without repeated keys, the entry found is the one at the key's position. */
  lemma FindAt<K, T>(table: seq<(K, T)>, p: int)
    requires UniqueKeys(table) && 0 <= p < |table|
    ensures Find(table, table[p].0) == Some(table[p].1)
  {
    var f := Find(table, table[p].0);
    var q :| 0 <= q < |table| && table[q] == (table[p].0, f.value);
    assert q == p;
  }

  /** `map.set(k, o)` on a present key: the value changes, the position does not. */
  function Put<K(==), T>(table: seq<(K, T)>, k: K, o: T): (r: seq<(K, T)>)
    ensures |r| == |table|
    ensures forall p :: 0 <= p < |table| ==> r[p] == (if table[p].0 == k then (k, o) else table[p])
  {
    seq(|table|, p requires 0 <= p < |table| => if table[p].0 == k then (k, o) else table[p])
  }

  /** One step of the `for (const o of all)` loop. */
  function Upsert<K(==), T>(table: seq<(K, T)>, k: K, o: T, newer: (T, T) -> bool): seq<(K, T)> {
    match Find(table, k)
    case None => table + [(k, o)]
    case Some(prev) => if newer(o, prev) then Put(table, k, o) else table
  }

  /** A step keeps keys unique and in place, and either appends the new pair
      (its key was absent), overwrites the record of its key, or does nothing. */
  lemma UpsertFacts<K, T>(table: seq<(K, T)>, k: K, o: T, newer: (T, T) -> bool)
    ensures var r := Upsert(table, k, o, newer);
      && |table| <= |r| <= |table| + 1
      && (|r| == |table| + 1 <==> !HasKey(table, k))
      && (UniqueKeys(table) ==> UniqueKeys(r))
      && HasKey(r, k)
      && (forall p :: 0 <= p < |table| ==> r[p].0 == table[p].0)
      && (forall q :: 0 <= q < |r| ==> r[q] == (k, o) || (q < |table| && r[q] == table[q]))
  {
    var r := Upsert(table, k, o, newer);
    match Find(table, k)
    case None =>
      assert r[|table|].0 == k;
    case Some(prev) =>
      var p :| 0 <= p < |table| && table[p] == (k, prev);
      assert r[p].0 == k;
  }

  /** The whole fold, over the pairs in order. */
  function Merge<K(==), T>(items: seq<(K, T)>, newer: (T, T) -> bool): seq<(K, T)>
    decreases |items|
  {
    if |items| == 0 then []
    else Upsert(Merge(items[..|items| - 1], newer), items[|items| - 1].0, items[|items| - 1].1, newer)
  }

  /** One entry per key, every key of the input present, and every entry one of the input pairs. */
  lemma MergeFacts<K, T>(items: seq<(K, T)>, newer: (T, T) -> bool)
    ensures UniqueKeys(Merge(items, newer))
    ensures forall p :: 0 <= p < |Merge(items, newer)| ==> exists i :: 0 <= i < |items| && items[i] == Merge(items, newer)[p]
    ensures forall i :: 0 <= i < |items| ==> HasKey(Merge(items, newer), items[i].0)
  {
    MergeUnique(items, newer);
    MergeFromInput(items, newer);
    MergeCovers(items, newer);
  }

  lemma {:induction false} MergeUnique<K, T>(items: seq<(K, T)>, newer: (T, T) -> bool)
    ensures UniqueKeys(Merge(items, newer))
    decreases |items|
  {
    if |items| > 0 {
      var n := |items| - 1;
      MergeUnique(items[..n], newer);
      UpsertFacts(Merge(items[..n], newer), items[n].0, items[n].1, newer);
    }
  }

  lemma {:induction false} MergeFromInput<K, T>(items: seq<(K, T)>, newer: (T, T) -> bool)
    ensures forall p :: 0 <= p < |Merge(items, newer)| ==> exists i :: 0 <= i < |items| && items[i] == Merge(items, newer)[p]
    decreases |items|
  {
    if |items| > 0 {
      var n := |items| - 1;
      var init := items[..n];
      var t := Merge(init, newer);
      var r := Merge(items, newer);
      MergeFromInput(init, newer);
      UpsertFacts(t, items[n].0, items[n].1, newer);
      forall p | 0 <= p < |r| ensures exists i :: 0 <= i < |items| && items[i] == r[p] {
        if r[p] != items[n] {
          var i :| 0 <= i < n && init[i] == t[p];
          assert items[i] == init[i];
        } else {
          assert items[n] == r[p];
        }
      }
    } else {
      assert Merge(items, newer) == [];
    }
  }

  lemma {:induction false} MergeCovers<K, T>(items: seq<(K, T)>, newer: (T, T) -> bool)
    ensures forall i :: 0 <= i < |items| ==> HasKey(Merge(items, newer), items[i].0)
    decreases |items|
  {
    if |items| > 0 {
      var n := |items| - 1;
      var init := items[..n];
      var t := Merge(init, newer);
      var r := Merge(items, newer);
      MergeCovers(init, newer);
      UpsertFacts(t, items[n].0, items[n].1, newer);
      forall i | 0 <= i < n ensures HasKey(r, items[i].0) {
        assert items[i] == init[i];
        assert HasKey(t, init[i].0);
        var p :| 0 <= p < |t| && t[p].0 == init[i].0;
        assert r[p].0 == items[i].0;
      }
    }
  }

  /** Every value the fold keeps is the value of one of its input pairs. */
  lemma ValuesFromInput<K, T>(items: seq<(K, T)>, newer: (T, T) -> bool)
    ensures forall x :: x in Values(Merge(items, newer)) ==> exists i :: 0 <= i < |items| && items[i].1 == x
  {
    var t := Merge(items, newer);
    MergeFacts(items, newer);
    forall x | x in Values(t)
      ensures exists i :: 0 <= i < |items| && items[i].1 == x
    {
      var p :| 0 <= p < |t| && Values(t)[p] == x;
      var i :| 0 <= i < |items| && items[i] == t[p];
    }
  }

  /** `Array.from(map.values())` */
  function Values<K, T>(table: seq<(K, T)>): (r: seq<T>)
    ensures |r| == |table|
    ensures forall p :: 0 <= p < |table| ==> r[p] == table[p].1
  {
    seq(|table|, p requires 0 <= p < |table| => table[p].1)
  }

  /** After `map.set(k, o)`, `k` finds `o` when it was present, and every other key what it found before. */
  lemma {:induction false} FindPut<K, T>(table: seq<(K, T)>, k: K, o: T, k': K)
    ensures Find(Put(table, k, o), k') == if k' == k && HasKey(table, k) then Some(o) else Find(table, k')
    decreases |table|
  {
    if |table| > 0 {
      var r := Put(table, k, o);
      assert r[1..] == Put(table[1..], k, o);
      FindPut(table[1..], k, o, k');
      assert table[0].0 != k ==> Find(table, k) == Find(table[1..], k);
    }
  }

  /** After appending a pair whose key was absent, that key finds it and every other key what it found before. */
  lemma {:induction false} FindSnoc<K, T>(table: seq<(K, T)>, k: K, o: T, k': K)
    requires !HasKey(table, k)
    ensures Find(table + [(k, o)], k') == if k' == k then Some(o) else Find(table, k')
    decreases |table|
  {
    if |table| > 0 {
      assert (table + [(k, o)])[1..] == table[1..] + [(k, o)];
      assert table[0].0 != k;
      FindSnoc(table[1..], k, o, k');
    }
  }

  // ------------------------------------------------------------ newest wins

  /** On the records at hand, "newer" is "has a strictly greater stamp". */
  ghost predicate RankedBy<K, T>(items: seq<(K, T)>, newer: (T, T) -> bool, stamp: T -> real) {
    forall i, j :: 0 <= i < |items| && 0 <= j < |items| ==>
      (newer(items[i].1, items[j].1) <==> stamp(items[i].1) > stamp(items[j].1))
  }

  /** `items[i]` has the greatest stamp of its key, and every earlier record
      of that key has a strictly smaller one. */
  ghost predicate Winner<K, T>(items: seq<(K, T)>, stamp: T -> real, i: int) {
    && 0 <= i < |items|
    && (forall j :: 0 <= j < i && items[j].0 == items[i].0 ==> stamp(items[j].1) < stamp(items[i].1))
    && (forall j :: i < j < |items| && items[j].0 == items[i].0 ==> stamp(items[j].1) <= stamp(items[i].1))
  }

  /** Every entry of the table is a winner of its key. */
  ghost predicate AllWinners<K, T>(items: seq<(K, T)>, stamp: T -> real, table: seq<(K, T)>) {
    forall p :: 0 <= p < |table| ==> exists i :: Winner(items, stamp, i) && items[i] == table[p]
  }

  /** The survivor of every key is the newest record of that key, first-seen on ties. */
  lemma {:induction false} NewestWins<K, T>(items: seq<(K, T)>, newer: (T, T) -> bool, stamp: T -> real)
    requires RankedBy(items, newer, stamp)
    ensures AllWinners(items, stamp, Merge(items, newer))
    decreases |items|
  {
    if |items| > 0 {
      var n := |items| - 1;
      var init := items[..n];
      assert RankedBy(init, newer, stamp) by {
        assert forall i :: 0 <= i < n ==> init[i] == items[i];
      }
      NewestWins(init, newer, stamp);
      WinnersStep(items, newer, stamp);
    }
  }

  /** The induction step of `NewestWins`, for the last pair. */
  lemma WinnersStep<K, T>(items: seq<(K, T)>, newer: (T, T) -> bool, stamp: T -> real)
    requires |items| > 0 && RankedBy(items, newer, stamp)
    requires AllWinners(items[..|items| - 1], stamp, Merge(items[..|items| - 1], newer))
    ensures AllWinners(items, stamp, Merge(items, newer))
  {
    var r := Merge(items, newer);
    forall p | 0 <= p < |r|
      ensures exists i :: Winner(items, stamp, i) && items[i] == r[p]
    {
      var w := WinnerAt(items, newer, stamp, p);
      assert Winner(items, stamp, w) && items[w] == r[p];
    }
  }

  /** Entry `p` of the table after one more step is a winner: either it was
      kept from before, or it is the pair just merged in. */
  lemma WinnerAt<K, T>(items: seq<(K, T)>, newer: (T, T) -> bool, stamp: T -> real, p: int) returns (w: int)
    requires |items| > 0 && RankedBy(items, newer, stamp)
    requires AllWinners(items[..|items| - 1], stamp, Merge(items[..|items| - 1], newer))
    requires 0 <= p < |Merge(items, newer)|
    ensures Winner(items, stamp, w) && items[w] == Merge(items, newer)[p]
  {
    var t := Merge(items[..|items| - 1], newer);
    var r := Merge(items, newer);
    MergeGrows(items, newer);
    if p < |t| && r[p] == t[p] {
      w := KeptWins(items, newer, stamp, p);
    } else {
      w := LastWins(items, newer, stamp, p);
    }
  }

  /** A step never shrinks the table. */
  lemma MergeGrows<K, T>(items: seq<(K, T)>, newer: (T, T) -> bool)
    requires |items| > 0
    ensures |Merge(items[..|items| - 1], newer)| <= |Merge(items, newer)|
  {
    var n := |items| - 1;
    UpsertFacts(Merge(items[..n], newer), items[n].0, items[n].1, newer);
  }


  /** An entry the last step left alone is still a winner. */
  lemma KeptWins<K, T>(items: seq<(K, T)>, newer: (T, T) -> bool, stamp: T -> real, p: int) returns (w: int)
    requires |items| > 0 && RankedBy(items, newer, stamp)
    requires AllWinners(items[..|items| - 1], stamp, Merge(items[..|items| - 1], newer))
    requires 0 <= p < |Merge(items[..|items| - 1], newer)| <= |Merge(items, newer)|
    requires Merge(items, newer)[p] == Merge(items[..|items| - 1], newer)[p]
    ensures Winner(items, stamp, w) && items[w] == Merge(items, newer)[p]
  {
    var n := |items| - 1;
    var init := items[..n];
    var x := items[n];
    var t := Merge(init, newer);
    var i :| Winner(init, stamp, i) && init[i] == t[p];
    assert items[i] == init[i];
    if t[p].0 == x.0 {
      MergeFacts(init, newer);
      FindAt(t, p);
      // the stored record stayed, so the new one was not newer
      assert !newer(x.1, t[p].1);
    }
    WinnerExtends(items, stamp, i);
    w := i;
  }

  /** A newly stored last record is a winner: nothing before it with its key is as new. */
  lemma LastWins<K, T>(items: seq<(K, T)>, newer: (T, T) -> bool, stamp: T -> real, p: int) returns (w: int)
    requires |items| > 0 && RankedBy(items, newer, stamp)
    requires AllWinners(items[..|items| - 1], stamp, Merge(items[..|items| - 1], newer))
    requires 0 <= p < |Merge(items, newer)|
    requires p >= |Merge(items[..|items| - 1], newer)| || Merge(items, newer)[p] != Merge(items[..|items| - 1], newer)[p]
    ensures Winner(items, stamp, w) && items[w] == Merge(items, newer)[p]
  {
    var n := |items| - 1;
    w := n;
    var init := items[..n];
    var x := items[n];
    var t := Merge(init, newer);
    MergeFacts(init, newer);
    UpsertFacts(t, x.0, x.1, newer);
    assert Merge(items, newer)[p] == x;
    match Find(t, x.0)
    case None =>
      forall j | 0 <= j < n ensures items[j].0 != x.0 {
        assert init[j] == items[j];
        assert HasKey(t, init[j].0);
      }
      FreshWins(items, stamp);
    case Some(prev) =>
      var q :| 0 <= q < |t| && t[q] == (x.0, prev);
      var iv :| Winner(init, stamp, iv) && init[iv] == t[q];
      assert newer(x.1, prev);
      assert items[iv] == init[iv];
      assert newer(items[n].1, items[iv].1);
      ReplaceWins(items, stamp, iv);
  }

  lemma FreshWins<K, T>(items: seq<(K, T)>, stamp: T -> real)
    requires |items| > 0
    requires forall j :: 0 <= j < |items| - 1 ==> items[j].0 != items[|items| - 1].0
    ensures Winner(items, stamp, |items| - 1)
  {
  }

  lemma ReplaceWins<K, T>(items: seq<(K, T)>, stamp: T -> real, iv: int)
    requires |items| > 0 && Winner(items[..|items| - 1], stamp, iv)
    requires items[iv].0 == items[|items| - 1].0 && stamp(items[iv].1) < stamp(items[|items| - 1].1)
    ensures Winner(items, stamp, |items| - 1)
  {
    var n := |items| - 1;
    var init := items[..n];
    assert forall j :: 0 <= j < n ==> init[j] == items[j];
  }

  /** A winner of a prefix stays a winner when the next record has another
      key or is not newer. */
  lemma WinnerExtends<K, T>(items: seq<(K, T)>, stamp: T -> real, i: int)
    requires |items| > 0 && Winner(items[..|items| - 1], stamp, i)
    requires items[|items| - 1].0 != items[i].0 || stamp(items[|items| - 1].1) <= stamp(items[i].1)
    ensures Winner(items, stamp, i)
  {
    var init := items[..|items| - 1];
    assert forall j :: 0 <= j < |init| ==> items[j] == init[j];
  }

  /** Folding more records into an existing table, front to back. */
  function MergeInto<K(==), T>(table: seq<(K, T)>, more: seq<(K, T)>, newer: (T, T) -> bool): seq<(K, T)>
    decreases |more|
  {
    if |more| == 0 then table else MergeInto(Upsert(table, more[0].0, more[0].1, newer), more[1..], newer)
  }

  /** The fold over a concatenation is the fold over the second part
      continued from the fold over the first. */
  lemma {:induction false} MergeAppend<K, T>(items: seq<(K, T)>, more: seq<(K, T)>, newer: (T, T) -> bool)
    ensures Merge(items + more, newer) == MergeInto(Merge(items, newer), more, newer)
    decreases |more|
  {
    if |more| == 0 {
      assert items + more == items;
    } else {
      var last := more[|more| - 1];
      var front := more[..|more| - 1];
      assert (items + more)[..|items + more| - 1] == items + front;
      assert (items + more)[|items + more| - 1] == last;
      MergeAppend(items, front, newer);
      MergeIntoSnoc(Merge(items, newer), front, last, newer);
      assert front + [last] == more;
    }
  }

  lemma {:induction false} MergeIntoSnoc<K, T>(table: seq<(K, T)>, more: seq<(K, T)>, y: (K, T), newer: (T, T) -> bool)
    ensures MergeInto(table, more + [y], newer) == Upsert(MergeInto(table, more, newer), y.0, y.1, newer)
    decreases |more|
  {
    if |more| == 0 {
      assert more + [y] == [y];
      assert [y][1..] == [];
    } else {
      assert (more + [y])[0] == more[0];
      assert (more + [y])[1..] == more[1..] + [y];
      MergeIntoSnoc(Upsert(table, more[0].0, more[0].1, newer), more[1..], y, newer);
    }
  }

  /** Folding records that are already in the table changes nothing, so the
      same page fetched twice, or a list concatenated with itself, merges to
      the same result. */
  lemma {:induction false} MergeAgain<K, T>(items: seq<(K, T)>, more: seq<(K, T)>, newer: (T, T) -> bool, stamp: T -> real)
    requires RankedBy(items, newer, stamp)
    requires forall m :: 0 <= m < |more| ==> exists i :: 0 <= i < |items| && items[i] == more[m]
    ensures MergeInto(Merge(items, newer), more, newer) == Merge(items, newer)
    decreases |more|
  {
    if |more| > 0 {
      var y := more[0];
      var iy :| 0 <= iy < |items| && items[iy] == y;
      MergedNotOlder(items, newer, stamp, iy);
      assert Upsert(Merge(items, newer), y.0, y.1, newer) == Merge(items, newer);
      assert forall m :: 0 <= m < |more| - 1 ==> more[1..][m] == more[m + 1];
      MergeAgain(items, more[1..], newer, stamp);
    }
  }

  /** No input record is newer than the survivor of its key. */
  lemma MergedNotOlder<K, T>(items: seq<(K, T)>, newer: (T, T) -> bool, stamp: T -> real, iy: int)
    requires RankedBy(items, newer, stamp) && 0 <= iy < |items|
    ensures Find(Merge(items, newer), items[iy].0).Some?
    ensures !newer(items[iy].1, Find(Merge(items, newer), items[iy].0).value)
  {
    var t := Merge(items, newer);
    var i := SurvivorOf(items, newer, stamp, iy);
    assert stamp(items[iy].1) <= stamp(items[i].1) by {
      WinnerNotOlder(items, stamp, i, iy);
    }
  }

  /** The input position of the record that survives for the key of `items[iy]`. */
  lemma SurvivorOf<K, T>(items: seq<(K, T)>, newer: (T, T) -> bool, stamp: T -> real, iy: int) returns (i: int)
    requires RankedBy(items, newer, stamp) && 0 <= iy < |items|
    ensures Winner(items, stamp, i) && items[i].0 == items[iy].0
    ensures Find(Merge(items, newer), items[iy].0) == Some(items[i].1)
  {
    var t := Merge(items, newer);
    MergeFacts(items, newer);
    NewestWins(items, newer, stamp);
    var p :| 0 <= p < |t| && t[p].0 == items[iy].0;
    var tp := t[p];
    i :| Winner(items, stamp, i) && items[i] == tp;
    FindAt(t, p);
  }

  lemma WinnerNotOlder<K, T>(items: seq<(K, T)>, stamp: T -> real, i: int, j: int)
    requires Winner(items, stamp, i) && 0 <= j < |items| && items[j].0 == items[i].0
    ensures stamp(items[j].1) <= stamp(items[i].1)
  {
  }

  /** Some record of `d` has key `k`. */
  ghost predicate KeyIn<K, T>(d: seq<T>, key: T -> K, k: K) {
    exists p :: 0 <= p < |d| && key(d[p]) == k
  }

  /** `x` is the record of a winning pair of `items`, paired with `all`. */
  ghost predicate WinningRecord<K, T>(items: seq<(K, T)>, stamp: T -> real, all: seq<T>, x: T) {
    exists i :: 0 <= i < |all| && Winner(items, stamp, i) && all[i] == x
  }

  /** For records paired with their key, `(key(o), o)`, the merged values
      hold one record per key, every key of the input, and for each key the
      newest record, first-seen among equally new ones. */
  lemma ValuesFacts<K, T>(all: seq<T>, key: T -> K, newer: (T, T) -> bool, stamp: T -> real, items: seq<(K, T)>)
    requires |items| == |all| && forall i :: 0 <= i < |all| ==> items[i] == (key(all[i]), all[i])
    requires RankedBy(items, newer, stamp)
    ensures var d := Values(Merge(items, newer));
      && (forall p, q :: 0 <= p < q < |d| ==> key(d[p]) != key(d[q]))
      && (forall i :: 0 <= i < |all| ==> KeyIn(d, key, key(all[i])))
      && (forall p :: 0 <= p < |d| ==> WinningRecord(items, stamp, all, d[p]))
  {
    var t := Merge(items, newer);
    KeyedValuesFacts(all, key, newer, items);
    NewestWins(items, newer, stamp);
    TableWinners(all, stamp, items, t, Values(t));
  }

  /** The part of `ValuesFacts` that holds for any `newer`: one record per
      key, every key of the input, and only records of the input. */
  lemma KeyedValuesFacts<K, T>(all: seq<T>, key: T -> K, newer: (T, T) -> bool, items: seq<(K, T)>)
    requires |items| == |all| && forall i :: 0 <= i < |all| ==> items[i] == (key(all[i]), all[i])
    ensures var d := Values(Merge(items, newer));
      && (forall p, q :: 0 <= p < q < |d| ==> key(d[p]) != key(d[q]))
      && (forall i :: 0 <= i < |all| ==> KeyIn(d, key, key(all[i])))
      && (forall p :: 0 <= p < |d| ==> d[p] in all)
  {
    var t := Merge(items, newer);
    MergeFacts(items, newer);
    TableKeys(all, key, items, t);
    TableCovers(all, key, items, t, Values(t));
  }

  /** Every entry of a table built from `(key(o), o)` pairs is keyed by its own record. */
  lemma TableKeys<K, T>(all: seq<T>, key: T -> K, items: seq<(K, T)>, t: seq<(K, T)>)
    requires |items| == |all| && forall i :: 0 <= i < |all| ==> items[i] == (key(all[i]), all[i])
    requires forall p :: 0 <= p < |t| ==> exists i :: 0 <= i < |items| && items[i] == t[p]
    ensures forall p :: 0 <= p < |t| ==> key(t[p].1) == t[p].0 && t[p].1 in all
  {
    forall p | 0 <= p < |t|
      ensures key(t[p].1) == t[p].0 && t[p].1 in all
    {
      var i :| 0 <= i < |items| && items[i] == t[p];
      assert all[i] == t[p].1;
    }
  }

  lemma TableCovers<K, T>(all: seq<T>, key: T -> K, items: seq<(K, T)>, t: seq<(K, T)>, d: seq<T>)
    requires |items| == |all| && forall i :: 0 <= i < |all| ==> items[i] == (key(all[i]), all[i])
    requires |d| == |t| && forall p :: 0 <= p < |t| ==> d[p] == t[p].1
    requires forall i :: 0 <= i < |items| ==> HasKey(t, items[i].0)
    requires forall p :: 0 <= p < |t| ==> key(t[p].1) == t[p].0
    ensures forall i :: 0 <= i < |all| ==> KeyIn(d, key, key(all[i]))
  {
    forall i | 0 <= i < |all|
      ensures KeyIn(d, key, key(all[i]))
    {
      assert HasKey(t, items[i].0);
      var p :| 0 <= p < |t| && t[p].0 == items[i].0;
      assert key(d[p]) == key(all[i]);
    }
  }

  lemma TableWinners<K, T>(all: seq<T>, stamp: T -> real, items: seq<(K, T)>, t: seq<(K, T)>, d: seq<T>)
    requires |items| == |all| && forall i :: 0 <= i < |all| ==> items[i].1 == all[i]
    requires |d| == |t| && forall p :: 0 <= p < |t| ==> d[p] == t[p].1
    requires AllWinners(items, stamp, t)
    ensures forall p :: 0 <= p < |d| ==> WinningRecord(items, stamp, all, d[p])
  {
    forall p | 0 <= p < |d|
      ensures WinningRecord(items, stamp, all, d[p])
    {
      assert 0 <= p < |t|;
      var tp := t[p];
      assert exists i :: Winner(items, stamp, i) && items[i] == tp;
      var i :| Winner(items, stamp, i) && items[i] == t[p];
      assert 0 <= i < |all|;
      assert all[i] == d[p];
    }
  }

  // ------------------------------------------------------------ keep first

  /** `a` keeps some of the elements of `b`, in order. */
  predicate IsSubsequence<T(==)>(a: seq<T>, b: seq<T>)
    decreases |b|
  {
    if |a| == 0 then true
    else if |b| == 0 then false
    else (a[0] == b[0] && IsSubsequence(a[1..], b[1..])) || IsSubsequence(a, b[1..])
  }

  /** `items.filter(t => seen.has(k) ? false : (seen.add(k), true))`, starting
      from the keys already in `seen`. */
  function DistinctFrom<K(==), T>(items: seq<(K, T)>, seen: set<K>): seq<(K, T)>
    decreases |items|
  {
    if |items| == 0 then []
    else if items[0].0 in seen then DistinctFrom(items[1..], seen)
    else [items[0]] + DistinctFrom(items[1..], seen + {items[0].0})
  }

  /** What survives has distinct keys outside `seen`, covers every other key
      of the input, keeps input order, and is the first pair of its key. */
  lemma DistinctFacts<K, T>(items: seq<(K, T)>, seen: set<K>)
    ensures var r := DistinctFrom(items, seen);
      && UniqueKeys(r)
      && (forall p :: 0 <= p < |r| ==> r[p].0 !in seen)
      && (forall i :: 0 <= i < |items| && items[i].0 !in seen ==> HasKey(r, items[i].0))
      && (forall p :: 0 <= p < |r| ==> Find(items, r[p].0) == Some(r[p].1))
      && IsSubsequence(r, items)
  {
    DistinctUnseen(items, seen);
    DistinctCovers(items, seen);
    DistinctFirst(items, seen);
    DistinctOrder(items, seen);
  }

  lemma {:induction false} DistinctUnseen<K, T>(items: seq<(K, T)>, seen: set<K>)
    ensures var r := DistinctFrom(items, seen);
      UniqueKeys(r) && forall p :: 0 <= p < |r| ==> r[p].0 !in seen
    decreases |items|
  {
    if |items| > 0 {
      var x := items[0];
      var tail := items[1..];
      if x.0 in seen {
        DistinctUnseen(tail, seen);
      } else {
        var rest := DistinctFrom(tail, seen + {x.0});
        DistinctUnseen(tail, seen + {x.0});
        var r := [x] + rest;
        assert DistinctFrom(items, seen) == r;
        forall p, q | 0 <= p < q < |r| ensures r[p].0 != r[q].0 {
          assert r[q] == rest[q - 1];
          if p > 0 {
            assert r[p] == rest[p - 1];
          }
        }
        forall p | 0 <= p < |r| ensures r[p].0 !in seen {
          if p > 0 {
            assert r[p] == rest[p - 1];
          }
        }
      }
    }
  }

  lemma {:induction false} DistinctCovers<K, T>(items: seq<(K, T)>, seen: set<K>)
    ensures var r := DistinctFrom(items, seen);
      forall i :: 0 <= i < |items| && items[i].0 !in seen ==> HasKey(r, items[i].0)
    decreases |items|
  {
    if |items| > 0 {
      var x := items[0];
      var tail := items[1..];
      assert items == [x] + tail;
      if x.0 in seen {
        DistinctCovers(tail, seen);
        KeysShift(x, tail, DistinctFrom(tail, seen), seen, seen);
      } else {
        var rest := DistinctFrom(tail, seen + {x.0});
        DistinctCovers(tail, seen + {x.0});
        var r := [x] + rest;
        assert DistinctFrom(items, seen) == r;
        forall i | 0 <= i < |items| && items[i].0 !in seen ensures HasKey(r, items[i].0) {
          if items[i].0 == x.0 {
            assert r[0].0 == x.0;
          } else {
            assert items[i] == tail[i - 1];
            var p :| 0 <= p < |rest| && rest[p].0 == items[i].0;
            assert r[p + 1].0 == items[i].0;
          }
        }
      }
    }
  }

  lemma {:induction false} DistinctFirst<K, T>(items: seq<(K, T)>, seen: set<K>)
    ensures var r := DistinctFrom(items, seen);
      forall p :: 0 <= p < |r| ==> Find(items, r[p].0) == Some(r[p].1)
    decreases |items|
  {
    if |items| > 0 {
      var x := items[0];
      var tail := items[1..];
      assert items == [x] + tail;
      if x.0 in seen {
        DistinctFirst(tail, seen);
        DistinctUnseen(tail, seen);
        FindShift(x, tail, DistinctFrom(tail, seen));
      } else {
        var rest := DistinctFrom(tail, seen + {x.0});
        DistinctFirst(tail, seen + {x.0});
        DistinctUnseen(tail, seen + {x.0});
        FindShift(x, tail, rest);
        var r := [x] + rest;
        assert DistinctFrom(items, seen) == r;
        forall p | 0 <= p < |r| ensures Find(items, r[p].0) == Some(r[p].1) {
          if p > 0 {
            assert r[p] == rest[p - 1];
          } else {
            assert items[0] == x;
          }
        }
      }
    }
  }

  lemma {:induction false} DistinctOrder<K, T>(items: seq<(K, T)>, seen: set<K>)
    ensures IsSubsequence(DistinctFrom(items, seen), items)
    decreases |items|
  {
    if |items| > 0 {
      var x := items[0];
      var tail := items[1..];
      if x.0 in seen {
        DistinctOrder(tail, seen);
        assert DistinctFrom(items, seen) == DistinctFrom(tail, seen);
      } else {
        var rest := DistinctFrom(tail, seen + {x.0});
        DistinctOrder(tail, seen + {x.0});
        var r := [x] + rest;
        assert DistinctFrom(items, seen) == r;
        assert r[0] == items[0] && r[1..] == rest;
      }
    }
  }


  /** Keys of the tail not in `seen2 ⊇ seen` are covered by `r`: restated for the whole list. */
  lemma KeysShift<K, T>(x: (K, T), tail: seq<(K, T)>, r: seq<(K, T)>, seen: set<K>, seen2: set<K>)
    requires seen2 == seen || seen2 == seen + {x.0}
    requires forall i :: 0 <= i < |tail| && tail[i].0 !in seen2 ==> HasKey(r, tail[i].0)
    ensures forall i :: 1 <= i < |[x] + tail| && ([x] + tail)[i].0 !in seen2 ==> HasKey(r, ([x] + tail)[i].0)
  {
    forall i | 1 <= i < |[x] + tail| && ([x] + tail)[i].0 !in seen2 ensures HasKey(r, ([x] + tail)[i].0) {
      assert ([x] + tail)[i] == tail[i - 1];
    }
  }

  /** Looking up a key other than the head's skips the head. */
  lemma FindShift<K, T>(x: (K, T), tail: seq<(K, T)>, r: seq<(K, T)>)
    requires forall p :: 0 <= p < |r| ==> r[p].0 != x.0
    requires forall p :: 0 <= p < |r| ==> Find(tail, r[p].0) == Some(r[p].1)
    ensures forall p :: 0 <= p < |r| ==> Find([x] + tail, r[p].0) == Some(r[p].1)
  {
    assert ([x] + tail)[1..] == tail;
  }

  /** `[...new Set(xs)]` and the trader filters: the first pair per key, in order. */
  function DistinctBy<K(==), T>(items: seq<(K, T)>): seq<(K, T)> {
    DistinctFrom(items, {})
  }

  /** Keep-first de-duplication of a list that has no repeated key is the identity. */
  lemma {:induction false} DistinctOfDistinct<K, T>(items: seq<(K, T)>, seen: set<K>)
    requires UniqueKeys(items)
    requires forall p :: 0 <= p < |items| ==> items[p].0 !in seen
    ensures DistinctFrom(items, seen) == items
    decreases |items|
  {
    if |items| > 0 {
      var tail := items[1..];
      assert forall i :: 1 <= i < |items| ==> items[i] == tail[i - 1];
      assert forall p :: 0 <= p < |tail| ==> tail[p].0 != items[0].0 by {
        forall p | 0 <= p < |tail| ensures tail[p].0 != items[0].0 {
          assert items[p + 1] == tail[p];
        }
      }
      DistinctOfDistinct(tail, seen + {items[0].0});
      assert [items[0]] + tail == items;
    }
  }

  /** The keys of a table, in order. */
  function Keys<K, T>(table: seq<(K, T)>): (r: seq<K>)
    ensures |r| == |table|
    ensures forall p :: 0 <= p < |table| ==> r[p] == table[p].0
  {
    seq(|table|, p requires 0 <= p < |table| => table[p].0)
  }

  /** `[...new Set(xs)]`: keep-first de-duplication keyed by the element itself. */
  function Unique<T(==)>(xs: seq<T>): seq<T> {
    Keys(DistinctBy(seq(|xs|, i requires 0 <= i < |xs| => (xs[i], xs[i]))))
  }

  /** `[...new Set(xs)]` has no repeats, the same elements as `xs`, keeps
      their first-seen order, and leaves a repeat-free list unchanged. */
  lemma UniqueFacts<T>(xs: seq<T>)
    ensures var r := Unique(xs);
      && (forall p, q :: 0 <= p < q < |r| ==> r[p] != r[q])
      && (forall x :: x in r <==> x in xs)
      && IsSubsequence(r, xs)
      && ((forall i, j :: 0 <= i < j < |xs| ==> xs[i] != xs[j]) ==> r == xs)
  {
    var pairs := seq(|xs|, i requires 0 <= i < |xs| => (xs[i], xs[i]));
    var d := DistinctFrom(pairs, {});
    var r := Unique(xs);
    DistinctFacts(pairs, {});
    assert Keys(pairs) == xs;
    forall x | x in xs ensures x in r {
      var i :| 0 <= i < |xs| && xs[i] == x;
      assert HasKey(d, pairs[i].0);
      var p :| 0 <= p < |d| && d[p].0 == x;
      assert r[p] == x;
    }
    forall x | x in r ensures x in xs {
      var p :| 0 <= p < |r| && r[p] == x;
      var dp := d[p];
      assert Find(pairs, dp.0) == Some(dp.1);
    }
    SubsequenceKeys(d, pairs);
    if forall i, j :: 0 <= i < j < |xs| ==> xs[i] != xs[j] {
      assert UniqueKeys(pairs);
      DistinctOfDistinct(pairs, {});
    }
  }

  lemma {:induction false} SubsequenceKeys<K, T>(a: seq<(K, T)>, b: seq<(K, T)>)
    requires IsSubsequence(a, b)
    ensures IsSubsequence(Keys(a), Keys(b))
    decreases |b|
  {
    if |a| > 0 && |b| > 0 {
      assert Keys(a)[1..] == Keys(a[1..]);
      assert Keys(b)[1..] == Keys(b[1..]);
      if a[0] == b[0] && IsSubsequence(a[1..], b[1..]) {
        SubsequenceKeys(a[1..], b[1..]);
      } else {
        SubsequenceKeys(a, b[1..]);
      }
    }
  }
}
