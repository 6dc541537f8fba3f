/** The big-trades board of the realtime watcher: every aggregated trade
    from the futures and spot streams goes into one list, kept ranked by
    notional (largest first, later trades first among equal notionals) and
    cut to the thirty largest.

    `Array.prototype.sort` is stable, so sorting the list with the new trade
    appended is modelled as a stable insertion sort. The socket handling,
    the clock (`now`), `parseFloat` (a parameter) and the table rendering
    are outside the model. */
module TopTrades {
  import Js
  import opened Text

  /** `TOP_N` */
  const TopN: nat := 30

  datatype Market = Futures | Spot

  datatype Trade = Trade(ts: int, market: Market, symbol: Js.Value, mode: string,
                         price: real, qty: real, notional: real)

  /** The comparator `(b.notional - a.notional) || (b.ts - a.ts)` is negative:
      `a` has the larger notional, or the same notional and the later time. */
  predicate Before(a: Trade, b: Trade) {
    a.notional > b.notional || (a.notional == b.notional && a.ts > b.ts)
  }

  /** No trade sorts strictly before one that precedes it. */
  predicate Ranked(s: seq<Trade>) {
    forall i, j :: 0 <= i < j < |s| ==> !Before(s[j], s[i])
  }

  /** `item` placed after every trade it does not beat and before the first
      one it beats: the step of a stable insertion sort. */
  function Insert(arr: seq<Trade>, item: Trade): (r: seq<Trade>)
    ensures |r| == |arr| + 1
    ensures multiset(r) == multiset(arr) + multiset{item}
    ensures Ranked(arr) ==> Ranked(r)
  {
    if arr == [] then [item]
    else if Before(item, arr[0]) then
      BeatsRanked(arr, item);
      [item] + arr
    else
      var rest := Insert(arr[1..], item);
      assert arr == [arr[0]] + arr[1..];
      HeadStaysAhead(arr, item, rest);
      [arr[0]] + rest
  }

  /** A trade that beats the head of a ranked list is beaten by none of it,
      so it can go in front. */
  lemma BeatsRanked(arr: seq<Trade>, item: Trade)
    requires arr != [] && Before(item, arr[0])
    ensures Ranked(arr) ==> Ranked([item] + arr)
  {
    if Ranked(arr) {
      forall j | 0 <= j < |arr| ensures !Before(arr[j], item) {
        assert j == 0 || !Before(arr[j], arr[0]);
      }
      RankedCons(item, arr);
    }
  }

  /** The head of a ranked list stays ahead of the rest with a trade it is
      not beaten by. */
  lemma HeadStaysAhead(arr: seq<Trade>, item: Trade, rest: seq<Trade>)
    requires arr != [] && !Before(item, arr[0])
    requires multiset(rest) == multiset(arr[1..]) + multiset{item}
    requires Ranked(arr[1..]) ==> Ranked(rest)
    ensures Ranked(arr) ==> Ranked([arr[0]] + rest)
  {
    if Ranked(arr) {
      forall j | 0 <= j < |rest| ensures !Before(rest[j], arr[0]) {
        assert rest[j] in multiset(rest);
        if rest[j] != item {
          var k :| 0 <= k < |arr[1..]| && arr[1..][k] == rest[j];
          assert arr[k + 1] == rest[j];
        }
      }
      RankedTail(arr);
      RankedCons(arr[0], rest);
    }
  }

  lemma RankedCons(x: Trade, s: seq<Trade>)
    requires Ranked(s) && forall j :: 0 <= j < |s| ==> !Before(s[j], x)
    ensures Ranked([x] + s)
  {
    var r := [x] + s;
    forall i, j | 0 <= i < j < |r| ensures !Before(r[j], r[i]) {
      assert r[j] == s[j - 1];
      if i > 0 {
        assert r[i] == s[i - 1];
      }
    }
  }

  /** The stable sort: each trade inserted, in order, after its equals. */
  function Sort(xs: seq<Trade>): (r: seq<Trade>)
    ensures |r| == |xs|
    ensures multiset(r) == multiset(xs)
    ensures Ranked(r)
  {
    if xs == [] then []
    else
      assert xs == xs[..|xs| - 1] + [xs[|xs| - 1]];
      Insert(Sort(xs[..|xs| - 1]), xs[|xs| - 1])
  }

  /** `insertTop(arr, item, topN)`: push, sort, and cut to `topN`. */
  function InsertTop(arr: seq<Trade>, item: Trade, topN: nat): (r: seq<Trade>)
    ensures |r| == if |arr| + 1 <= topN then |arr| + 1 else topN
    ensures Ranked(r)
    ensures multiset(r) <= multiset(arr) + multiset{item}
  {
    var s := Sort(arr + [item]);
    if |s| > topN then
      assert s == s[..topN] + s[topN..];
      s[..topN]
    else s
  }

  /** How many trades of `arr` the new one does not beat. */
  function Ahead(arr: seq<Trade>, item: Trade): (p: nat)
    ensures p <= |arr|
  {
    if arr == [] then 0
    else (if Before(item, arr[0]) then 0 else 1) + Ahead(arr[1..], item)
  }

  lemma {:induction false} AheadNone(arr: seq<Trade>, item: Trade)
    requires forall j :: 0 <= j < |arr| ==> Before(item, arr[j])
    ensures Ahead(arr, item) == 0
  {
    if arr != [] {
      AheadNone(arr[1..], item);
    }
  }

  lemma {:induction false} AheadAll(arr: seq<Trade>, item: Trade)
    requires forall j :: 0 <= j < |arr| ==> !Before(item, arr[j])
    ensures Ahead(arr, item) == |arr|
  {
    if arr != [] {
      AheadAll(arr[1..], item);
    }
  }

  /** A trade that beats the head of a ranked list beats all of it. */
  lemma BeatsAll(arr: seq<Trade>, item: Trade)
    requires Ranked(arr) && arr != [] && Before(item, arr[0])
    ensures forall j :: 0 <= j < |arr| ==> Before(item, arr[j])
  {
    forall j | 0 <= j < |arr| ensures Before(item, arr[j]) {
      assert j == 0 || !Before(arr[j], arr[0]);
    }
  }

  /** In a ranked list the new trade goes exactly after the trades it does not beat. */
  lemma {:induction false} InsertSplits(arr: seq<Trade>, item: Trade)
    requires Ranked(arr)
    ensures var p := Ahead(arr, item);
      Insert(arr, item) == arr[..p] + [item] + arr[p..]
  {
    if arr == [] {
    } else if Before(item, arr[0]) {
      BeatsAll(arr, item);
      AheadNone(arr, item);
    } else {
      RankedTail(arr);
      InsertSplits(arr[1..], item);
      var p := Ahead(arr[1..], item);
      assert Ahead(arr, item) == p + 1;
      assert Insert(arr, item) == [arr[0]] + Insert(arr[1..], item);
      assert arr[..p + 1] == [arr[0]] + arr[1..][..p];
      assert arr[p + 1..] == arr[1..][p..];
    }
  }

  lemma RankedTail(xs: seq<Trade>)
    requires Ranked(xs) && xs != []
    ensures Ranked(xs[1..])
  {
    forall i, j | 0 <= i < j < |xs[1..]| ensures !Before(xs[1..][j], xs[1..][i]) {
      assert xs[1..][j] == xs[j + 1] && xs[1..][i] == xs[i + 1];
    }
  }

  lemma RankedPrefix(xs: seq<Trade>, k: nat)
    requires Ranked(xs) && k <= |xs|
    ensures Ranked(xs[..k])
  {
    assert forall i :: 0 <= i < k ==> xs[..k][i] == xs[i];
  }

  /** Sorting a ranked list leaves it as it is. */
  lemma {:induction false} SortOfRanked(xs: seq<Trade>)
    requires Ranked(xs)
    ensures Sort(xs) == xs
  {
    if xs != [] {
      var init := xs[..|xs| - 1];
      var last := xs[|xs| - 1];
      assert init + [last] == xs;
      RankedSplit(init, last);
      SortOfRanked(init);
      SortSnoc(init, last);
    }
  }

  /** A ranked list is its ranked front and a last trade beating none of it. */
  lemma RankedSplit(init: seq<Trade>, last: Trade)
    requires Ranked(init + [last])
    ensures Ranked(init)
    ensures forall j :: 0 <= j < |init| ==> !Before(last, init[j])
  {
    var xs := init + [last];
    RankedPrefix(xs, |init|);
    assert xs[..|init|] == init;
    forall j | 0 <= j < |init| ensures !Before(last, init[j]) {
      assert xs[j] == init[j] && xs[|init|] == last;
    }
  }

  /** A trade beating none of a sorted ranked list goes to its end. */
  lemma SortSnoc(init: seq<Trade>, last: Trade)
    requires Ranked(init) && Sort(init) == init
    requires forall j :: 0 <= j < |init| ==> !Before(last, init[j])
    ensures Sort(init + [last]) == init + [last]
  {
    var xs := init + [last];
    assert xs[..|xs| - 1] == init && xs[|xs| - 1] == last;
    InsertSplits(init, last);
    AheadAll(init, last);
    assert init[..|init|] == init && init[|init|..] == [];
  }

  /** On a ranked board (the only kind the watcher holds), the new trade
      lands right after the trades it does not beat; it survives exactly
      when fewer than `topN` of them are ahead of it, and then every trade
      ahead of it stays where it was. A short board grows by one. */
  lemma InsertTopFacts(arr: seq<Trade>, item: Trade, topN: nat)
    requires Ranked(arr)
    ensures var p := Ahead(arr, item);
      var r := InsertTop(arr, item, topN);
      && r == (arr[..p] + [item] + arr[p..])[..|r|]
      && (p < topN ==> r[p] == item && r[..p] == arr[..p])
      && (p >= topN ==> r == arr[..topN])
      && (|arr| < topN ==> |r| == |arr| + 1)
  {
    InsertTopPlaces(arr, item, topN);
    Cut(arr, item, Ahead(arr, item), topN);
  }

  lemma InsertTopPlaces(arr: seq<Trade>, item: Trade, topN: nat)
    requires Ranked(arr)
    ensures var p := Ahead(arr, item);
      var s := arr[..p] + [item] + arr[p..];
      InsertTop(arr, item, topN) == if |s| > topN then s[..topN] else s
  {
    assert (arr + [item])[..|arr|] == arr;
    SortOfRanked(arr);
    InsertSplits(arr, item);
  }

  /** The first `topN` of `arr` with `item` spliced in at `p`. */
  lemma Cut(arr: seq<Trade>, item: Trade, p: nat, topN: nat)
    requires p <= |arr|
    ensures var s := arr[..p] + [item] + arr[p..];
      var r := if |s| > topN then s[..topN] else s;
      && (p < topN ==> r[p] == item && r[..p] == arr[..p])
      && (p >= topN ==> r == arr[..topN])
  {
  }

  // ------------------------------------------------------------ messages

  /** `side = m ? "SELL" : "BUY"; mode = side === "BUY" ? "long" : "short"` */
  function Mode(m: Js.Value): (r: string)
    ensures r == "short" <==> Js.Truthy(m)
    ensures r == "long" <==> !Js.Truthy(m)
  {
    var side := if Js.Truthy(m) then "SELL" else "BUY";
    if side == "BUY" then "long" else "short"
  }

  /** The trade an aggTrade event `data` describes, stamped `now`. */
  function Received(market: Market, data: Js.Value, now: int, parseFloat: Js.Value -> real): (t: Trade)
    ensures t.ts == now && t.market == market && t.symbol == Js.Get(data, "s")
    ensures t.price == parseFloat(Js.Get(data, "p")) && t.qty == parseFloat(Js.Get(data, "q"))
    ensures t.notional == t.price * t.qty
    ensures t.mode == Mode(Js.Get(data, "m"))
  {
    var price := parseFloat(Js.Get(data, "p"));
    var qty := parseFloat(Js.Get(data, "q"));
    Trade(now, market, Js.Get(data, "s"), Mode(Js.Get(data, "m")), price, qty, price * qty)
  }

  /** One parsed stream message `{ stream, data }`: an aggTrade event goes on
      the board; anything else, and a message whose handling throws (a
      non-string stream name, missing data), leaves the board as it was. */
  function OnMessage(board: seq<Trade>, market: Market, stream: Js.Value, data: Js.Value,
                     now: int, parseFloat: Js.Value -> real): (r: seq<Trade>)
    ensures Ranked(board) && |board| <= TopN ==> Ranked(r) && |r| <= TopN
    ensures r != board ==> stream.Str? && EndsWith(stream.s, "@aggTrade") && !Js.Nullish(data)
  {
    if !(stream.Str? && EndsWith(stream.s, "@aggTrade")) || Js.Nullish(data) then board
    else InsertTop(board, Received(market, data, now, parseFloat), TopN)
  }

  /** A handled aggTrade message puts its trade on the board right after the
      trades it does not beat, unless thirty of those are already there. */
  lemma OnMessageFacts(board: seq<Trade>, market: Market, stream: string, data: Js.Value,
                       now: int, parseFloat: Js.Value -> real)
    requires Ranked(board) && EndsWith(stream, "@aggTrade") && !Js.Nullish(data)
    ensures var t := Received(market, data, now, parseFloat);
      var r := OnMessage(board, market, Js.Str(stream), data, now, parseFloat);
      && (Ahead(board, t) < TopN ==> r[Ahead(board, t)] == t)
      && (Ahead(board, t) >= TopN ==> r == board[..TopN])
  {
    InsertTopFacts(board, Received(market, data, now, parseFloat), TopN);
  }
}
