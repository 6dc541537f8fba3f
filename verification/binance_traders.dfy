/** `fetchPortfolioIds` of the two Binance exporters: the leaderboard
    rankings are flattened, every listed trader is reduced to its portfolio
    id, nickname and uid, traders without a portfolio id are dropped, and
    the first trader of every portfolio id is kept, in order. The open-entry
    exporter then keeps only the first `TRADER_LIMIT`. A ranking whose
    request failed is `null`. */
module BinanceTraders {
  import opened Outcome
  import Js
  import Merge

  datatype Trader = Trader(portfolioId: Js.Value, nickname: Js.Value, uid: Js.Value, roi: Js.Value, copyCount: Js.Value)

  /** `t?.a || t?.b || ...` over a list of property names, the last one without a fallback. */
  function FirstTruthy(t: Js.Value, keys: seq<string>, last: Js.Value): Js.Value
    decreases |keys|
  {
    if |keys| == 0 then last else Js.Or(Js.Get(t, keys[0]), FirstTruthy(t, keys[1..], last))
  }

  /** `a ?? b ?? ...` over a list of property names. */
  function FirstPresent(t: Js.Value, keys: seq<string>, last: Js.Value): Js.Value
    decreases |keys|
  {
    if |keys| == 0 then last else Js.Coalesce(Js.Get(t, keys[0]), FirstPresent(t, keys[1..], last))
  }

  /** The `?? `-chain picks the first listed property that is present (neither `null` nor `undefined`). */
  lemma {:induction false} FirstPresentPicks(t: Js.Value, keys: seq<string>, last: Js.Value, i: int)
    requires 0 <= i < |keys| && !Js.Nullish(Js.Get(t, keys[i]))
    requires forall j :: 0 <= j < i ==> Js.Nullish(Js.Get(t, keys[j]))
    ensures FirstPresent(t, keys, last) == Js.Get(t, keys[i])
    decreases i
  {
    if i > 0 {
      FirstPresentPicks(t, keys[1..], last, i - 1);
    }
  }

  /** The `||`-chain picks the first listed property that is truthy. */
  lemma {:induction false} FirstTruthyPicks(t: Js.Value, keys: seq<string>, last: Js.Value, i: int)
    requires 0 <= i < |keys| && Js.Truthy(Js.Get(t, keys[i]))
    requires forall j :: 0 <= j < i ==> !Js.Truthy(Js.Get(t, keys[j]))
    ensures FirstTruthy(t, keys, last) == Js.Get(t, keys[i])
    decreases i
  {
    if i > 0 {
      FirstTruthyPicks(t, keys[1..], last, i - 1);
    }
  }

  /** The trader record of the open-entry exporter. */
  function EntryTrader(t: Js.Value): Trader {
    Trader(
      FirstTruthy(t, ["portfolioId", "leadPortfolioId"], Js.Get(t, "id")),
      FirstTruthy(t, ["nickName", "nickname"], Js.Str("")),
      FirstTruthy(t, ["uid", "userId"], Js.Str("")),
      Js.Coalesce(Js.Get(t, "roi"), Js.Null),
      FirstPresent(t, ["copyUserCount", "copyCount", "copierCount", "copiers", "copyNumber"], Js.Null))
  }

  /** The trader record of the position-history exporter (its ranking fields are never read again). */
  function HistoryTrader(t: Js.Value): Trader {
    Trader(
      FirstTruthy(t, ["portfolioId", "leadPortfolioId"], Js.Get(t, "id")),
      FirstTruthy(t, ["nickName", "nickname"], Js.Str("")),
      FirstTruthy(t, ["uid", "userId"], Js.Str("")),
      Js.Coalesce(Js.Get(t, "roi"), Js.Null),
      Js.Null)
  }

  /** `.filter(t => t.portfolioId)`, each trader paired with its portfolio id. */
  function Keyed(ts: seq<Trader>): (r: seq<(Js.Value, Trader)>)
    ensures forall p :: 0 <= p < |r| ==> r[p].0 == r[p].1.portfolioId && Js.Truthy(r[p].0)
    decreases |ts|
  {
    if |ts| == 0 then []
    else (if Js.Truthy(ts[0].portfolioId) then [(ts[0].portfolioId, ts[0])] else []) + Keyed(ts[1..])
  }

  lemma {:induction false} KeyedCovers(ts: seq<Trader>, i: int)
    requires 0 <= i < |ts| && Js.Truthy(ts[i].portfolioId)
    ensures (ts[i].portfolioId, ts[i]) in Keyed(ts)
    decreases |ts|
  {
    if i > 0 {
      KeyedCovers(ts[1..], i - 1);
    }
  }

  /** `list.map(normalize)` */
  function Normalized(list: seq<Js.Value>, normalize: Js.Value -> Trader): (ts: seq<Trader>)
    ensures |ts| == |list|
    ensures forall i :: 0 <= i < |list| ==> ts[i] == normalize(list[i])
  {
    seq(|list|, i requires 0 <= i < |list| => normalize(list[i]))
  }

  /** The de-duplicated traders, before any truncation. */
  function UniqueTraders(list: seq<Js.Value>, normalize: Js.Value -> Trader): seq<Trader> {
    Merge.Values(Merge.DistinctBy(Keyed(Normalized(list, normalize))))
  }

  /** `fetchPortfolioIds()` of the open-entry exporter, `.slice(0, TRADER_LIMIT)`
      of the unique traders: a prefix, no longer than a non-negative limit. */
  function EntryTraders(results: seq<Js.Value>, limit: real): (r: seq<Trader>)
    ensures limit >= 0.0 ==> |r| as real <= limit
    ensures |r| <= |UniqueTraders(Js.Collect(results, "list"), EntryTrader)|
    ensures r == UniqueTraders(Js.Collect(results, "list"), EntryTrader)[..|r|]
  {
    var u := UniqueTraders(Js.Collect(results, "list"), EntryTrader);
    u[..Js.SliceEnd(|u|, limit)]
  }

  /** `fetchPortfolioIds()` of the position-history exporter. */
  function HistoryTraders(results: seq<Js.Value>): seq<Trader> {
    UniqueTraders(Js.Collect(results, "list"), HistoryTrader)
  }

  /** Every kept trader has a portfolio id, no id is kept twice, each kept
      trader is the first one listed with its id, and every listed trader
      with an id has its id kept. */
  lemma UniqueTradersFacts(list: seq<Js.Value>, normalize: Js.Value -> Trader)
    ensures var r := UniqueTraders(list, normalize);
      && (forall p :: 0 <= p < |r| ==> Js.Truthy(r[p].portfolioId))
      && (forall p, q :: 0 <= p < q < |r| ==> r[p].portfolioId != r[q].portfolioId)
      && (forall p :: 0 <= p < |r| ==> Merge.Find(Keyed(Normalized(list, normalize)), r[p].portfolioId) == Some(r[p]))
      && (forall i :: 0 <= i < |list| && Js.Truthy(normalize(list[i]).portfolioId) ==>
            exists p :: 0 <= p < |r| && r[p].portfolioId == normalize(list[i]).portfolioId)
  {
    var ts := Normalized(list, normalize);
    var keyed := Keyed(ts);
    var d := Merge.DistinctFrom(keyed, {});
    var r := UniqueTraders(list, normalize);
    Merge.DistinctFacts(keyed, {});
    assert forall p :: 0 <= p < |d| ==> r[p] == d[p].1 && d[p].0 == d[p].1.portfolioId by {
      forall p | 0 <= p < |d| ensures r[p] == d[p].1 && d[p].0 == d[p].1.portfolioId {
        var dp := d[p];
        assert Merge.Find(keyed, dp.0) == Some(dp.1);
      }
    }
    forall i | 0 <= i < |list| && Js.Truthy(normalize(list[i]).portfolioId)
      ensures exists p :: 0 <= p < |r| && r[p].portfolioId == normalize(list[i]).portfolioId
    {
      KeyedCovers(ts, i);
      var q :| 0 <= q < |keyed| && keyed[q] == (ts[i].portfolioId, ts[i]);
      assert Merge.HasKey(d, keyed[q].0);
      var p :| 0 <= p < |d| && d[p].0 == keyed[q].0;
      assert r[p].portfolioId == d[p].0;
    }
  }

  /** The open-entry exporter's list is the first `limit` of the unique
      traders for a whole non-negative limit, all of them when fewer; a
      negative limit drops that many from the end, so `-1` loses the last
      unique trader. */
  lemma EntryTradersPrefix(results: seq<Js.Value>, limit: real)
    ensures var u := UniqueTraders(Js.Collect(results, "list"), EntryTrader);
      var n := |EntryTraders(results, limit)|;
      && EntryTraders(results, limit) == u[..n]
      && (limit >= 0.0 && limit.Floor as real == limit ==> n == (if limit < |u| as real then limit.Floor else |u|))
      && (limit < 0.0 && limit.Floor as real == limit ==> n == (if -limit < |u| as real then |u| + limit.Floor else 0))
  {
  }
}
