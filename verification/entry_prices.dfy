/** The open-entry exporter's MEXC prices (`getPricesFromMexc`): a futures
    and a spot ticker are read into symbol-to-price maps, and every Binance
    symbol is priced from the futures contract `BASE_USDT` first, then the
    spot pair, then the futures and spot tickers under the symbol itself. */
module EntryPrices {
  import opened Outcome
  import opened Text
  import Js
  import BinanceTraders

  /** `String(v).toUpperCase()` */
  function Upper(v: Js.Value): string {
    ToUpper(Js.ToStr(v))
  }

  /** The futures ticker's items: `data` when it is an array, a truthy `data` alone, else none. */
  function FuturesItems(json: Js.Value): seq<Js.Value> {
    var d := Js.Get(json, "data");
    if d.Arr? then d.items else if Js.Truthy(d) then [d] else []
  }

  /** The spot ticker's items: the response when it is an array, a truthy response alone, else none. */
  function SpotItems(json: Js.Value): seq<Js.Value> {
    if json.Arr? then json.items else if Js.Truthy(json) then [json] else []
  }

  /** `Number(it.lastPrice || it.fairPrice || it.indexPrice || 0)` */
  function FuturesPrice(it: Js.Value): Option<real> {
    Js.ToNumber(BinanceTraders.FirstTruthy(it, ["lastPrice", "fairPrice", "indexPrice"], Js.Num(0.0)))
  }

  /** `Number(it.price || 0)` */
  function SpotPrice(it: Js.Value): Option<real> {
    Js.ToNumber(Js.Or(Js.Get(it, "price"), Js.Num(0.0)))
  }

  /** What one ticker item sets: its upper-cased symbol with a positive price, when it has both. */
  function Quote(it: Js.Value, price: Js.Value -> Option<real>): Option<(string, real)> {
    var sym := Js.Get(it, "symbol");
    var p := price(it);
    if Js.Truthy(sym) && p.Some? && p.value > 0.0 then Some((Upper(sym), p.value)) else None
  }

  /** The map the loop over the items builds from what each item sets; a later item overwrites an earlier one. */
  function PriceMap<T>(items: seq<T>, quote: T -> Option<(string, real)>): (m: map<string, real>)
    decreases |items|
  {
    if |items| == 0 then map[]
    else
      var m := PriceMap(items[..|items| - 1], quote);
      var q := quote(items[|items| - 1]);
      if q.Some? then m[q.value.0 := q.value.1] else m
  }

  predicate Quotes<T>(it: T, quote: T -> Option<(string, real)>, k: string) {
    quote(it).Some? && quote(it).value.0 == k
  }

  /** The item at `i` is the last one quoting `k`. */
  predicate LastQuote<T>(items: seq<T>, quote: T -> Option<(string, real)>, k: string, i: int) {
    0 <= i < |items| && Quotes(items[i], quote, k) && forall j :: i < j < |items| ==> !Quotes(items[j], quote, k)
  }

  /** An item that does not quote `k` leaves its entry alone. */
  lemma PriceMapStep<T>(items: seq<T>, quote: T -> Option<(string, real)>, k: string)
    requires |items| > 0 && !Quotes(items[|items| - 1], quote, k)
    ensures var m := PriceMap(items, quote);
      var m0 := PriceMap(items[..|items| - 1], quote);
      (k in m <==> k in m0) && (k in m ==> m[k] == m0[k])
  {
  }

  /** A symbol is in the map exactly when some item quotes it. */
  lemma {:induction false} PriceMapHas<T>(items: seq<T>, quote: T -> Option<(string, real)>, k: string)
    ensures k in PriceMap(items, quote) <==> exists i :: 0 <= i < |items| && Quotes(items[i], quote, k)
    decreases |items|
  {
    if |items| > 0 {
      var n := |items| - 1;
      var init := items[..n];
      PriceMapHas(init, quote, k);
      if !Quotes(items[n], quote, k) {
        PriceMapStep(items, quote, k);
        if exists i :: 0 <= i < |items| && Quotes(items[i], quote, k) {
          var i :| 0 <= i < |items| && Quotes(items[i], quote, k);
          assert init[i] == items[i];
        }
        if exists i :: 0 <= i < n && Quotes(init[i], quote, k) {
          var i :| 0 <= i < n && Quotes(init[i], quote, k);
          assert init[i] == items[i];
        }
      }
    }
  }

  /** The price of a symbol is that of the last item quoting it. */
  lemma {:induction false} PriceMapLast<T>(items: seq<T>, quote: T -> Option<(string, real)>, k: string, i: int)
    requires LastQuote(items, quote, k, i)
    ensures k in PriceMap(items, quote) && PriceMap(items, quote)[k] == quote(items[i]).value.1
    decreases |items|
  {
    var n := |items| - 1;
    if i < n {
      var init := items[..n];
      PriceMapStep(items, quote, k);
      assert LastQuote(init, quote, k, i) by {
        forall j | i < j < n ensures !Quotes(init[j], quote, k) {
          assert init[j] == items[j];
        }
      }
      PriceMapLast(init, quote, k, i);
    }
  }

  /** Every price in the map is one some item set. */
  lemma {:induction false} PriceMapFrom<T>(items: seq<T>, quote: T -> Option<(string, real)>, k: string)
    requires k in PriceMap(items, quote)
    ensures exists i :: 0 <= i < |items| && Quotes(items[i], quote, k) && PriceMap(items, quote)[k] == quote(items[i]).value.1
    decreases |items|
  {
    var n := |items| - 1;
    if !Quotes(items[n], quote, k) {
      PriceMapFrom(items[..n], quote, k);
      var i :| 0 <= i < n && Quotes(items[..n][i], quote, k) && PriceMap(items[..n], quote)[k] == quote(items[..n][i]).value.1;
      assert items[i] == items[..n][i];
    }
  }

  /** A ticker item only ever sets a positive price. */
  lemma QuotePositive(it: Js.Value, price: Js.Value -> Option<real>)
    ensures Quote(it, price).Some? ==> Quote(it, price).value.1 > 0.0 && Js.Truthy(Js.Get(it, "symbol"))
  {
  }

  /** Every price in a ticker map is positive. */
  lemma TickerPositive(items: seq<Js.Value>, price: Js.Value -> Option<real>, k: string)
    requires k in PriceMap(items, (it: Js.Value) => Quote(it, price))
    ensures PriceMap(items, (it: Js.Value) => Quote(it, price))[k] > 0.0
  {
    PriceMapFrom(items, (it: Js.Value) => Quote(it, price), k);
  }

  /** `toMexcFuturesKey(s)`: an upper-cased `...USDT` pair becomes the contract `..._USDT`. */
  function FuturesKey(v: Js.Value): string {
    Contract(Upper(Js.Or(v, Js.Str(""))))
  }

  function Contract(s: string): string {
    if !EndsWith(s, "USDT") then s else s[..|s| - 4] + "_USDT"
  }

  /** `toMexcSpotKey(s)` */
  function SpotKey(v: Js.Value): string {
    Upper(Js.Or(v, Js.Str("")))
  }

  /** The Binance pair a futures contract name stands for. */
  function PairOf(k: string): string {
    if EndsWith(k, "_USDT") then k[..|k| - 5] + "USDT" else k
  }

  /** The contract name keeps the pair: reading the pair back gives the spot key,
      and a contract name ends in `_USDT` exactly when the pair ends in `USDT`. */
  lemma FuturesKeyRoundTrip(v: Js.Value)
    ensures PairOf(FuturesKey(v)) == SpotKey(v)
    ensures EndsWith(FuturesKey(v), "_USDT") <==> EndsWith(SpotKey(v), "USDT")
  {
    ContractRoundTrip(SpotKey(v));
  }

  lemma ContractRoundTrip(s: string)
    ensures PairOf(Contract(s)) == s
    ensures EndsWith(Contract(s), "_USDT") <==> EndsWith(s, "USDT")
  {
    var k := Contract(s);
    if EndsWith(s, "USDT") {
      var p := s[..|s| - 4];
      assert k == p + "_USDT";
      assert k[|k| - 5..] == "_USDT";
      assert k[..|k| - 5] == p;
      assert s == p + "USDT";
    } else {
      assert k == s;
      UnderscoreSuffix(s);
    }
  }

  /** A name ending in `_USDT` ends in `USDT`. */
  lemma UnderscoreSuffix(s: string)
    ensures EndsWith(s, "_USDT") ==> EndsWith(s, "USDT")
  {
    if EndsWith(s, "_USDT") {
      assert s[|s| - 4..] == s[|s| - 5..][1..];
    }
  }

  /** `m.get(k)` when it is a positive number. */
  function Positive(m: map<string, real>, k: string): Option<real> {
    if k in m && m[k] > 0.0 then Some(m[k]) else None
  }

  /** The price of one upper-cased symbol, in the four-way order of preference. */
  function Pick(sym: string, fut: map<string, real>, spot: map<string, real>): Option<real> {
    var f := Positive(fut, FuturesKey(Js.Str(sym)));
    var s := Positive(spot, SpotKey(Js.Str(sym)));
    var f2 := Positive(fut, sym);
    var s2 := Positive(spot, sym);
    if f.Some? then f else if s.Some? then s else if f2.Some? then f2 else s2
  }

  /** The distinct upper-cased symbols asked for. */
  function Wanted(symbols: seq<string>): set<string> {
    set s | s in symbols :: ToUpper(s)
  }

  /** `getPricesFromMexc(symbols)` given the two maps (empty when a ticker request failed). */
  function Prices(symbols: seq<string>, fut: map<string, real>, spot: map<string, real>): map<string, real> {
    map s | s in Wanted(symbols) && Pick(s, fut, spot).Some? :: Pick(s, fut, spot).value
  }

  /** Every priced symbol was asked for and has a positive price taken from
      one of the four lookups, the futures contract winning when it has one. */
  lemma PricesFacts(symbols: seq<string>, fut: map<string, real>, spot: map<string, real>, s: string)
    ensures var out := Prices(symbols, fut, spot);
      && (s in out <==> s in Wanted(symbols) && Pick(s, fut, spot).Some?)
      && (s in out ==> out[s] > 0.0)
      && (s in out ==> out[s] in {Positive(fut, FuturesKey(Js.Str(s))).GetOr(0.0), Positive(spot, s).GetOr(0.0), Positive(fut, s).GetOr(0.0)})
      && (s in out && FuturesKey(Js.Str(s)) in fut && fut[FuturesKey(Js.Str(s))] > 0.0 ==> out[s] == fut[FuturesKey(Js.Str(s))])
  {
    if s in Wanted(symbols) {
      var x :| x in symbols && ToUpper(x) == s;
      UpperIdempotent(x);
      PickFacts(s, fut, spot);
    }
  }

  /** The price picked for an upper-cased symbol is positive and one of the
      lookups, the futures contract first. */
  lemma PickFacts(s: string, fut: map<string, real>, spot: map<string, real>)
    requires ToUpper(s) == s
    ensures var r := Pick(s, fut, spot);
      && (r.Some? ==> r.value > 0.0)
      && (r.Some? ==> r.value in {Positive(fut, FuturesKey(Js.Str(s))).GetOr(0.0), Positive(spot, s).GetOr(0.0), Positive(fut, s).GetOr(0.0)})
      && (FuturesKey(Js.Str(s)) in fut && fut[FuturesKey(Js.Str(s))] > 0.0 ==> r == Some(fut[FuturesKey(Js.Str(s))]))
  {
    RedundantLookups(s, fut, spot);
  }

  /** For an upper-cased symbol the spot key is the symbol itself, so the
      fourth lookup never decides; without a `USDT` suffix the futures key is
      the symbol too, so the third never decides either. */
  lemma RedundantLookups(sym: string, fut: map<string, real>, spot: map<string, real>)
    requires ToUpper(sym) == sym
    ensures SpotKey(Js.Str(sym)) == sym
    ensures !EndsWith(sym, "USDT") ==> FuturesKey(Js.Str(sym)) == sym
    ensures Pick(sym, fut, spot) ==
      if Positive(fut, FuturesKey(Js.Str(sym))).Some? then Positive(fut, FuturesKey(Js.Str(sym)))
      else if Positive(spot, sym).Some? then Positive(spot, sym)
      else Positive(fut, sym)
  {
    if sym != "" {
      assert Js.Or(Js.Str(sym), Js.Str("")) == Js.Str(sym);
    }
  }

  /** The two maps from the ticker responses (`None` when a request failed). */
  function Maps(futures: Option<Js.Value>, spot: Option<Js.Value>): (maps: (map<string, real>, map<string, real>)) {
    ( if futures.Some? then PriceMap(FuturesItems(futures.value), (it: Js.Value) => Quote(it, FuturesPrice)) else map[],
      if spot.Some? then PriceMap(SpotItems(spot.value), (it: Js.Value) => Quote(it, SpotPrice)) else map[] )
  }
}
