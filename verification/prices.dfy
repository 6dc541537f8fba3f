/** Live prices of MEXC symbols: `GET /api/prices` of the Cloudflare
    functions and the identical `priceForSymbol` and `/api/prices` route of
    the Express proxy. A symbol's price is the first positive of the futures
    ticker's last, fair and index prices; failing that, the spot ticker's
    price; failing that, 0. Only positive prices are answered.

    The two ticker requests are parameters: each maps the symbol sent to the
    parsed response, `None` standing for a request that failed, answered a
    non-ok status or threw. */
module Prices {
  import opened Outcome
  import opened Text
  import Js
  import Merge
  import Gate

  /** `toSpot`: `XRP_USDT` becomes `XRPUSDT`; only the first underscore goes. */
  function ToSpot(sym: string): (r: string)
    ensures '_' !in sym ==> r == sym
    ensures '_' in sym ==> |r| == |sym| - 1 && multiset(r)['_'] == multiset(sym)['_'] - 1
    ensures '_' in sym ==> var i := IndexOf(sym, '_');
      && sym[i] == '_' && '_' !in sym[..i]
      && r == sym[..i] + sym[i + 1..]
  {
    if '_' in sym then
      var i := IndexOf(sym, '_');
      assert sym == sym[..i] + [sym[i]] + sym[i + 1..];
      ReplaceFirst(sym, '_', "")
    else ReplaceFirst(sym, '_', "")
  }

  // ------------------------------------------------------------ priceForSymbol

  /** `Array.isArray(json?.data) ? json.data[0] : json?.data` */
  function Ticker(json: Js.Value): Js.Value {
    var data := Js.Get(json, "data");
    if data.Arr? then (if |data.items| > 0 then data.items[0] else Js.Undefined) else data
  }

  /** `Number(obj?.lastPrice || obj?.fairPrice || obj?.indexPrice || 0)`, a
      non-finite number counting as 0 (it fails the `p > 0` test either way). */
  function FuturesPrice(json: Js.Value): real {
    var obj := Ticker(json);
    Js.SafeNum(Js.Or(Js.Get(obj, "lastPrice"), Js.Or(Js.Get(obj, "fairPrice"), Js.Or(Js.Get(obj, "indexPrice"), Js.Num(0.0)))))
  }

  /** The futures fields are tried in order: the last price when it is a
      positive number, else the fair price, else the index price. */
  lemma FuturesFieldOrder(json: Js.Value, x: real)
    requires x > 0.0
    ensures Js.Get(Ticker(json), "lastPrice") == Js.Num(x) ==> FuturesPrice(json) == x
    ensures !Js.Truthy(Js.Get(Ticker(json), "lastPrice")) && Js.Get(Ticker(json), "fairPrice") == Js.Num(x) ==>
              FuturesPrice(json) == x
    ensures (!Js.Truthy(Js.Get(Ticker(json), "lastPrice")) && !Js.Truthy(Js.Get(Ticker(json), "fairPrice")) &&
             Js.Get(Ticker(json), "indexPrice") == Js.Num(x)) ==> FuturesPrice(json) == x
  {
  }

  /** `json.find(x => x.symbol === spotSym)`; reading `symbol` of a `null`
      or `undefined` item before the match throws. */
  function FindSpot(items: seq<Js.Value>, spotSym: string): (r: Result<Option<Js.Value>, string>)
    ensures r.Ok? && r.value.Some? ==> r.value.value in items && Js.Get(r.value.value, "symbol") == Js.Str(spotSym)
    decreases |items|
  {
    if |items| == 0 then Ok(None)
    else if Js.Nullish(items[0]) then Err("TypeError")
    else if Js.StrictEq(Js.Get(items[0], "symbol"), Js.Str(spotSym)) then Ok(Some(items[0]))
    else FindSpot(items[1..], spotSym)
  }

  /** The first item whose symbol is exactly the one asked for is the one
      found, provided no nullish item comes before it. */
  lemma {:induction false} FindSpotFirst(items: seq<Js.Value>, spotSym: string, k: int)
    requires 0 <= k < |items| && Js.Get(items[k], "symbol") == Js.Str(spotSym)
    requires forall j :: 0 <= j < k ==> !Js.Nullish(items[j]) && Js.Get(items[j], "symbol") != Js.Str(spotSym)
    ensures FindSpot(items, spotSym) == Ok(Some(items[k]))
    decreases k
  {
    if k > 0 {
      FindSpotFirst(items[1..], spotSym, k - 1);
    } else {
      assert !Js.Nullish(items[0]);
    }
  }

  /** The spot fallback's price: for an array response, the `price` of the
      first item whose symbol is exactly the spot symbol; for anything else,
      its `price` field; 0 when nothing matches or the lookup throws. */
  function SpotPrice(json: Js.Value, spotSym: string): real {
    if json.Arr? then
      match FindSpot(json.items, spotSym)
      case Ok(Some(f)) => Js.SafeNum(Js.Or(Js.Get(f, "price"), Js.Num(0.0)))
      case _ => 0.0
    else Js.SafeNum(Js.Or(Js.Get(json, "price"), Js.Num(0.0)))
  }

  /** The two ticker requests, as functions of the symbol sent. */
  datatype Tickers = Tickers(futures: string -> Option<Js.Value>, spot: string -> Option<Js.Value>)

  /** The futures ticker's positive price for `sym`, if any. */
  function FuturesQuote(sym: string, t: Tickers): real {
    match t.futures(sym)
    case Some(json) => FuturesPrice(json)
    case None => 0.0
  }

  /** The spot ticker's positive price for `sym` (asked as `toSpot(sym)`), if any. */
  function SpotQuote(sym: string, t: Tickers): real {
    match t.spot(ToSpot(sym))
    case Some(json) => SpotPrice(json, ToSpot(sym))
    case None => 0.0
  }

  /** `priceForSymbol(sym)`: never negative. */
  function PriceForSymbol(sym: string, t: Tickers): (p: real)
    ensures p >= 0.0
    ensures p > 0.0 ==> p == FuturesQuote(sym, t) || p == SpotQuote(sym, t)
  {
    if FuturesQuote(sym, t) > 0.0 then FuturesQuote(sym, t)
    else if SpotQuote(sym, t) > 0.0 then SpotQuote(sym, t)
    else 0.0
  }

  /** A positive futures price wins whatever the spot ticker says; without
      one, the spot price is used when positive; a symbol neither ticker
      prices positively gets 0. */
  lemma PricePriority(sym: string, t: Tickers, spot: string -> Option<Js.Value>)
    ensures FuturesQuote(sym, t) > 0.0 ==>
              PriceForSymbol(sym, t) == FuturesQuote(sym, t) &&
              PriceForSymbol(sym, t) == PriceForSymbol(sym, Tickers(t.futures, spot))
    ensures FuturesQuote(sym, t) <= 0.0 ==>
              PriceForSymbol(sym, t) == (if SpotQuote(sym, t) > 0.0 then SpotQuote(sym, t) else 0.0)
    ensures PriceForSymbol(sym, t) == 0.0 <==> FuturesQuote(sym, t) <= 0.0 && SpotQuote(sym, t) <= 0.0
  {
  }

  // ------------------------------------------------------------ /api/prices

  /** `(symbols || "").split(",").map(s => s.trim()).filter(Boolean)` and
      then `[...new Set(list)]`: each listed symbol once, trimmed and
      non-empty, in first-seen order. */
  function Symbols(param: Option<string>): (r: seq<string>)
    ensures forall p, q :: 0 <= p < q < |r| ==> r[p] != r[q]
    ensures forall s :: s in r <==> s in CommaList(param.GetOr(""))
    ensures forall s :: s in r ==> s != [] && IsTrimmed(s) && ',' !in s
  {
    var list := CommaList(param.GetOr(""));
    UniqueClean(list);
    Merge.Unique(list)
  }

  lemma UniqueClean(list: seq<string>)
    requires forall i :: 0 <= i < |list| ==> list[i] != [] && IsTrimmed(list[i]) && ',' !in list[i]
    ensures var r := Merge.Unique(list);
      && (forall p, q :: 0 <= p < q < |r| ==> r[p] != r[q])
      && (forall s :: s in r <==> s in list)
      && (forall s :: s in r ==> s != [] && IsTrimmed(s) && ',' !in s)
  {
    Merge.UniqueFacts(list);
    forall s | s in Merge.Unique(list)
      ensures s != [] && IsTrimmed(s) && ',' !in s
    {
      var i :| 0 <= i < |list| && list[i] == s;
    }
  }

  /** `for (const [sym, p] of entries) if (p > 0) out[sym] = p;`, with
      `price` the price each symbol was given. */
  function Quotes(syms: seq<string>, price: string -> real): (out: seq<(string, real)>)
    ensures forall j :: 0 <= j < |out| ==> out[j].0 in syms && out[j].1 > 0.0 && out[j].1 == price(out[j].0)
    decreases |syms|
  {
    if |syms| == 0 then []
    else
      var rest := Quotes(syms[1..], price);
      var p := price(syms[0]);
      if p > 0.0 then [(syms[0], p)] + rest else rest
  }

  /** A symbol is answered exactly when its price is positive. */
  lemma {:induction false} QuotesCover(syms: seq<string>, price: string -> real, s: string)
    ensures Merge.HasKey(Quotes(syms, price), s) <==> s in syms && price(s) > 0.0
    decreases |syms|
  {
    if |syms| > 0 {
      var x := syms[0];
      var tail := syms[1..];
      var rest := Quotes(tail, price);
      QuotesCover(tail, price, s);
      InCons(x, tail, s);
      if price(x) > 0.0 {
        assert Quotes(syms, price) == [(x, price(x))] + rest;
        Merge.HasKeyCons((x, price(x)), rest, s);
      } else {
        assert Quotes(syms, price) == rest;
      }
    }
  }

  lemma InCons(x: string, tail: seq<string>, s: string)
    ensures s in [x] + tail <==> s == x || s in tail
  {
  }

  /** Without repeated symbols in, no repeated keys out. */
  lemma {:induction false} QuotesUnique(syms: seq<string>, price: string -> real)
    requires forall p, q :: 0 <= p < q < |syms| ==> syms[p] != syms[q]
    ensures Merge.UniqueKeys(Quotes(syms, price))
    decreases |syms|
  {
    if |syms| > 0 {
      QuotesUnique(syms[1..], price);
      assert syms[0] !in syms[1..] by {
        forall j | 0 <= j < |syms[1..]| ensures syms[1..][j] != syms[0] {
          assert syms[1..][j] == syms[j + 1];
        }
      }
    }
  }

  /** Over a repeat-free list of the symbols of `list`: one entry per
      symbol of `list` with a positive price, and no other. */
  lemma QuotesFacts(syms: seq<string>, price: string -> real, list: seq<string>)
    requires forall p, q :: 0 <= p < q < |syms| ==> syms[p] != syms[q]
    requires forall s :: s in syms <==> s in list
    ensures Merge.UniqueKeys(Quotes(syms, price))
    ensures forall s :: Merge.HasKey(Quotes(syms, price), s) <==> s in list && price(s) > 0.0
  {
    QuotesUnique(syms, price);
    forall s
      ensures Merge.HasKey(Quotes(syms, price), s) <==> s in list && price(s) > 0.0
    {
      QuotesCover(syms, price, s);
    }
  }

  /** `priceForSymbol` as the function the route applies to each symbol. */
  function PriceOf(t: Tickers): string -> real {
    s => PriceForSymbol(s, t)
  }

  datatype Reply = Unauthorized | Quoted(prices: seq<(string, real)>)

  /** `onRequest` of `GET /api/prices` (the Express route is the same
      without the key check: an empty `required`). */
  function Handle(required: string, header: Option<string>, symbols: Option<string>, t: Tickers): (r: Reply)
    ensures r.Unauthorized? <==> !Gate.Admits(required, header)
    ensures required == "" ==> r.Quoted?
  {
    if !Gate.Admits(required, header) then Unauthorized
    else Quoted(Quotes(Symbols(symbols), PriceOf(t)))
  }

  /** What the route does as written: the 401 branch calls a `jsonRes` that
      is not defined in this module, so a rejected key makes the handler
      throw a `ReferenceError` (outside its `try`) instead of answering. */
  datatype Run = Threw | Served(reply: Reply)

  function HandleAsWritten(required: string, header: Option<string>, symbols: Option<string>, t: Tickers): (r: Run)
    ensures r.Threw? <==> !Gate.Admits(required, header)
    ensures r.Served? ==> r.reply.Quoted? && r.reply == Handle(required, header, symbols, t)
  {
    if !Gate.Admits(required, header) then Threw
    else Served(Quoted(Quotes(Symbols(symbols), PriceOf(t))))
  }

  /** A configured key and a request with another one: the route as written
      fails where the corrected one answers 401. */
  lemma WrongKeyThrows(symbols: Option<string>, t: Tickers)
    ensures HandleAsWritten("k", Some("x"), symbols, t) == Threw
    ensures Handle("k", Some("x"), symbols, t) == Unauthorized
  {
    assert !Gate.Admits("k", Some("x"));
  }

  /** The answer maps each listed symbol with a positive price, once, to
      that price, and nothing else. */
  lemma HandleFacts(required: string, header: Option<string>, symbols: Option<string>, t: Tickers)
    requires Gate.Admits(required, header)
    ensures var out := Handle(required, header, symbols, t).prices;
      && Merge.UniqueKeys(out)
      && (forall j :: 0 <= j < |out| ==> out[j].1 > 0.0 && out[j].1 == PriceForSymbol(out[j].0, t))
      && (forall s :: Merge.HasKey(out, s) <==> s in CommaList(symbols.GetOr("")) && PriceForSymbol(s, t) > 0.0)
  {
    var price := PriceOf(t);
    QuotesFacts(Symbols(symbols), price, CommaList(symbols.GetOr("")));
    assert forall s :: price(s) == PriceForSymbol(s, t);
  }
}
