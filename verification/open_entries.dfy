/** The open-entry exporter's reading of one trader's 30-day order history:
    every record is normalised (`normalizeHistory`), the records that look
    closed are indexed by order id and by position id, and a record is kept
    as an open entry when nothing in the same history closed its order or
    its position, its status is an open one and it was filled or priced. */
module OpenEntries {
  import opened Outcome
  import opened Text
  import Js
  import BinanceTraders

  /** The object `normalizeHistory` builds. `kind` is its `type` property. */
  datatype Entry = Entry(
    portfolioId: Js.Value, uid: Js.Value, nickname: Js.Value, roi: Js.Value, copyCount: Js.Value,
    symbol: Js.Value, side: string, positionSide: string, kind: Js.Value,
    executedQty: Js.Value, avgPrice: Js.Value, leverage: Js.Value, marginMode: Js.Value,
    totalPnl: Js.Value, orderTime: Js.Value, orderId: Js.Value, positionId: Js.Value, status: string)

  /** The properties an order id is read from, in order of preference. */
  const OrderIdKeys: seq<string> := ["orderId", "id", "origClientOrderId", "clientOrderId"]
  /** The properties a position id is read from, in order of preference. */
  const PositionIdKeys: seq<string> := ["positionId", "posId", "positionID"]

  /** `String(v).toUpperCase()` */
  function Upper(v: Js.Value): string {
    ToUpper(Js.ToStr(v))
  }

  function FirstTruthy(o: Js.Value, keys: seq<string>, last: Js.Value): Js.Value {
    BinanceTraders.FirstTruthy(o, keys, last)
  }

  function FirstPresent(o: Js.Value, keys: seq<string>, last: Js.Value): Js.Value {
    BinanceTraders.FirstPresent(o, keys, last)
  }

  /** `(side, positionSide)` from the raw side: a position side names its
      order side, and an order side names its position side. */
  function Sides(raw: Js.Value): (string, string) {
    var u := Upper(raw);
    if u == "LONG" || u == "SHORT" then (if u == "LONG" then "BUY" else "SELL", u)
    else (u, if u == "BUY" then "LONG" else if u == "SELL" then "SHORT" else "")
  }

  /** The margin mode: a truthy `marginMode` as given, else the `isolated`
      flag when it is a boolean, else `marginType || mode || ""`. */
  function MarginModeOf(o: Js.Value): Js.Value {
    var mm := Js.Get(o, "marginMode");
    if Js.Truthy(mm) then mm
    else if Js.StrictEq(Js.Get(o, "isolated"), Js.Bool(true)) then Js.Str("ISOLATED")
    else if Js.StrictEq(Js.Get(o, "isolated"), Js.Bool(false)) then Js.Str("CROSS")
    else FirstTruthy(o, ["marginType", "mode"], Js.Str(""))
  }

  /** `(o.status || o.orderStatus || "").toString().toUpperCase()` */
  function StatusOf(o: Js.Value): string {
    Upper(FirstTruthy(o, ["status", "orderStatus"], Js.Str("")))
  }

  /** `normalizeHistory(o, trader)` */
  function Normalize(o: Js.Value, t: BinanceTraders.Trader): Entry {
    var sides := Sides(FirstTruthy(o, ["side", "positionSide", "direction"], Js.Str("")));
    Entry(
      t.portfolioId, t.uid, t.nickname, Js.Coalesce(t.roi, Js.Null), Js.Coalesce(t.copyCount, Js.Null),
      FirstTruthy(o, ["symbol", "contract", "pair"], Js.Str("")),
      sides.0, sides.1,
      FirstTruthy(o, ["type", "orderType", "execType"], Js.Str("")),
      FirstPresent(o, ["executedQty", "cumExecQty", "filledQty", "volume", "qty", "quantity"], Js.Str("")),
      FirstPresent(o, ["avgPrice", "price", "entryPrice", "openPrice", "avgFillPrice"], Js.Str("")),
      FirstPresent(o, ["leverage", "lever"], Js.Str("")),
      MarginModeOf(o),
      FirstPresent(o, ["unrealizedPnl", "totalPnl"], Js.Null),
      FirstPresent(o, ["orderTime", "orderUpdateTime", "openTime", "createTime", "time", "updateTime"], Js.Str("")),
      FirstPresent(o, OrderIdKeys, Js.Str("")),
      FirstPresent(o, PositionIdKeys, Js.Str("")),
      StatusOf(o))
  }

  /** The two sides agree: a long position is a buy, a short one a sell, and
      the position side is empty exactly when the raw side names neither. */
  lemma SidesAgree(raw: Js.Value)
    ensures var (side, ps) := Sides(raw);
      && (ps == "LONG" <==> side == "BUY")
      && (ps == "SHORT" <==> side == "SELL")
      && (ps == "" || ps == "LONG" || ps == "SHORT")
      && (ps != "" <==> Upper(raw) in ["LONG", "SHORT", "BUY", "SELL"])
  {
  }

  // ---------------------------------------------------------------- closed or open

  /** The statuses of a finished order. */
  const ClosedStatuses: seq<string> := ["FILLED", "CLOSED", "EXPIRED", "CANCELED", "REJECTED"]
  /** The statuses of an order still working; the empty status counts as open too. */
  const OpenStatuses: seq<string> := ["NEW", "PARTIALLY_FILLED", "OPEN", "ENTRY_OPENING", "TRIGGERED", "ACCEPTED"]

  /** `isClosedOrderLike(o)`: a finite realised PnL, a close field, a
      reduce-only or close-position flag, or a finished status. */
  predicate IsClosed(o: Js.Value) {
    var realized := Js.Get(o, "realizedPnl");
    || (!Js.Nullish(realized) && Js.ToNumber(realized).Some?)
    || Js.Truthy(Js.Get(o, "closeTime")) || Js.Truthy(Js.Get(o, "closeOrderId")) || Js.Truthy(Js.Get(o, "closeType"))
    || Js.StrictEq(Js.Get(o, "close"), Js.Bool(true))
    || Js.StrictEq(Js.Get(o, "reduceOnly"), Js.Bool(true)) || Js.StrictEq(Js.Get(o, "closePosition"), Js.Bool(true))
    || StatusOf(o) in ClosedStatuses
  }

  /** `isOpenStatusLike(status)` */
  predicate IsOpenStatus(status: Js.Value) {
    var s := Upper(Js.Or(status, Js.Str("")));
    s == "" || s in OpenStatuses
  }

  /** `Number(v) > 0`; NaN is not. */
  predicate Positive(v: Js.Value) {
    Js.ToNumber(v).Some? && Js.ToNumber(v).value > 0.0
  }

  /** `isEntryOpeningFromHistory(n, raw)` */
  predicate IsEntryOpening(n: Entry, raw: Js.Value) {
    && !IsClosed(Js.Or(raw, Js.Obj([])))
    && IsOpenStatus(Js.Str(n.status))
    && (Positive(FirstPresent(raw, ["executedQty", "cumExecQty", "filledQty"], Js.Num(0.0)))
        || Positive(Js.Coalesce(n.avgPrice, Js.Num(0.0))))
  }

  /** A record whose status is finished is never an open entry, and an open entry's status is empty or an open one. */
  lemma OpeningExcludes(o: Js.Value, t: BinanceTraders.Trader)
    requires Js.Truthy(o)
    ensures StatusOf(o) in ClosedStatuses ==> !IsEntryOpening(Normalize(o, t), o)
    ensures IsEntryOpening(Normalize(o, t), o) ==> StatusOf(o) == "" || StatusOf(o) in OpenStatuses
  {
    var n := Normalize(o, t);
    assert n.status == StatusOf(o);
    OpeningStatus(n, o);
  }

  /** The same for any entry carrying the record's status. */
  lemma OpeningStatus(n: Entry, o: Js.Value)
    requires Js.Truthy(o) && n.status == StatusOf(o)
    ensures StatusOf(o) in ClosedStatuses ==> !IsEntryOpening(n, o)
    ensures IsEntryOpening(n, o) ==> StatusOf(o) == "" || StatusOf(o) in OpenStatuses
  {
    assert Js.Or(o, Js.Obj([])) == o;
    assert Upper(Js.Or(Js.Str(n.status), Js.Str(""))) == n.status by {
      if n.status != "" {
        assert Js.Or(Js.Str(n.status), Js.Str("")) == Js.Str(n.status);
      }
      UpperIdempotent(Js.ToStr(FirstTruthy(o, ["status", "orderStatus"], Js.Str(""))));
    }
  }

  // ---------------------------------------------------------------- the closed index

  /** The order id the closed index reads (no `""` fallback). */
  function ClosedOid(o: Js.Value): Js.Value {
    FirstPresent(o, OrderIdKeys[..3], Js.Get(o, OrderIdKeys[3]))
  }

  /** The position id the closed index reads (no `""` fallback). */
  function ClosedPid(o: Js.Value): Js.Value {
    FirstPresent(o, PositionIdKeys[..2], Js.Get(o, PositionIdKeys[2]))
  }

  /** The first loop: the texts of the truthy order ids and position ids of the closed records. */
  function ClosedIndex(list: seq<Js.Value>): (r: (set<string>, set<string>))
    decreases |list|
  {
    if |list| == 0 then ({}, {})
    else
      var o := list[|list| - 1];
      var r := ClosedIndex(list[..|list| - 1]);
      if !IsClosed(o) then r
      else
        ( r.0 + (if Js.Truthy(ClosedOid(o)) then {Js.ToStr(ClosedOid(o))} else {}),
          r.1 + (if Js.Truthy(ClosedPid(o)) then {Js.ToStr(ClosedPid(o))} else {}) )
  }

  /** The order id a record adds to the index: a closed record's truthy one. */
  function OrderKey(o: Js.Value): Option<string> {
    if IsClosed(o) && Js.Truthy(ClosedOid(o)) then Some(Js.ToStr(ClosedOid(o))) else None
  }

  /** The position id a record adds to the index: a closed record's truthy one. */
  function PositionKey(o: Js.Value): Option<string> {
    if IsClosed(o) && Js.Truthy(ClosedPid(o)) then Some(Js.ToStr(ClosedPid(o))) else None
  }

  /** The keys `key` picks out of `list`, one record at a time. */
  function Picked<T>(list: seq<T>, key: T -> Option<string>): set<string>
    decreases |list|
  {
    if |list| == 0 then {}
    else
      var k := key(list[|list| - 1]);
      Picked(list[..|list| - 1], key) + (if k.Some? then {k.value} else {})
  }

  lemma {:induction false} PickedFacts<T>(list: seq<T>, key: T -> Option<string>)
    ensures forall id :: id in Picked(list, key) <==> exists i :: 0 <= i < |list| && key(list[i]) == Some(id)
    decreases |list|
  {
    if |list| > 0 {
      var init := list[..|list| - 1];
      PickedFacts(init, key);
      forall id | id in Picked(list, key) ensures exists i :: 0 <= i < |list| && key(list[i]) == Some(id) {
        if id in Picked(init, key) {
          var i :| 0 <= i < |init| && key(init[i]) == Some(id);
          assert list[i] == init[i];
        } else {
          assert key(list[|list| - 1]) == Some(id);
        }
      }
      forall id | exists i :: 0 <= i < |list| && key(list[i]) == Some(id) ensures id in Picked(list, key) {
        var i :| 0 <= i < |list| && key(list[i]) == Some(id);
        if i < |init| {
          assert key(init[i]) == Some(id);
        }
      }
    }
  }

  /** The one loop computes both sets of the index. */
  lemma {:induction false} ClosedIndexPicks(list: seq<Js.Value>)
    ensures ClosedIndex(list) == (Picked(list, OrderKey), Picked(list, PositionKey))
    decreases |list|
  {
    if |list| > 0 {
      var init, o := list[..|list| - 1], list[|list| - 1];
      ClosedIndexPicks(init);
      assert Picked(list, OrderKey) == Picked(init, OrderKey) + (if OrderKey(o).Some? then {OrderKey(o).value} else {});
      assert Picked(list, PositionKey) == Picked(init, PositionKey) + (if PositionKey(o).Some? then {PositionKey(o).value} else {});
      var r := ClosedIndex(init);
      if IsClosed(o) {
        assert ClosedIndex(list) == (r.0 + (if Js.Truthy(ClosedOid(o)) then {Js.ToStr(ClosedOid(o))} else {}),
                                     r.1 + (if Js.Truthy(ClosedPid(o)) then {Js.ToStr(ClosedPid(o))} else {}));
      } else {
        assert ClosedIndex(list) == r;
        assert OrderKey(o).None? && PositionKey(o).None?;
        assert Picked(list, OrderKey) == Picked(init, OrderKey);
        assert Picked(list, PositionKey) == Picked(init, PositionKey);
      }
    } else {
      assert ClosedIndex(list) == ({}, {});
    }
  }

  /** An order id is in the index exactly when some closed record of the list carries it. */
  ghost predicate ClosesOrder(list: seq<Js.Value>, id: string) {
    exists i :: 0 <= i < |list| && OrderKey(list[i]) == Some(id)
  }

  /** A position id is in the index exactly when some closed record of the list carries it. */
  ghost predicate ClosesPosition(list: seq<Js.Value>, id: string) {
    exists i :: 0 <= i < |list| && PositionKey(list[i]) == Some(id)
  }

  lemma ClosedIndexFacts(list: seq<Js.Value>)
    ensures forall id :: id in ClosedIndex(list).0 <==> ClosesOrder(list, id)
    ensures forall id :: id in ClosedIndex(list).1 <==> ClosesPosition(list, id)
  {
    ClosedIndexPicks(list);
    PickedFacts(list, OrderKey);
    PickedFacts(list, PositionKey);
  }

  // ---------------------------------------------------------------- collecting

  /** The second loop's test for one record, given the index. */
  predicate Admitted(index: (set<string>, set<string>), o: Js.Value, t: BinanceTraders.Trader) {
    var n := Normalize(o, t);
    && !(Js.Truthy(n.orderId) && Js.ToStr(n.orderId) in index.0)
    && !(Js.Truthy(n.positionId) && Js.ToStr(n.positionId) in index.1)
    && IsEntryOpening(n, o)
  }

  /** What `normalizeHistory` throws when handed `null` or `undefined`:
      it reads `o.symbol` without `?.`. */
  const NullRecord := "Cannot read properties of null (reading 'symbol')"

  /** No record of `list` is `null` or `undefined`. */
  predicate NoNullish(list: seq<Js.Value>) {
    forall i :: 0 <= i < |list| ==> !Js.Nullish(list[i])
  }

  /** The second loop over `list`, keeping the admitted records, normalised,
      in order; a nullish record makes `normalizeHistory` throw. */
  function CollectFrom(index: (set<string>, set<string>), list: seq<Js.Value>, t: BinanceTraders.Trader): (r: Result<seq<Entry>, string>)
    ensures r.Ok? <==> NoNullish(list)
    ensures r.Err? ==> r.error == NullRecord
    ensures r.Ok? ==> |r.value| <= |list|
    decreases |list|
  {
    if |list| == 0 then Ok([])
    else if Js.Nullish(list[0]) then Err(NullRecord)
    else
      var rest := CollectFrom(index, list[1..], t);
      assert NoNullish(list) <==> NoNullish(list[1..]) by {
        assert forall i :: 0 < i < |list| ==> list[i] == list[1..][i - 1];
      }
      if rest.Err? then rest
      else Ok((if Admitted(index, list[0], t) then [Normalize(list[0], t)] else []) + rest.value)
  }

  /** `fetchOpenEntriesHistoryOnly_30D(trader)` given the response to its one
      request (`None` when the request failed); `data.data.list || []`. A
      non-array list has no length and reads as empty. */
  function OpenEntries(t: BinanceTraders.Trader, response: Option<Js.Value>): Result<seq<Entry>, string> {
    var data := if response.Some? then response.value else Js.Null;
    var list := Js.Or(Js.Get(Js.Get(data, "data"), "list"), Js.Arr([]));
    if !list.Arr? || |list.items| == 0 then Ok([])
    else CollectFrom(ClosedIndex(list.items), list.items, t)
  }

  /** What the worker pool keeps of one trader: its entries, or nothing
      when the worker threw (`pLimitAll` logs the error and goes on). */
  function Contributed(t: BinanceTraders.Trader, response: Option<Js.Value>): seq<Entry> {
    match OpenEntries(t, response)
    case Ok(es) => es
    case Err(_) => []
  }

  /** The open entries as a reference filter over the history: a record is
      kept, in its place, exactly when no closed record of the same history
      carries its order id or its position id and it is itself an open,
      filled or priced entry. */
  ghost predicate Kept(list: seq<Js.Value>, o: Js.Value, t: BinanceTraders.Trader) {
    var n := Normalize(o, t);
    && !(Js.Truthy(n.orderId) && ClosesOrder(list, Js.ToStr(n.orderId)))
    && !(Js.Truthy(n.positionId) && ClosesPosition(list, Js.ToStr(n.positionId)))
    && IsEntryOpening(n, o)
  }

  ghost function Filtered(list: seq<Js.Value>, part: seq<Js.Value>, t: BinanceTraders.Trader): seq<Entry>
    decreases |part|
  {
    if |part| == 0 then []
    else (if Kept(list, part[0], t) then [Normalize(part[0], t)] else []) + Filtered(list, part[1..], t)
  }

  /** The collecting loop is the reference filter of the records it walks,
      unless one of them is nullish, which makes it throw. */
  lemma {:induction false} CollectMatches(list: seq<Js.Value>, part: seq<Js.Value>, t: BinanceTraders.Trader)
    requires forall id :: id in ClosedIndex(list).0 <==> ClosesOrder(list, id)
    requires forall id :: id in ClosedIndex(list).1 <==> ClosesPosition(list, id)
    ensures CollectFrom(ClosedIndex(list), part, t) == if NoNullish(part) then Ok(Filtered(list, part, t)) else Err(NullRecord)
    decreases |part|
  {
    if |part| > 0 {
      NoNullishStep(part);
      if !Js.Nullish(part[0]) {
        CollectMatches(list, part[1..], t);
        AdmittedIsKept(list, part[0], t);
      }
    }
  }

  lemma NoNullishStep(list: seq<Js.Value>)
    requires |list| > 0
    ensures NoNullish(list) <==> !Js.Nullish(list[0]) && NoNullish(list[1..])
  {
    assert forall i :: 0 < i < |list| ==> list[i] == list[1..][i - 1];
  }

  /** With a faithful index, the loop's test is the reference test. */
  lemma AdmittedIsKept(list: seq<Js.Value>, o: Js.Value, t: BinanceTraders.Trader)
    requires forall id :: id in ClosedIndex(list).0 <==> ClosesOrder(list, id)
    requires forall id :: id in ClosedIndex(list).1 <==> ClosesPosition(list, id)
    ensures Admitted(ClosedIndex(list), o, t) == Kept(list, o, t)
  {
  }

  /** The collected entries are the reference filter of the history; a
      failed, empty or non-array history gives none, and a history holding a
      `null` or `undefined` record makes the worker throw. */
  lemma OpenEntriesFilter(t: BinanceTraders.Trader, response: Option<Js.Value>)
    ensures var data := if response.Some? then response.value else Js.Null;
      var list := Js.Or(Js.Get(Js.Get(data, "data"), "list"), Js.Arr([]));
      OpenEntries(t, response) ==
        if !list.Arr? then Ok([])
        else if NoNullish(list.items) then Ok(Filtered(list.items, list.items, t))
        else Err(NullRecord)
  {
    var data := if response.Some? then response.value else Js.Null;
    var list := Js.Or(Js.Get(Js.Get(data, "data"), "list"), Js.Arr([]));
    if list.Arr? {
      ClosedIndexFacts(list.items);
      CollectMatches(list.items, list.items, t);
    }
  }

  /** A trader whose history holds a nullish record adds no entries at all,
      however many of its other records are open. */
  lemma NullRecordDropsTrader(t: BinanceTraders.Trader, response: Option<Js.Value>, i: int)
    requires response.Some?
    requires var list := Js.Or(Js.Get(Js.Get(response.value, "data"), "list"), Js.Arr([]));
      list.Arr? && 0 <= i < |list.items| && Js.Nullish(list.items[i])
    ensures Contributed(t, response) == []
  {
    OpenEntriesFilter(t, response);
  }

  /** A closed record is never kept. */
  lemma ClosedNeverKept(list: seq<Js.Value>, o: Js.Value, t: BinanceTraders.Trader)
    requires Js.Truthy(o) && IsClosed(o)
    ensures !Kept(list, o, t)
  {
    assert Js.Or(o, Js.Obj([])) == o;
  }

  /** A record is not kept when a closed record of the same history carries its order id. */
  lemma ClosedOrderNeverKept(list: seq<Js.Value>, o: Js.Value, t: BinanceTraders.Trader, c: int)
    requires 0 <= c < |list| && IsClosed(list[c])
    requires Js.Truthy(ClosedOid(list[c])) && Js.Truthy(Normalize(o, t).orderId)
    requires Js.ToStr(ClosedOid(list[c])) == Js.ToStr(Normalize(o, t).orderId)
    ensures !Kept(list, o, t)
  {
  }
}
