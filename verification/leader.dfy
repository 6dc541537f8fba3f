/** `leader.js`: a terminal board of the latest MEXC copy-trade orders of a
    list of lead traders. One poll fetches the first page of each trader's
    orders, merges them newest-wins by order id, keeps the 50 most recently
    opened, asks for live prices of the symbols whose orders are still open,
    and computes each order's PnL and ROI.

    The HTTP requests are parameters: the orders upstream maps a uid to its
    parsed response (`None` for a request that failed), and the live price
    of a symbol is a function. The table rendering, the time-zone text and
    the two-second price cache are left out. */
module Leader {
  import opened Outcome
  import opened Text
  import Js
  import Merge
  import Sorting
  import Arith
  import opened Lists
  import Notification

  const DefaultUids: string := "78481146"

  /** How many merged orders the board shows. */
  const BoardSize: nat := 50

  // ------------------------------------------------------------ config

  /** `(process.env.MEXC_LEADER_UIDS || "78481146").split(",").map(s => s.trim()).filter(Boolean)` */
  function Uids(env: Option<string>): (r: seq<string>)
    ensures forall i :: 0 <= i < |r| ==> r[i] != [] && IsTrimmed(r[i]) && ',' !in r[i]
  {
    CommaList(Fallback(env.GetOr(""), DefaultUids))
  }

  /** An unset or empty variable means the one default trader. */
  lemma UidsDefault(env: Option<string>)
    requires env.None? || env == Some("")
    ensures Uids(env) == [DefaultUids]
  {
    CommaListJoin([DefaultUids]);
  }

  /** Writing a list of uids into the variable, comma-separated, gives back that list. */
  lemma UidsRoundTrip(xs: seq<string>)
    requires |xs| > 0
    requires forall i :: 0 <= i < |xs| ==> xs[i] != [] && IsTrimmed(xs[i]) && ',' !in xs[i]
    ensures Uids(Some(Join(xs, ","))) == xs
  {
    CommaListGiven(xs, DefaultUids);
  }

  // ------------------------------------------------------------ rows

  /** `(sym || "").replace(...)` throws when `sym` is truthy but not a
      string: numbers, booleans, arrays and objects have no `replace`. */
  predicate PairThrows(sym: Js.Value) {
    Js.Truthy(sym) && !sym.Str?
  }

  /** `toPair`: `(sym || "").replace("_", "")`, where it does not throw. */
  function Pair(sym: Js.Value): (r: string)
    ensures sym.Str? && '_' !in sym.s ==> r == sym.s
    ensures !Js.Truthy(sym) ==> !PairThrows(sym) && r == ""
  {
    if sym.Str? then ReplaceFirst(sym.s, '_', "") else ""
  }

  /** Only the first underscore goes: one character shorter, one underscore fewer,
      everything else in place. */
  lemma PairDropsFirstUnderscore(s: string)
    requires '_' in s
    ensures var i := IndexOf(s, '_');
      && Pair(Js.Str(s)) == s[..i] + s[i + 1..]
      && |Pair(Js.Str(s))| == |s| - 1
      && multiset(Pair(Js.Str(s)))['_'] == multiset(s)['_'] - 1
  {
    var i := IndexOf(s, '_');
    var a, b := s[..i], s[i + 1..];
    assert s == a + ['_'] + b;
    assert Pair(Js.Str(s)) == a + "" + b;
    assert a + "" + b == a + b;
    DropOne(a, '_', b);
  }

  lemma DropOne(a: string, c: char, b: string)
    ensures multiset(a + b)[c] == multiset(a + [c] + b)[c] - 1
  {
  }

  /** `Number(v || 0)` */
  function Num0(v: Js.Value): real {
    Js.SafeNum(Js.Or(v, Js.Num(0.0)))
  }

  /** `calcNotionalUSDT`: open price times amount. */
  function Notional(o: Js.Value): real {
    Num0(Js.Get(o, "openAvgPrice")) * Num0(Js.Get(o, "amount"))
  }

  /** An order of the response with the fields `fetchOrdersByUid` adds to it. */
  datatype Row = Row(
    raw: Js.Value, pair: string, mode: string, marginMode: string,
    notional: real, marginPct: real, openAt: Js.Value, pageTime: Js.Value)

  /** `{ ...o, __pair, __mode, __marginMode, __notional, __marginPct, __openAt, __pageTime }` */
  function Shape(o: Js.Value): (r: Row)
    ensures r.raw == o
    ensures r.pageTime == Notification.Recency(o)
    ensures r.notional > 0.0 ==> r.marginPct * r.notional == Num0(Js.Get(o, "margin")) * 100.0
    ensures r.notional <= 0.0 ==> r.marginPct == 0.0
  {
    Row(
      raw := o,
      pair := Pair(Js.Get(o, "symbol")),
      mode := Notification.Mode(Js.Get(o, "positionType")),
      marginMode := Notification.MarginMode(Js.Get(o, "openType")),
      notional := Notional(o),
      marginPct := Arith.Percent(Num0(Js.Get(o, "margin")), Notional(o)),
      openAt := Js.Or(Js.Get(o, "openTime"), Js.Num(0.0)),
      pageTime := Notification.Recency(o))
  }

  // ------------------------------------------------------------ fetchOrdersByUid

  /** `(res.json || {}).success === true` */
  predicate Accepted(json: Js.Value) {
    Js.StrictEq(Js.Get(Js.Or(json, Js.Obj([])), "success"), Js.Bool(true))
  }

  /** `payload.data?.content || []` */
  function Content(json: Js.Value): Js.Value {
    Notification.Content(Js.Or(json, Js.Obj([])))
  }

  /** Shaping one order throws: reading `o.symbol` of a `null` or
      `undefined` item, or `toPair` of a symbol that is not a string. */
  predicate ItemThrows(o: Js.Value) {
    Js.Nullish(o) || PairThrows(Js.Get(o, "symbol"))
  }

  /** `content.map` throws when `content` is not an array or shaping one
      of its items throws. */
  predicate Throws(content: Js.Value) {
    !content.Arr? || exists i :: 0 <= i < |content.items| && ItemThrows(content.items[i])
  }

  /** `fetchOrdersByUid(uid)` given the response: no rows for a failed
      request or a response without `success === true`, otherwise one row
      per item of the content, in order; `Err` where the call throws. */
  function FetchOrders(resp: Option<Js.Value>): (r: Result<seq<Row>, string>)
    ensures resp.None? || !Accepted(resp.value) ==> r == Ok([])
    ensures r.Err? <==> resp.Some? && Accepted(resp.value) && Throws(Content(resp.value))
    ensures r.Ok? && resp.Some? && Accepted(resp.value) ==>
              |r.value| == |Content(resp.value).items| &&
              forall i :: 0 <= i < |r.value| ==> r.value[i] == Shape(Content(resp.value).items[i])
  {
    match resp
    case None => Ok([])
    case Some(json) =>
      if !Accepted(json) then Ok([])
      else if Throws(Content(json)) then Err("TypeError")
      else Ok(Mapped(Content(json).items, Shape))
  }

  /** The rows of a settled call: a rejected one adds none. */
  function Fulfilled(r: Result<seq<Row>, string>): seq<Row> {
    match r
    case Ok(rows) => rows
    case Err(_) => []
  }

  /** `Promise.allSettled(UIDS.map(fetchOrdersByUid))` and the loop that
      collects the fulfilled values, in uid order. */
  function Settled(uids: seq<string>, upstream: string -> Option<Js.Value>): seq<Row>
    decreases |uids|
  {
    if |uids| == 0 then []
    else Fulfilled(FetchOrders(upstream(uids[0]))) + Settled(uids[1..], upstream)
  }

  /** `row` came back from the fetch of one of the uids. */
  predicate FromUid(uids: seq<string>, upstream: string -> Option<Js.Value>, row: Row) {
    exists k :: 0 <= k < |uids| && row in Fulfilled(FetchOrders(upstream(uids[k])))
  }

  /** The collected rows are exactly the rows of the calls that did not throw. */
  lemma {:induction false} SettledRows(uids: seq<string>, upstream: string -> Option<Js.Value>)
    ensures forall row :: row in Settled(uids, upstream) <==> FromUid(uids, upstream, row)
    decreases |uids|
  {
    if |uids| > 0 {
      var here := Fulfilled(FetchOrders(upstream(uids[0])));
      SettledRows(uids[1..], upstream);
      forall row
        ensures row in Settled(uids, upstream) <==> FromUid(uids, upstream, row)
      {
        if row in here {
          assert FromUid(uids, upstream, row);
        } else if FromUid(uids[1..], upstream, row) {
          var k :| 0 <= k < |uids[1..]| && row in Fulfilled(FetchOrders(upstream(uids[1..][k])));
          assert uids[1..][k] == uids[k + 1];
        }
        if FromUid(uids, upstream, row) {
          var k :| 0 <= k < |uids| && row in Fulfilled(FetchOrders(upstream(uids[k])));
          if k > 0 {
            assert uids[k] == uids[1..][k - 1];
            assert FromUid(uids[1..], upstream, row);
          }
        }
      }
    }
  }

  // ------------------------------------------------------------ merge and board

  /** `o.orderId || o.id` */
  function Key(r: Row): Js.Value {
    Notification.Key(r.raw)
  }

  /** `o.__pageTime > prev.__pageTime` */
  predicate Newer(o: Row, prev: Row) {
    Js.Greater(o.pageTime, prev.pageTime)
  }

  function Stamp(r: Row): real {
    Js.SafeNum(r.pageTime)
  }

  function Keyed(rows: seq<Row>): (r: seq<(Js.Value, Row)>)
    ensures |r| == |rows|
    ensures forall i :: 0 <= i < |rows| ==> r[i] == (Key(rows[i]), rows[i])
  {
    seq(|rows|, i requires 0 <= i < |rows| => (Key(rows[i]), rows[i]))
  }

  /** `Array.from(byKey.values())` after the de-duplication loop. */
  function Merged(rows: seq<Row>): seq<Row> {
    Merge.Values(Merge.Merge(Keyed(rows), Newer))
  }

  /** One row per key, every key of the input, only input rows; when the
      page times are numbers, each survivor has the greatest page time of
      its key and is the first seen among equally recent rows. */
  lemma MergedFacts(rows: seq<Row>)
    ensures var d := Merged(rows);
      && (forall p, q :: 0 <= p < q < |d| ==> Key(d[p]) != Key(d[q]))
      && (forall i :: 0 <= i < |rows| ==> Merge.KeyIn(d, Key, Key(rows[i])))
      && (forall p :: 0 <= p < |d| ==> d[p] in rows)
    ensures (forall i :: 0 <= i < |rows| ==> rows[i].pageTime.Num?) ==>
              forall p :: 0 <= p < |Merged(rows)| ==> Merge.WinningRecord(Keyed(rows), Stamp, rows, Merged(rows)[p])
  {
    var items := Keyed(rows);
    Merge.KeyedValuesFacts(rows, Key, Newer, items);
    if forall i :: 0 <= i < |rows| ==> rows[i].pageTime.Num? {
      forall i, j | 0 <= i < |items| && 0 <= j < |items|
        ensures Newer(items[i].1, items[j].1) <==> Stamp(items[i].1) > Stamp(items[j].1)
      {
        Js.GreaterOnNumbers(rows[i].pageTime.x, rows[j].pageTime.x);
      }
      Merge.ValuesFacts(rows, Key, Newer, Stamp, items);
    }
  }

  /** `b.__openAt - a.__openAt`, a non-numeric time counting as 0. */
  function OpenAt(r: Row): real {
    Js.SafeNum(r.openAt)
  }

  /** `merged.sort((a, b) => b.__openAt - a.__openAt).slice(0, 50)` */
  function Board(rows: seq<Row>): seq<Row> {
    Sorting.Top(Sorting.SortDesc(Merged(rows), OpenAt), BoardSize)
  }

  /** The board holds the 50 most recently opened merged rows (all of them
      when there are fewer), newest first: no merged row left off the board
      was opened later than a row on it. */
  lemma BoardFacts(rows: seq<Row>)
    ensures var b := Board(rows);
      && |b| == (if |Merged(rows)| < BoardSize then |Merged(rows)| else BoardSize)
      && Sorting.Descending(b, OpenAt)
      && multiset(b) <= multiset(Merged(rows))
      && forall x, y :: x in b && y in multiset(Merged(rows)) - multiset(b) ==> OpenAt(y) <= OpenAt(x)
  {
    Sorting.TopFacts(Merged(rows), OpenAt, BoardSize);
  }

  // ------------------------------------------------------------ live prices

  /** `!o.closeAvgPrice || o.closeAvgPrice === 0`: the order has no close price yet. */
  predicate StillOpen(r: Row) {
    var c := Js.Get(r.raw, "closeAvgPrice");
    !Js.Truthy(c) || Js.StrictEq(c, Js.Num(0.0))
  }

  function Symbol(r: Row): Js.Value {
    Js.Get(r.raw, "symbol")
  }

  /** Some row of `rows` without a close price trades `sym`. */
  predicate NeedsPrice(rows: seq<Row>, sym: Js.Value) {
    exists i :: 0 <= i < |rows| && StillOpen(rows[i]) && Symbol(rows[i]) == sym
  }

  /** `merged.filter(o => !o.closeAvgPrice || o.closeAvgPrice === 0).map(o => o.symbol)` */
  function OpenSymbols(rows: seq<Row>): (r: seq<Js.Value>)
    decreases |rows|
  {
    if |rows| == 0 then []
    else (if StillOpen(rows[0]) then [Symbol(rows[0])] else []) + OpenSymbols(rows[1..])
  }

  lemma {:induction false} OpenSymbolsFacts(rows: seq<Row>)
    ensures forall s :: s in OpenSymbols(rows) <==> NeedsPrice(rows, s)
    decreases |rows|
  {
    if |rows| > 0 {
      OpenSymbolsFacts(rows[1..]);
      forall s
        ensures s in OpenSymbols(rows) <==> NeedsPrice(rows, s)
      {
        if NeedsPrice(rows[1..], s) {
          var i :| 0 <= i < |rows[1..]| && StillOpen(rows[1..][i]) && Symbol(rows[1..][i]) == s;
          assert rows[i + 1] == rows[1..][i];
        }
        if NeedsPrice(rows, s) {
          var i :| 0 <= i < |rows| && StillOpen(rows[i]) && Symbol(rows[i]) == s;
          if i > 0 {
            assert rows[1..][i - 1] == rows[i];
            assert NeedsPrice(rows[1..], s);
          }
        }
      }
    }
  }

  /** `Array.from(new Set(...))`: the symbols of the rows without a close price. */
  function SymbolsNeeded(rows: seq<Row>): seq<Js.Value> {
    Merge.Unique(OpenSymbols(rows))
  }

  /** Each symbol is asked for once, and a symbol is asked for exactly when
      some order on the board has no close price. */
  lemma SymbolsNeededFacts(rows: seq<Row>)
    ensures var r := SymbolsNeeded(rows);
      && (forall p, q :: 0 <= p < q < |r| ==> r[p] != r[q])
      && (forall s :: s in r <==> NeedsPrice(rows, s))
  {
    Merge.UniqueFacts(OpenSymbols(rows));
    OpenSymbolsFacts(rows);
  }

  /** `getLivePricesForSymbols`: the positive prices of the symbols asked for. */
  function LivePrices(symbols: seq<Js.Value>, live: Js.Value -> real): (m: seq<(Js.Value, real)>)
    decreases |symbols|
  {
    if |symbols| == 0 then []
    else
      var rest := LivePrices(symbols[1..], live);
      if live(symbols[0]) > 0.0 then [(symbols[0], live(symbols[0]))] + rest else rest
  }

  /** `livePriceMap.get(o.symbol) || 0` */
  function LiveFor(m: seq<(Js.Value, real)>, sym: Js.Value): real {
    match Merge.Find(m, sym)
    case Some(p) => p
    case None => 0.0
  }

  /** A symbol gets its live price when it was asked for and the price is
      positive, and 0 otherwise. */
  lemma {:induction false} LiveForFacts(symbols: seq<Js.Value>, live: Js.Value -> real, sym: Js.Value)
    ensures LiveFor(LivePrices(symbols, live), sym) == if sym in symbols && live(sym) > 0.0 then live(sym) else 0.0
    decreases |symbols|
  {
    if |symbols| > 0 {
      LiveForFacts(symbols[1..], live, sym);
      assert sym in symbols <==> sym == symbols[0] || sym in symbols[1..] by {
        assert symbols == [symbols[0]] + symbols[1..];
      }
      var m := LivePrices(symbols, live);
      var rest := LivePrices(symbols[1..], live);
      if live(symbols[0]) > 0.0 {
        assert m == [(symbols[0], live(symbols[0]))] + rest;
        assert m[1..] == rest;
      }
    }
  }

  // ------------------------------------------------------------ PnL and ROI

  /** A figure of the board: a number, or the empty cell `""`. */
  datatype Figure = Blank | Amount(x: real)

  /** `o.positionType === 1 ? 1 : -1`: only type 1 counts as long. */
  predicate IsLong(o: Js.Value) {
    Js.StrictEq(Js.Get(o, "positionType"), Js.Num(1.0))
  }

  /** The PnL of a position closed out at `exit`, the shared shape of
      `calcClosedPNL` and `calcOpenPNL`: empty when the open price, the
      amount or the exit price is 0; otherwise the price move times the
      amount, negated unless the position is long. */
  function PnlAt(o: Js.Value, exit: real): (f: Figure)
    ensures f.Blank? <==> Num0(Js.Get(o, "openAvgPrice")) == 0.0 || Num0(Js.Get(o, "amount")) == 0.0 || exit == 0.0
    ensures f.Amount? && IsLong(o) ==> f.x == Arith.Move(Num0(Js.Get(o, "openAvgPrice")), exit, Num0(Js.Get(o, "amount")))
    ensures f.Amount? && !IsLong(o) ==> f.x == -Arith.Move(Num0(Js.Get(o, "openAvgPrice")), exit, Num0(Js.Get(o, "amount")))
  {
    var openP := Num0(Js.Get(o, "openAvgPrice"));
    var qty := Num0(Js.Get(o, "amount"));
    if openP == 0.0 || qty == 0.0 || exit == 0.0 then Blank
    else
      var dir := if IsLong(o) then 1.0 else -1.0;
      assert (exit - openP) * dir * qty == dir * ((exit - openP) * qty);
      Amount((exit - openP) * dir * qty)
  }

  /** `calcClosedPNL(o)` */
  function ClosedPnl(o: Js.Value): Figure {
    PnlAt(o, Num0(Js.Get(o, "closeAvgPrice")))
  }

  /** `calcOpenPNL(o, livePrice)` */
  function OpenPnl(o: Js.Value, livePrice: real): Figure {
    PnlAt(o, livePrice)
  }

  /** With a positive amount a long gains exactly when the exit price is
      above the open price, and any other position exactly when it is below. */
  lemma PnlDirection(o: Js.Value, exit: real)
    requires PnlAt(o, exit).Amount? && Num0(Js.Get(o, "amount")) > 0.0
    ensures IsLong(o) ==> (PnlAt(o, exit).x > 0.0 <==> exit > Num0(Js.Get(o, "openAvgPrice")))
    ensures !IsLong(o) ==> (PnlAt(o, exit).x > 0.0 <==> exit < Num0(Js.Get(o, "openAvgPrice")))
  {
  }

  /** `calcROIFromPNL(pnl, margin)`: empty for an empty PnL or a zero margin,
      otherwise the PnL as a percentage of the margin. */
  function RoiFromPnl(pnl: Figure, margin: real): (r: Figure)
    ensures r.Blank? <==> pnl.Blank? || margin == 0.0
    ensures r.Amount? ==> r.x * margin == pnl.x * 100.0
  {
    if pnl.Blank? || margin == 0.0 then Blank else Amount(pnl.x / margin * 100.0)
  }

  /** A positive margin keeps the sign of the PnL; a negative one (the
      margin is not checked for sign) flips it. */
  lemma RoiSign(pnl: real, margin: real)
    requires margin != 0.0
    ensures margin > 0.0 ==> (RoiFromPnl(Amount(pnl), margin).x > 0.0 <==> pnl > 0.0)
    ensures margin < 0.0 ==> (RoiFromPnl(Amount(pnl), margin).x > 0.0 <==> pnl < 0.0)
  {
    var r := RoiFromPnl(Amount(pnl), margin).x;
    assert r * margin == pnl * 100.0;
    if margin > 0.0 {
      assert r > 0.0 ==> r * margin > 0.0;
      assert r <= 0.0 ==> r * margin <= 0.0;
    } else {
      assert r > 0.0 ==> r * margin < 0.0;
      assert r <= 0.0 ==> r * margin >= 0.0;
    }
  }

  /** `o.closeAvgPrice && o.closeAvgPrice > 0` */
  predicate Closed(r: Row) {
    var c := Js.Get(r.raw, "closeAvgPrice");
    Js.Truthy(c) && Js.Greater(c, Js.Num(0.0))
  }

  /** The PnL and ROI the poll loop stores on a row, given the live prices. */
  function Figures(r: Row, prices: seq<(Js.Value, real)>): (Figure, Figure) {
    var pnl := if Closed(r) then ClosedPnl(r.raw) else OpenPnl(r.raw, LiveFor(prices, Symbol(r)));
    (pnl, RoiFromPnl(pnl, Num0(Js.Get(r.raw, "margin"))))
  }

  // ------------------------------------------------------------ one poll

  datatype Line = Line(row: Row, pnl: Figure, roi: Figure)

  /** `pollOnce()` without the rendering. */
  function Poll(uids: seq<string>, upstream: string -> Option<Js.Value>, live: Js.Value -> real): seq<Line> {
    var board := Board(Settled(uids, upstream));
    var prices := LivePrices(SymbolsNeeded(board), live);
    Mapped(board, (r: Row) => Line(r, Figures(r, prices).0, Figures(r, prices).1))
  }

  /** Every line is a board row; a closed order shows its realised PnL, and
      an order without a close price its PnL at the live price of its
      symbol (empty when there is no positive live price). */
  lemma PollFacts(uids: seq<string>, upstream: string -> Option<Js.Value>, live: Js.Value -> real)
    ensures var lines := Poll(uids, upstream, live);
      && |lines| == |Board(Settled(uids, upstream))|
      && forall i :: 0 <= i < |lines| ==>
           && lines[i].row == Board(Settled(uids, upstream))[i]
           && (Closed(lines[i].row) ==> lines[i].pnl == ClosedPnl(lines[i].row.raw))
           && (StillOpen(lines[i].row) ==>
                 lines[i].pnl == OpenPnl(lines[i].row.raw, if live(Symbol(lines[i].row)) > 0.0 then live(Symbol(lines[i].row)) else 0.0))
  {
    var board := Board(Settled(uids, upstream));
    var needed := SymbolsNeeded(board);
    SymbolsNeededFacts(board);
    var lines := Poll(uids, upstream, live);
    forall i | 0 <= i < |lines|
      ensures StillOpen(lines[i].row) ==>
                lines[i].pnl == OpenPnl(lines[i].row.raw, if live(Symbol(lines[i].row)) > 0.0 then live(Symbol(lines[i].row)) else 0.0)
    {
      var r := board[i];
      if StillOpen(r) {
        assert NeedsPrice(board, Symbol(r));
        LiveForFacts(needed, live, Symbol(r));
      }
    }
  }

  /** An order whose close price is set but not positive (a negative
      number, say) is neither closed nor asked a live price for: unless an
      open order shares its symbol, its PnL and ROI stay empty. */
  lemma NonPositiveCloseIsBlank(r: Row, board: seq<Row>, live: Js.Value -> real)
    requires !Closed(r) && !StillOpen(r) && !NeedsPrice(board, Symbol(r))
    ensures Figures(r, LivePrices(SymbolsNeeded(board), live)) == (Blank, Blank)
  {
    SymbolsNeededFacts(board);
    LiveForFacts(SymbolsNeeded(board), live, Symbol(r));
  }
}
