/** The open-entry exporter's rows (`rowFromEntry`) and what it appends to
    its output file: every open entry of every trader is priced at the MEXC
    price of its symbol (its own open price when MEXC has none), turned into
    one row over `CSV_HEADERS`, the rows are sorted newest first, and
    written. `toFixed(2)` and `toPrecision(6)` are parameters; the current
    time is a parameter. */
module EntryRows {
  import opened Outcome
  import opened Text
  import Js
  import Csv
  import Sorting
  import Merge
  import Arith
  import BinanceTraders
  import OpenEntries
  import EntryPrices

  /** `CSV_HEADERS` */
  const Headers: seq<string> := [
    "Symbol", "Mode", "Margin", "PNL", "Lev", "At VNT", "Trader", "Flrs", "ROI %", "M/Mode",
    "Notional", "Open Price", "Market Price", "\U{394} % vs Open", "Amount", "Margin %", "UID", "ID"]

  /** The number renderings the rows use. */
  datatype Formats = Formats(fixed2: real -> string, precision6: real -> string)

  /** `String(v || "").toUpperCase()` */
  function UpperOr(v: Js.Value): string {
    ToUpper(Js.ToStr(Js.Or(v, Js.Str(""))))
  }

  // ---------------------------------------------------------------- formatting

  /** The unit and suffix `fmtNumAbbr` scales a magnitude by: the largest of
      thousand, million, billion and trillion that it reaches, else none. */
  function Unit(a: real): (u: (real, string))
    requires a >= 0.0
    ensures u.0 >= 1.0
    ensures u.0 > 1.0 ==> a / u.0 >= 1.0
    ensures u.1 != "T" ==> a / u.0 < 1000.0
    ensures u.1 in ["T", "B", "M", "k", ""]
  {
    if a >= 1000000000000.0 then (1000000000000.0, "T")
    else if a >= 1000000000.0 then (1000000000.0, "B")
    else if a >= 1000000.0 then (1000000.0, "M")
    else if a >= 1000.0 then (1000.0, "k")
    else (1.0, "")
  }

  /** `fmtNumAbbr(n, 2)`; `None` is a missing or non-finite number. */
  function Abbr(n: Option<real>, fixed2: real -> string): string {
    if n.None? then ""
    else
      var a := if n.value < 0.0 then -n.value else n.value;
      var u := Unit(a);
      (if n.value < 0.0 then "-" else "") + fixed2(a / u.0) + u.1
  }

  /** `fmtPercentRaw(n, 2)` */
  function Percent(n: Option<real>, fixed2: real -> string): string {
    if n.None? then "" else fixed2(n.value) + "%"
  }

  /** `n >= 100 ? n.toFixed(2) : n.toPrecision(6)` */
  function PriceText(n: Option<real>, fmt: Formats): string {
    if n.None? then "" else if n.value >= 100.0 then fmt.fixed2(n.value) else fmt.precision6(n.value)
  }

  /** `Number(v) > bound` for a present `v`. */
  predicate Above(v: Js.Value, bound: real) {
    !Js.Nullish(v) && Js.ToNumber(v).Some? && Js.ToNumber(v).value > bound
  }

  /** The shortened nickname: more than six characters become the first four, an ellipsis and the last. */
  function Short(nickname: Js.Value): string {
    if nickname.Str? && |nickname.s| > 6 then nickname.s[..4] + "\U{2026}" + [nickname.s[|nickname.s| - 1]]
    else Js.ToStr(nickname)
  }

  /** The badges after the name: a heart for more than a thousand copiers, a star for a positive ROI. */
  function Badges(copyCount: Js.Value, roi: Js.Value): (b: string)
    ensures |b| <= 3 + 2
  {
    (if Above(copyCount, 1000.0) then " \U{2764}\U{FE0F}" else "") + (if Above(roi, 0.0) then " \U{2B50}" else "")
  }

  /** `fmtName(nickname, copyCount, roi)` */
  function Name(nickname: Js.Value, copyCount: Js.Value, roi: Js.Value): string {
    if !Js.Truthy(nickname) then ""
    else Trim(Short(nickname) + Badges(copyCount, roi))
  }

  /** A long nickname that does not start with white space is shown by its first four characters and an ellipsis. */
  lemma NameShortens(nickname: string, copyCount: Js.Value, roi: Js.Value)
    requires |nickname| > 6 && !IsSpace(nickname[0])
    ensures StartsWith(Name(Js.Str(nickname), copyCount, roi), nickname[..4] + "\U{2026}")
    ensures |Name(Js.Str(nickname), copyCount, roi)| <= 6 + 3 + 2
  {
    var b := Badges(copyCount, roi);
    assert Name(Js.Str(nickname), copyCount, roi) == Trim(Short(Js.Str(nickname)) + b);
    ShortTrimmed(nickname, b);
  }

  lemma ShortTrimmed(nickname: string, badges: string)
    requires |nickname| > 6 && !IsSpace(nickname[0]) && |badges| <= 5
    ensures var t := Trim(Short(Js.Str(nickname)) + badges);
      StartsWith(t, nickname[..4] + "\U{2026}") && |t| <= 6 + 3 + 2
  {
    var head := nickname[..4] + "\U{2026}";
    var rest := [nickname[|nickname| - 1]] + badges;
    assert Short(Js.Str(nickname)) + badges == head + rest;
    TrimHead(head, rest);
  }

  /** `fmtMode(positionSide)` */
  function Mode(v: Js.Value): string {
    var s := ToLower(Js.ToStr(Js.Or(v, Js.Str(""))));
    if s == "long" || s == "short" then s else ""
  }

  /** `sideSign(positionSide)` */
  function SideSign(v: Js.Value): int {
    var ps := UpperOr(v);
    if ps == "LONG" then 1 else if ps == "SHORT" then -1 else 0
  }

  /** Lower-casing a string gives `w` (lower-case letters) exactly when
      upper-casing it gives `w` upper-cased. */
  lemma CaseAgrees(s: string, w: string)
    requires forall i :: 0 <= i < |w| ==> 'a' <= w[i] <= 'z'
    ensures ToLower(s) == w <==> ToUpper(s) == ToUpper(w)
  {
    if ToLower(s) == w {
      assert forall i :: 0 <= i < |s| ==> ToUpper(s)[i] == ToUpper(w)[i];
    }
    if ToUpper(s) == ToUpper(w) {
      assert forall i :: 0 <= i < |s| ==> ToLower(s)[i] == w[i];
    }
  }

  /** The mode column and the sign of the PnL agree: long is +1, short -1, anything else 0 and an empty mode. */
  lemma ModeMatchesSign(v: Js.Value)
    ensures SideSign(v) == 1 <==> Mode(v) == "long"
    ensures SideSign(v) == -1 <==> Mode(v) == "short"
    ensures SideSign(v) == 0 <==> Mode(v) == ""
  {
    var s := Js.ToStr(Js.Or(v, Js.Str("")));
    SideWords(s);
    assert |"long"| != |"short"| && |"LONG"| != |"SHORT"|;
  }

  /** A position side is long, or short, in either case alike. */
  lemma SideWords(s: string)
    ensures ToLower(s) == "long" <==> ToUpper(s) == "LONG"
    ensures ToLower(s) == "short" <==> ToUpper(s) == "SHORT"
  {
    CaseAgrees(s, "long");
    CaseAgrees(s, "short");
    UpperWords();
  }

  lemma UpperWords()
    ensures ToUpper("long") == "LONG" && ToUpper("short") == "SHORT"
  {
  }

  /** `renderMarginModeLower(mode)` */
  function MarginModeLower(v: Js.Value): string {
    LowerMode(UpperOr(v))
  }

  function LowerMode(mm: string): string {
    if mm == "ISOLATED" then "isolate" else if mm == "CROSS" then "cross" else ToLower(mm)
  }

  /** Lower-casing an upper-cased text leaves no upper-case letter, and upper-casing it again restores it. */
  lemma LowerOfUpper(x: string)
    ensures forall i :: 0 <= i < |x| ==> !('A' <= ToLower(ToUpper(x))[i] <= 'Z')
    ensures ToUpper(ToLower(ToUpper(x))) == ToUpper(x)
  {
    assert forall i :: 0 <= i < |x| ==> ToUpper(ToLower(ToUpper(x)))[i] == ToUpper(x)[i];
  }

  /** An upper-cased margin mode is shown in lower case; `ISOLATED` is
      shortened to `isolate`, and any other mode reads back as itself when
      upper-cased again. */
  lemma LowerModeFacts(x: string)
    ensures var r := LowerMode(ToUpper(x));
      && (forall i :: 0 <= i < |r| ==> !('A' <= r[i] <= 'Z'))
      && (r == "isolate" <==> ToUpper(x) == "ISOLATED" || ToUpper(x) == "ISOLATE")
      && (ToUpper(x) != "ISOLATED" ==> ToUpper(r) == ToUpper(x))
  {
    var mm := ToUpper(x);
    LowerOfUpper(x);
    if mm != "ISOLATED" && mm != "CROSS" && ToLower(mm) == "isolate" {
      assert ToUpper(ToLower(mm)) == "ISOLATE";
    }
    if mm == "ISOLATE" {
      assert ToLower(mm) == "isolate";
    }
  }

  /** The `M/Mode` column is lower case and names the margin mode it was given. */
  lemma MarginModeLowerFacts(v: Js.Value)
    ensures forall i :: 0 <= i < |MarginModeLower(v)| ==> !('A' <= MarginModeLower(v)[i] <= 'Z')
    ensures MarginModeLower(v) == "isolate" <==> UpperOr(v) == "ISOLATED" || UpperOr(v) == "ISOLATE"
    ensures UpperOr(v) != "ISOLATED" ==> ToUpper(MarginModeLower(v)) == UpperOr(v)
  {
    LowerModeFacts(Js.ToStr(Js.Or(v, Js.Str(""))));
  }

  /** `msAgoToVNTText(ts)` at time `now`: the age in whole days, hours,
      minutes or seconds, each unit counted from the floor of the one below. */
  function MsAgo(ts: real, now: int): string {
    if ts == 0.0 then ""
    else
      var diff := if now as real - ts > 0.0 then now as real - ts else 0.0;
      var sec := (diff / 1000.0).Floor;
      var min := sec / 60;
      var hr := min / 60;
      var day := hr / 24;
      if day >= 1 then NatToString(day) + "d ago"
      else if hr >= 1 then NatToString(hr) + "h ago"
      else if min >= 1 then NatToString(min) + "m ago"
      else NatToString(sec) + "s ago"
  }

  /** The age is shown in the largest unit it reaches, as the whole number
      of that unit in the elapsed time (a future time counts as no time). */
  lemma MsAgoUnits(ts: real, now: int)
    requires ts != 0.0
    ensures var diff := if now as real - ts > 0.0 then now as real - ts else 0.0;
      && (diff >= 86400000.0 ==> MsAgo(ts, now) == NatToString((diff / 86400000.0).Floor) + "d ago")
      && (3600000.0 <= diff < 86400000.0 ==> MsAgo(ts, now) == NatToString((diff / 3600000.0).Floor) + "h ago")
      && (60000.0 <= diff < 3600000.0 ==> MsAgo(ts, now) == NatToString((diff / 60000.0).Floor) + "m ago")
      && (diff < 60000.0 ==> MsAgo(ts, now) == NatToString((diff / 1000.0).Floor) + "s ago")
  {
    var diff := if now as real - ts > 0.0 then now as real - ts else 0.0;
    Arith.FloorThenDivide(diff / 1000.0, 60);
    Arith.FloorThenDivide(diff / 60000.0, 60);
    Arith.FloorThenDivide(diff / 3600000.0, 24);
    assert diff / 1000.0 / 60.0 == diff / 60000.0;
    assert diff / 60000.0 / 60.0 == diff / 3600000.0;
    assert diff / 3600000.0 / 24.0 == diff / 86400000.0;
  }

  // ---------------------------------------------------------------- figures

  /** The numbers `rowFromEntry` derives; `None` is `null`. */
  datatype Figures = Figures(
    ts: real, open: Option<real>, qty: Option<real>, lev: Option<real>, mp: Option<real>,
    notional: Option<real>, deltaPct: Option<real>, pnl: Option<real>, marginPct: Option<real>)

  /** `(mp - open) * qty * sideSign(positionSide)` when the side is known
      (the sign is then +1 or -1) and the three numbers are, else the reported PnL. */
  function Pnl(ss: int, qty: Option<real>, open: Option<real>, mp: Option<real>, totalPnl: Js.Value): Option<real> {
    if ss != 0 && qty.Some? && open.Some? && mp.Some? then
      var move := Arith.Move(open.value, mp.value, qty.value);
      Some(if ss > 0 then move else -move)
    else if !Js.Nullish(totalPnl) then Js.ToNumber(totalPnl)
    else None
  }

  /** `(open && mp) ? ((mp - open) / open) * 100 : null` */
  function DeltaPct(open: Option<real>, mp: Option<real>): Option<real> {
    if open.Some? && open.value != 0.0 && mp.Some? && mp.value != 0.0 then Some((mp.value - open.value) / open.value * 100.0) else None
  }

  /** The numbers of one entry at the market price `market` (`None` when MEXC has no price). */
  function FiguresOf(e: OpenEntries.Entry, market: Option<real>): Figures {
    var open := Js.ToNumber(e.avgPrice);
    var qty := Js.ToNumber(e.executedQty);
    var lev := Js.ToNumber(e.leverage);
    var mp := if market.Some? then market else open;
    Figures(
      Js.SafeNum(e.orderTime), open, qty, lev, mp,
      if qty.Some? && mp.Some? then Some(qty.value * mp.value) else None,
      DeltaPct(open, mp),
      Pnl(SideSign(Js.Str(e.positionSide)), qty, open, mp, e.totalPnl),
      if lev.Some? && lev.value > 0.0 then Some(100.0 / lev.value) else None)
  }

  /** The market price is MEXC's when it has one, else the entry's own open price. */
  lemma MarketPriceFallback(e: OpenEntries.Entry, market: Option<real>)
    ensures FiguresOf(e, market).mp == (if market.Some? then market else Js.ToNumber(e.avgPrice))
    ensures market.None? && Js.ToNumber(e.avgPrice).Some? && Js.ToNumber(e.avgPrice).value != 0.0 ==> FiguresOf(e, market).deltaPct == Some(0.0)
  {
  }

  /** With a side, a positive quantity and both prices, the PnL is the
      price move times the quantity, signed by the side: a long gains when
      the market is above the open price and a short when it is below, and
      the PnL is zero exactly when the two prices agree. Without a side the
      reported PnL is used. */
  lemma PnlSign(side: string, qty: real, open: real, mp: real, totalPnl: Js.Value)
    requires qty > 0.0
    ensures var p := Pnl(SideSign(Js.Str(side)), Some(qty), Some(open), Some(mp), totalPnl);
      && (side == "LONG" ==> p == Some(Arith.Move(open, mp, qty)) && (p.value > 0.0 <==> mp > open))
      && (side == "SHORT" ==> p == Some(-Arith.Move(open, mp, qty)) && (p.value > 0.0 <==> mp < open))
      && (side == "LONG" || side == "SHORT" ==> (p.value == 0.0 <==> mp == open))
      && (side == "" ==> p == (if Js.Nullish(totalPnl) then None else Js.ToNumber(totalPnl)))
  {
    if side == "LONG" {
      assert UpperOr(Js.Str(side)) == "LONG";
    } else if side == "SHORT" {
      assert UpperOr(Js.Str(side)) == "SHORT";
    } else if side == "" {
      assert UpperOr(Js.Str(side)) == "";
    }
  }

  /** The margin percentage is the inverse of a positive leverage: the two multiply to 100. */
  lemma MarginPctFacts(e: OpenEntries.Entry, market: Option<real>)
    ensures var f := FiguresOf(e, market);
      && (f.marginPct.Some? <==> f.lev.Some? && f.lev.value > 0.0)
      && (f.marginPct.Some? ==> f.marginPct.value * f.lev.value == 100.0 && f.marginPct.value > 0.0)
  {
  }

  /** The change against the open price recovers the market price. */
  lemma DeltaFacts(e: OpenEntries.Entry, market: Option<real>)
    ensures var f := FiguresOf(e, market);
      f.deltaPct.Some? ==> f.open.Some? && f.mp.Some? && f.mp.value == f.open.value * (1.0 + f.deltaPct.value / 100.0)
  {
    var f := FiguresOf(e, market);
    if f.deltaPct.Some? {
      var o := f.open.value;
      var m := f.mp.value;
      assert f.deltaPct.value / 100.0 == (m - o) / o;
      assert o * ((m - o) / o) == m - o;
    }
  }

  // ---------------------------------------------------------------- rows

  /** `String(Number(copyCount))` for a present count. */
  function Followers(v: Js.Value): string {
    if Js.Nullish(v) then "" else if Js.ToNumber(v).None? then "NaN" else Js.NumText(Js.ToNumber(v).value)
  }

  /** `Δ % vs Open`: a sign is written before a non-negative change. */
  function DeltaText(d: Option<real>, fixed2: real -> string): string {
    if d.None? then "" else if d.value >= 0.0 then "+" + fixed2(d.value) + "%" else fixed2(d.value) + "%"
  }

  /** The column values of `rowFromEntry(e, market)`, in `Headers` order. */
  function Values(e: OpenEntries.Entry, market: Option<real>, fmt: Formats, now: int): (vs: seq<Js.Value>)
    ensures |vs| == |Headers|
  {
    var f := FiguresOf(e, market);
    [ Js.Str(UpperOr(e.symbol)),
      Js.Str(Mode(Js.Str(e.positionSide))),
      Js.Str(if f.pnl.Some? then Abbr(Some(if f.pnl.value < 0.0 then -f.pnl.value else f.pnl.value), fmt.fixed2) else ""),
      Js.Str(Abbr(f.pnl, fmt.fixed2)),
      Js.Str(if f.lev.Some? && f.lev.value != 0.0 then Js.NumText(f.lev.value) + "x" else ""),
      Js.Str(MsAgo(f.ts, now)),
      Js.Str(Name(e.nickname, e.copyCount, e.roi)),
      Js.Str(Followers(e.copyCount)),
      Js.Str(if Js.Nullish(e.roi) then "" else Percent(Js.ToNumber(e.roi), fmt.fixed2)),
      Js.Str(MarginModeLower(e.marginMode)),
      Js.Str(Abbr(f.notional, fmt.fixed2)),
      Js.Str(PriceText(f.open, fmt)),
      Js.Str(PriceText(f.mp, fmt)),
      Js.Str(DeltaText(f.deltaPct, fmt.fixed2)),
      Js.Str(if f.qty.None? then "" else if f.qty.value >= 100.0 then Abbr(f.qty, fmt.fixed2) else fmt.precision6(f.qty.value)),
      Js.Str(Percent(f.marginPct, fmt.fixed2)),
      Js.Or(e.uid, Js.Str("")),
      Js.Or(e.orderId, Js.Str("")) ]
  }

  /** A row with its sort key (`__ts`, never written). */
  datatype Row = Row(ts: real, record: Js.Value)

  function RowOf(e: OpenEntries.Entry, market: Option<real>, fmt: Formats, now: int): Row {
    Row(FiguresOf(e, market).ts, Js.Record(Headers, Values(e, market, fmt, now)))
  }

  lemma HeadersDistinct()
    ensures Js.DistinctKeys(Headers)
  {
    HeadersApart();
    Js.DistinctByEnds(Headers);
  }

  lemma HeadersApart()
    ensures forall i, j :: 0 <= i < j < |Headers| ==> Js.Apart(Headers[i], Headers[j])
  {
  }

  /** Every column of a row reads back the value computed for it. */
  lemma Column(e: OpenEntries.Entry, market: Option<real>, fmt: Formats, now: int, i: int)
    requires 0 <= i < |Headers|
    ensures Js.Get(RowOf(e, market, fmt, now).record, Headers[i]) == Values(e, market, fmt, now)[i]
  {
    HeadersDistinct();
    var vs := Values(e, market, fmt, now);
    Js.RecordGet(Headers, vs, i);
  }

  /** The identifying columns: the upper-cased symbol, the mode, the trader's uid and the order id. */
  lemma IdentityColumns(e: OpenEntries.Entry, market: Option<real>, fmt: Formats, now: int)
    ensures var row := RowOf(e, market, fmt, now).record;
      && Js.Get(row, "Symbol") == Js.Str(UpperOr(e.symbol))
      && Js.Get(row, "Mode") == Js.Str(Mode(Js.Str(e.positionSide)))
      && Js.Get(row, "UID") == Js.Or(e.uid, Js.Str(""))
      && Js.Get(row, "ID") == Js.Or(e.orderId, Js.Str(""))
  {
    Column(e, market, fmt, now, 0);
    Column(e, market, fmt, now, 1);
    Column(e, market, fmt, now, 16);
    Column(e, market, fmt, now, 17);
  }

  // ---------------------------------------------------------------- the export

  /** The MEXC price under an entry's upper-cased symbol, if any. */
  function MarketOf(e: OpenEntries.Entry, prices: map<string, real>): Option<real> {
    var k := UpperOr(e.symbol);
    if k in prices then Some(prices[k]) else None
  }

  /** The rows, one per entry, in entry order. */
  function Rows(entries: seq<OpenEntries.Entry>, prices: map<string, real>, fmt: Formats, now: int): (rows: seq<Row>)
    ensures |rows| == |entries|
    ensures forall i :: 0 <= i < |entries| ==> rows[i] == RowOf(entries[i], MarketOf(entries[i], prices), fmt, now)
  {
    seq(|entries|, i requires 0 <= i < |entries| => RowOf(entries[i], MarketOf(entries[i], prices), fmt, now))
  }

  /** The distinct non-empty upper-cased symbols, first-seen order. */
  function UniqueSymbols(entries: seq<OpenEntries.Entry>): seq<string> {
    Merge.Unique(NonEmpty(seq(|entries|, i requires 0 <= i < |entries| => UpperOr(entries[i].symbol))))
  }

  /** The open entries of every trader in turn (the worker pool interleaves them; a failed request or a thrown worker adds nothing). */
  function AllEntries(traders: seq<BinanceTraders.Trader>, histories: BinanceTraders.Trader -> Option<Js.Value>): seq<OpenEntries.Entry>
    decreases |traders|
  {
    if |traders| == 0 then []
    else OpenEntries.Contributed(traders[0], histories(traders[0])) + AllEntries(traders[1..], histories)
  }

  function SortKey(r: Row): real {
    r.ts
  }

  function Records(rows: seq<Row>): (rs: seq<Js.Value>)
    ensures |rs| == |rows|
    ensures forall i :: 0 <= i < |rows| ==> rs[i] == rows[i].record
  {
    seq(|rows|, i requires 0 <= i < |rows| => rows[i].record)
  }

  /** The sorted rows for the given entries and price responses. */
  function Sorted(entries: seq<OpenEntries.Entry>, futures: Option<Js.Value>, spot: Option<Js.Value>, fmt: Formats, now: int): seq<Row> {
    var maps := EntryPrices.Maps(futures, spot);
    var prices := EntryPrices.Prices(UniqueSymbols(entries), maps.0, maps.1);
    Sorting.SortDesc(Rows(entries, prices, fmt, now), SortKey)
  }

  /** What one run appends after the header check: nothing without open
      entries, else one line per row, newest first. */
  function Appended(rankings: seq<Js.Value>, limit: real, histories: BinanceTraders.Trader -> Option<Js.Value>,
                    futures: Option<Js.Value>, spot: Option<Js.Value>, fmt: Formats, now: int): string
  {
    var entries := AllEntries(BinanceTraders.EntryTraders(rankings, limit), histories);
    if |entries| == 0 then "" else Csv.Body(Records(Sorted(entries, futures, spot, fmt, now)), Headers)
  }

  /** Everything a run writes: the header line when the file did not exist (`ensureHeader`), then the rows. */
  function Output(existed: bool, rankings: seq<Js.Value>, limit: real, histories: BinanceTraders.Trader -> Option<Js.Value>,
                  futures: Option<Js.Value>, spot: Option<Js.Value>, fmt: Formats, now: int): string
  {
    (if existed then "" else Join(Headers, ",") + "\n") + Appended(rankings, limit, histories, futures, spot, fmt, now)
  }

  /** The sorted rows are the built rows, newest first, rows of equal time in entry order. */
  lemma SortedFacts(entries: seq<OpenEntries.Entry>, futures: Option<Js.Value>, spot: Option<Js.Value>, fmt: Formats, now: int)
    ensures var maps := EntryPrices.Maps(futures, spot);
      var built := Rows(entries, EntryPrices.Prices(UniqueSymbols(entries), maps.0, maps.1), fmt, now);
      var sorted := Sorted(entries, futures, spot, fmt, now);
      && Sorting.Descending(sorted, SortKey)
      && multiset(sorted) == multiset(built)
      && (forall v :: Sorting.WithKey(sorted, SortKey, v) == Sorting.WithKey(built, SortKey, v))
  {
    var maps := EntryPrices.Maps(futures, spot);
    Sorting.SortDescFacts(Rows(entries, EntryPrices.Prices(UniqueSymbols(entries), maps.0, maps.1), fmt, now), SortKey);
  }

  /** Every entry with a symbol is priced from the lookups of its own upper-cased symbol. */
  lemma PricedBySymbol(entries: seq<OpenEntries.Entry>, fut: map<string, real>, spot: map<string, real>, i: int)
    requires 0 <= i < |entries| && UpperOr(entries[i].symbol) != ""
    ensures var prices := EntryPrices.Prices(UniqueSymbols(entries), fut, spot);
      var k := UpperOr(entries[i].symbol);
      MarketOf(entries[i], prices) == EntryPrices.Pick(k, fut, spot)
  {
    var syms := seq(|entries|, j requires 0 <= j < |entries| => UpperOr(entries[j].symbol));
    var k := UpperOr(entries[i].symbol);
    assert k == syms[i];
    Merge.UniqueFacts(NonEmpty(syms));
    assert k in UniqueSymbols(entries);
    UpperIdempotent(Js.ToStr(Js.Or(entries[i].symbol, Js.Str(""))));
    assert ToUpper(k) == k;
    assert k in EntryPrices.Wanted(UniqueSymbols(entries));
  }

  /** A run with open entries appends text that reads back as one row per
      entry, newest first, each holding its columns' texts; a run without
      any appends nothing. */
  lemma AppendedRoundTrip(rankings: seq<Js.Value>, limit: real, histories: BinanceTraders.Trader -> Option<Js.Value>,
                          futures: Option<Js.Value>, spot: Option<Js.Value>, fmt: Formats, now: int)
    ensures var entries := AllEntries(BinanceTraders.EntryTraders(rankings, limit), histories);
      var sorted := Sorted(entries, futures, spot, fmt, now);
      && (|entries| == 0 ==> Appended(rankings, limit, histories, futures, spot, fmt, now) == "")
      && (|entries| > 0 ==>
            Csv.Parse(Appended(rankings, limit, histories, futures, spot, fmt, now))
            == seq(|sorted|, i requires 0 <= i < |sorted| => Csv.Texts(sorted[i].record, Headers)))
  {
    var entries := AllEntries(BinanceTraders.EntryTraders(rankings, limit), histories);
    if |entries| > 0 {
      var sorted := Sorted(entries, futures, spot, fmt, now);
      assert Appended(rankings, limit, histories, futures, spot, fmt, now) == Csv.Body(Records(sorted), Headers);
      Csv.BodyRoundTrip(Records(sorted), Headers);
      RecordTexts(sorted);
    }
  }

  lemma RecordTexts(rows: seq<Row>)
    ensures var rs := Records(rows);
      seq(|rs|, i requires 0 <= i < |rs| => Csv.Texts(rs[i], Headers))
      == seq(|rows|, i requires 0 <= i < |rows| => Csv.Texts(rows[i].record, Headers))
  {
  }
}
