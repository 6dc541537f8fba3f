/** The `/api/notification` endpoint: it fetches the latest MEXC copy-trade
    orders of the target traders, merges them, turns them into snapshots,
    and compares them with the snapshots stored by the previous run. New and
    changed orders are posted to Slack, grouped by trader, unless the same
    difference was already posted.

    The cache entry is a plain `State` passed in and returned. The upstream
    is a function from (uid, limit) to the parsed response, `Ok(None)`
    standing for a response that is not ok or whose body is not JSON and
    `Err` for a `fetch` that rejects. Number
    rendering (`fmt3`) is a parameter; the Slack text itself, the prices
    request and the time-zone rendering of `openAtStr` are left out. */
module Notification {
  import opened Outcome
  import opened Text
  import Js
  import Merge
  import Sorting
  import Arith
  import opened Lists
  import Gate

  // ------------------------------------------------------------ merge

  /** `o.orderId || o.id` */
  function Key(o: Js.Value): Js.Value {
    Js.Or(Js.Get(o, "orderId"), Js.Get(o, "id"))
  }

  /** `o.pageTime || o.openTime || 0` */
  function Recency(o: Js.Value): Js.Value {
    Js.Or(Js.Get(o, "pageTime"), Js.Or(Js.Get(o, "openTime"), Js.Num(0.0)))
  }

  /** `t > (prev.pageTime || prev.openTime || 0)` */
  predicate Newer(o: Js.Value, prev: Js.Value) {
    Js.Greater(Recency(o), Recency(prev))
  }

  function Keyed(all: seq<Js.Value>): (r: seq<(Js.Value, Js.Value)>)
    ensures |r| == |all|
    ensures forall i :: 0 <= i < |all| ==> r[i] == (Key(all[i]), all[i])
  {
    seq(|all|, i requires 0 <= i < |all| => (Key(all[i]), all[i]))
  }

  /** `Array.from(byKey.values())` after the de-duplication loop. */
  function Merged(all: seq<Js.Value>): seq<Js.Value> {
    Merge.Values(Merge.Merge(Keyed(all), Newer))
  }

  /** The time stamp of a record whose recency is a number. */
  function Stamp(o: Js.Value): real {
    Js.SafeNum(Recency(o))
  }

  /** One record per key, every key of the input kept, each survivor one of
      the input records; when the recencies are numbers, the survivor of a
      key has the greatest recency of that key and is the first one seen
      among equally recent records. */
  lemma MergedFacts(all: seq<Js.Value>)
    ensures var t := Merge.Merge(Keyed(all), Newer);
      && Merge.UniqueKeys(t)
      && (forall i :: 0 <= i < |all| ==> Merge.HasKey(t, Key(all[i])))
      && (forall p :: 0 <= p < |t| ==> exists i :: 0 <= i < |all| && Keyed(all)[i] == t[p])
    ensures (forall i :: 0 <= i < |all| ==> Recency(all[i]).Num?) ==>
              Merge.AllWinners(Keyed(all), Stamp, Merge.Merge(Keyed(all), Newer))
  {
    Merge.MergeFacts(Keyed(all), Newer);
    if forall i :: 0 <= i < |all| ==> Recency(all[i]).Num? {
      NewerByStamp(all);
      Merge.NewestWins(Keyed(all), Newer, Stamp);
    }
  }

  /** Between records whose recencies are numbers, `Newer` compares the stamps. */
  lemma NewerByStamp(all: seq<Js.Value>)
    requires forall i :: 0 <= i < |all| ==> Recency(all[i]).Num?
    ensures var items := Keyed(all);
      forall i, j :: 0 <= i < |items| && 0 <= j < |items| ==>
        (Newer(items[i].1, items[j].1) <==> Stamp(items[i].1) > Stamp(items[j].1))
  {
    var items := Keyed(all);
    forall i, j | 0 <= i < |items| && 0 <= j < |items|
      ensures Newer(items[i].1, items[j].1) <==> Stamp(items[i].1) > Stamp(items[j].1)
    {
      assert items[i].1 == all[i] && items[j].1 == all[j];
      Js.GreaterOnNumbers(Recency(all[i]).x, Recency(all[j]).x);
    }
  }

  // ------------------------------------------------------------ normalizeAndCompute

  /** `modeFromPositionType`: the numbers 1 and 2, nothing else. */
  function Mode(pt: Js.Value): string {
    if Js.StrictEq(pt, Js.Num(1.0)) then "long"
    else if Js.StrictEq(pt, Js.Num(2.0)) then "short"
    else "unknown"
  }

  /** `marginModeFromOpenType` */
  function MarginMode(ot: Js.Value): string {
    if Js.StrictEq(ot, Js.Num(1.0)) then "Isolated"
    else if Js.StrictEq(ot, Js.Num(2.0)) then "Cross"
    else "Unknown"
  }

  /** The codes are the numbers 1 and 2 (not the strings); anything else is unknown. */
  lemma ModeCodes(code: Js.Value)
    ensures Mode(code) == "long" <==> code == Js.Num(1.0)
    ensures Mode(code) == "short" <==> code == Js.Num(2.0)
    ensures MarginMode(code) == "Isolated" <==> code == Js.Num(1.0)
    ensures MarginMode(code) == "Cross" <==> code == Js.Num(2.0)
    ensures Mode(code) in {"long", "short", "unknown"}
    ensures MarginMode(code) in {"Isolated", "Cross", "Unknown"}
  {
  }

  /** `o.leverage ?? o.lev ?? o.openLeverage ?? o?.raw?.leverage` */
  function LeverageField(o: Js.Value): Js.Value {
    Js.Coalesce(Js.Get(o, "leverage"), Js.Coalesce(Js.Get(o, "lev"),
      Js.Coalesce(Js.Get(o, "openLeverage"), Js.Get(Js.Get(o, "raw"), "leverage"))))
  }

  /** `leverageOf`: the first present leverage field as a finite non-zero number, else 1. */
  function Leverage(o: Js.Value): (lev: real)
    ensures lev != 0.0
    ensures Js.ToNumber(LeverageField(o)).Some? && Js.ToNumber(LeverageField(o)).value != 0.0 ==>
              lev == Js.ToNumber(LeverageField(o)).value
    ensures Js.ToNumber(LeverageField(o)).None? || Js.ToNumber(LeverageField(o)).value == 0.0 ==> lev == 1.0
  {
    var n := Js.SafeNum(LeverageField(o));
    if n != 0.0 then n else 1.0
  }

  /** A record without any leverage field has leverage 1. */
  lemma NoLeverageIsOne(o: Js.Value)
    requires o.Obj? && !Js.HasKey(o.fields, "leverage") && !Js.HasKey(o.fields, "lev")
    requires !Js.HasKey(o.fields, "openLeverage") && !Js.HasKey(o.fields, "raw")
    ensures Leverage(o) == 1.0
  {
    Js.LookupMissing(o.fields, "leverage");
    Js.LookupMissing(o.fields, "lev");
    Js.LookupMissing(o.fields, "openLeverage");
    Js.LookupMissing(o.fields, "raw");
  }

  /** `marginUSDT(openPrice, amount, lev, o.margin)` as `normalizeAndCompute`
      calls it: the reported margin when positive, else the notional over the
      leverage when the leverage is positive, else 0. */
  function MarginOf(o: Js.Value): (m: real)
    ensures MarginSplit(Js.SafeNum(Js.Get(o, "margin")), m, Leverage(o), NotionalOf(o))
  {
    MarginUsdt(Js.SafeNum(Js.Get(o, "margin")), NotionalOf(o), Leverage(o))
  }

  /** `openPrice * amount` */
  function NotionalOf(o: Js.Value): real {
    Js.SafeNum(Js.Get(o, "openAvgPrice")) * Js.SafeNum(Js.Get(o, "amount"))
  }

  /** How a margin relates to the reported one, the leverage and the
      notional: the reported margin when positive, else the notional spread
      over a positive leverage, else 0. */
  predicate MarginSplit(api: real, m: real, lev: real, notional: real) {
    && (api > 0.0 ==> m == api)
    && (api <= 0.0 && lev > 0.0 ==> m * lev == notional)
    && (api <= 0.0 && lev <= 0.0 ==> m == 0.0)
  }

  /** `marginUSDT`: the reported margin when positive, else notional over leverage. */
  function MarginUsdt(api: real, notional: real, lev: real): (m: real)
    ensures api > 0.0 ==> m == api
    ensures api <= 0.0 && lev > 0.0 ==> m * lev == notional
    ensures api <= 0.0 && lev <= 0.0 ==> m == 0.0
  {
    if api > 0.0 then api else Arith.Ratio(notional, lev)
  }

  /** One row of `normalizeAndCompute` (the `openAtStr` text is left out). */
  datatype Normalized = Normalized(
    id: Js.Value, trader: Js.Value, traderUid: string, symbol: string, symbolUS: string,
    mode: string, lev: real, marginMode: string, amount: real, openPrice: real,
    margin: real, notional: real, openAt: Js.Value, raw: Js.Value)

  /** `String(o.uid ?? o.traderUid ?? o._uid ?? "")` */
  function TraderUid(o: Js.Value): string {
    Js.ToStr(Js.Coalesce(Js.Get(o, "uid"), Js.Coalesce(Js.Get(o, "traderUid"), Js.Coalesce(Js.Get(o, "_uid"), Js.Str("")))))
  }

  /** `normalizeAndCompute` on one record. */
  function Normalize(o: Js.Value): Normalized {
    var symbolUS := Js.ToStr(Js.Or(Js.Get(o, "symbol"), Js.Str("")));
    var openPrice := Js.SafeNum(Js.Get(o, "openAvgPrice"));
    var amount := Js.SafeNum(Js.Get(o, "amount"));
    Normalized(
      Key(o), Js.Or(Js.Get(o, "traderNickName"), Js.Str("")), TraderUid(o),
      ReplaceFirst(symbolUS, '_', ""), symbolUS, Mode(Js.Get(o, "positionType")), Leverage(o),
      MarginMode(Js.Get(o, "openType")), amount, openPrice, MarginOf(o), openPrice * amount,
      Js.Or(Js.Get(o, "openTime"), Js.Num(0.0)), o)
  }

  /** The row keeps its record and that record's key, and its notional is
      the record's open price times its amount, each a non-number read as 0. */
  lemma NormalizeNotional(o: Js.Value)
    ensures var n := Normalize(o);
      && n.raw == o && n.id == Key(o)
      && n.openPrice == Js.SafeNum(Js.Get(o, "openAvgPrice"))
      && n.amount == Js.SafeNum(Js.Get(o, "amount"))
      && n.notional == Js.SafeNum(Js.Get(o, "openAvgPrice")) * Js.SafeNum(Js.Get(o, "amount"))
  {
  }

  /** The margin is the record's own when positive; otherwise it is the
      notional spread over the (never zero) leverage when that is positive,
      and 0 under a negative leverage. */
  lemma NormalizeMargin(o: Js.Value)
    ensures Normalize(o).lev == Leverage(o) && Normalize(o).lev != 0.0
    ensures MarginSplit(Js.SafeNum(Js.Get(o, "margin")), Normalize(o).margin, Normalize(o).lev, Normalize(o).notional)
  {
    NormalizeParts(o);
  }

  lemma NormalizeParts(o: Js.Value)
    ensures Normalize(o).margin == MarginOf(o) && Normalize(o).notional == NotionalOf(o)
    ensures Normalize(o).lev == Leverage(o)
  {
  }

  /** `symbolUS` is the record's symbol text, and `symbol` is it with its
      first underscore removed: `XRP_USDT` gives `XRPUSDT`, and only the
      first of several underscores goes. */
  lemma NormalizeSymbol(o: Js.Value)
    ensures var n := Normalize(o);
      && n.symbolUS == Js.ToStr(Js.Or(Js.Get(o, "symbol"), Js.Str("")))
      && ('_' !in n.symbolUS ==> n.symbol == n.symbolUS)
      && ('_' in n.symbolUS ==> var i := IndexOf(n.symbolUS, '_');
            n.symbol == n.symbolUS[..i] + n.symbolUS[i + 1..])
  {
    var t := Js.ToStr(Js.Or(Js.Get(o, "symbol"), Js.Str("")));
    NormalizeSymbolParts(o);
    DropFirstUnderscore(t);
  }

  lemma NormalizeSymbolParts(o: Js.Value)
    ensures Normalize(o).symbolUS == Js.ToStr(Js.Or(Js.Get(o, "symbol"), Js.Str("")))
    ensures Normalize(o).symbol == ReplaceFirst(Normalize(o).symbolUS, '_', "")
  {
  }

  lemma DropFirstUnderscore(t: string)
    ensures '_' !in t ==> ReplaceFirst(t, '_', "") == t
    ensures '_' in t ==> var i := IndexOf(t, '_'); ReplaceFirst(t, '_', "") == t[..i] + t[i + 1..]
  {
  }

  /** `b.openAt - a.openAt`, a non-numeric time counting as 0. */
  function OpenAt(n: Normalized): real {
    Js.SafeNum(n.openAt)
  }

  /** `normalizeAndCompute(rows)` */
  function NormalizeAll(rows: seq<Js.Value>): seq<Normalized> {
    Sorting.SortDesc(Mapped(rows, Normalize), OpenAt)
  }

  /** The rows come out newest first, one per input record, records of equal
      time in input order. */
  lemma NormalizeAllFacts(rows: seq<Js.Value>)
    ensures Sorting.Descending(NormalizeAll(rows), OpenAt)
    ensures multiset(NormalizeAll(rows)) == multiset(Mapped(rows, Normalize))
    ensures forall v :: Sorting.WithKey(NormalizeAll(rows), OpenAt, v) == Sorting.WithKey(Mapped(rows, Normalize), OpenAt, v)
  {
    Sorting.SortDescFacts(Mapped(rows, Normalize), OpenAt);
  }

  // ------------------------------------------------------------ snapshots and diff

  /** `pickSnapshotFields`: what is compared between runs (no market price). */
  datatype Snapshot = Snapshot(
    id: Js.Value, trader: Js.Value, traderUid: string, symbol: string, symbolUS: string,
    mode: string, lev: real, amount: real, openPrice: real, margin: real,
    marginMode: string, openAt: real)

  function SnapshotOf(n: Normalized): Snapshot {
    Snapshot(n.id, Js.Or(n.trader, Js.Str("")), n.traderUid, n.symbol, n.symbolUS, n.mode,
      n.lev, n.amount, n.openPrice, n.margin, n.marginMode, Js.SafeNum(n.openAt))
  }

  /** `String(x.id)`, the key the diff compares by. */
  function IdText(s: Snapshot): string {
    Js.ToStr(s.id)
  }

  /** No two snapshots share an id text. */
  predicate UniqueIds(xs: seq<Snapshot>) {
    forall i, j :: 0 <= i < j < |xs| ==> IdText(xs[i]) != IdText(xs[j])
  }

  /** `new Map(xs.map(x => [String(x.id), x])).get(k)`: the last snapshot of that id wins. */
  function Previous(xs: seq<Snapshot>, k: string): (r: Option<Snapshot>)
    ensures r.Some? <==> exists i :: 0 <= i < |xs| && IdText(xs[i]) == k
    ensures r.Some? ==>
              exists i :: 0 <= i < |xs| && xs[i] == r.value && IdText(xs[i]) == k && (forall j :: i < j < |xs| ==> IdText(xs[j]) != k)
    decreases |xs|
  {
    if |xs| == 0 then None
    else if IdText(xs[|xs| - 1]) == k then Some(xs[|xs| - 1])
    else
      var init := xs[..|xs| - 1];
      var r := Previous(init, k);
      PreviousSkips(init, xs[|xs| - 1], k, r);
      assert init + [xs[|xs| - 1]] == xs;
      r
  }

  /** A snapshot with another id, appended, changes neither answer. */
  lemma PreviousSkips(init: seq<Snapshot>, x: Snapshot, k: string, r: Option<Snapshot>)
    requires IdText(x) != k
    requires r.Some? <==> exists i :: 0 <= i < |init| && IdText(init[i]) == k
    requires r.Some? ==>
               exists i :: 0 <= i < |init| && init[i] == r.value && IdText(init[i]) == k && (forall j :: i < j < |init| ==> IdText(init[j]) != k)
    ensures var xs := init + [x];
      && (r.Some? <==> exists i :: 0 <= i < |xs| && IdText(xs[i]) == k)
      && (r.Some? ==>
            exists i :: 0 <= i < |xs| && xs[i] == r.value && IdText(xs[i]) == k && (forall j :: i < j < |xs| ==> IdText(xs[j]) != k))
  {
    var xs := init + [x];
    if r.Some? {
      var i :| 0 <= i < |init| && init[i] == r.value && IdText(init[i]) == k && (forall j :: i < j < |init| ==> IdText(init[j]) != k);
      assert xs[i] == init[i];
      forall j | i < j < |xs| ensures IdText(xs[j]) != k {
        if j < |init| {
          assert xs[j] == init[j];
        }
      }
    } else {
      forall i | 0 <= i < |xs| ensures IdText(xs[i]) != k {
        if i < |init| {
          assert xs[i] == init[i];
        }
      }
    }
  }

  /** In a list without repeated ids, an id finds its own snapshot. */
  lemma PreviousOwn(xs: seq<Snapshot>, i: int)
    requires UniqueIds(xs) && 0 <= i < |xs|
    ensures Previous(xs, IdText(xs[i])) == Some(xs[i])
  {
    var r := Previous(xs, IdText(xs[i]));
    var k :| 0 <= k < |xs| && xs[k] == r.value && IdText(xs[k]) == IdText(xs[i]) &&
      forall j :: k < j < |xs| ==> IdText(xs[j]) != IdText(xs[i]);
    assert k == i;
  }

  /** The five terms whose change is reported. */
  predicate SameTerms(p: Snapshot, c: Snapshot) {
    p.lev == c.lev && p.amount == c.amount && p.openPrice == c.openPrice && p.mode == c.mode && p.marginMode == c.marginMode
  }

  /** The `ch` list of `diffOrders` for a previous and a current snapshot. */
  function Changes(p: Snapshot, c: Snapshot, fmt3: real -> string): (ch: seq<string>)
    ensures |ch| == 0 <==> SameTerms(p, c)
    ensures |ch| <= 5
  {
    (if p.lev != c.lev then ["lev " + Js.NumText(p.lev) + "→" + Js.NumText(c.lev)] else [])
    + (if p.amount != c.amount then ["amount " + fmt3(p.amount) + "→" + fmt3(c.amount)] else [])
    + (if p.openPrice != c.openPrice then ["open " + fmt3(p.openPrice) + "→" + fmt3(c.openPrice)] else [])
    + (if p.mode != c.mode then ["mode " + p.mode + "→" + c.mode] else [])
    + (if p.marginMode != c.marginMode then ["marginMode " + p.marginMode + "→" + c.marginMode] else [])
  }

  datatype ChangedEntry = ChangedEntry(id: Js.Value, symbol: string, mode: string, changes: seq<string>)

  datatype Diff = Diff(added: seq<Snapshot>, changed: seq<ChangedEntry>)

  /** A current snapshot whose id text the previous list knows. */
  predicate Known(prev: seq<Snapshot>, c: Snapshot) {
    Previous(prev, IdText(c)).Some?
  }

  /** A known snapshot one of whose five terms differs from the previous one of its id. */
  predicate Altered(prev: seq<Snapshot>, c: Snapshot) {
    Known(prev, c) && !SameTerms(Previous(prev, IdText(c)).value, c)
  }

  /** The `changed` entry reported for an altered snapshot. */
  function EntryOf(prev: seq<Snapshot>, c: Snapshot, fmt3: real -> string): ChangedEntry
    requires Known(prev, c)
  {
    ChangedEntry(c.id, c.symbol, c.mode, Changes(Previous(prev, IdText(c)).value, c, fmt3))
  }

  /** `diffOrders(prevList, currList)` */
  function DiffOrders(prev: seq<Snapshot>, curr: seq<Snapshot>, fmt3: real -> string): (d: Diff)
    ensures |d.added| + |d.changed| <= |curr|
    decreases |curr|
  {
    if |curr| == 0 then Diff([], [])
    else
      var rest := DiffOrders(prev, curr[1..], fmt3);
      var c := curr[0];
      match Previous(prev, IdText(c))
      case None => Diff([c] + rest.added, rest.changed)
      case Some(p) =>
        var ch := Changes(p, c, fmt3);
        if |ch| > 0 then Diff(rest.added, [ChangedEntry(c.id, c.symbol, c.mode, ch)] + rest.changed)
        else rest
  }

  /** A current snapshot is added exactly when its id is unknown; a changed
      entry is reported exactly for the known snapshots one of whose five
      terms differs, and lists those differences. */
  lemma DiffFacts(prev: seq<Snapshot>, curr: seq<Snapshot>, fmt3: real -> string)
    ensures var d := DiffOrders(prev, curr, fmt3);
      && (forall c :: c in d.added <==> c in curr && !Known(prev, c))
      && (forall e :: e in d.changed ==> exists c :: c in curr && Altered(prev, c) && e == EntryOf(prev, c, fmt3))
      && (forall c :: c in curr && Altered(prev, c) ==> EntryOf(prev, c, fmt3) in d.changed)
  {
    DiffAdded(prev, curr, fmt3);
    DiffChangedSound(prev, curr, fmt3);
    DiffChangedComplete(prev, curr, fmt3);
  }

  /** One step of `DiffOrders`: the head is added, reported as changed, or dropped. */
  lemma DiffStep(prev: seq<Snapshot>, curr: seq<Snapshot>, fmt3: real -> string)
    requires |curr| > 0
    ensures var d := DiffOrders(prev, curr, fmt3);
      var rest := DiffOrders(prev, curr[1..], fmt3);
      var c := curr[0];
      && (!Known(prev, c) ==> d == Diff([c] + rest.added, rest.changed))
      && (Altered(prev, c) ==> d == Diff(rest.added, [EntryOf(prev, c, fmt3)] + rest.changed))
      && (Known(prev, c) && !Altered(prev, c) ==> d == rest)
  {
  }

  lemma {:induction false} DiffAdded(prev: seq<Snapshot>, curr: seq<Snapshot>, fmt3: real -> string)
    ensures forall c :: c in DiffOrders(prev, curr, fmt3).added <==> c in curr && !Known(prev, c)
    decreases |curr|
  {
    if |curr| > 0 {
      DiffAdded(prev, curr[1..], fmt3);
      DiffStep(prev, curr, fmt3);
      assert forall x :: x in curr <==> x == curr[0] || x in curr[1..];
    }
  }

  lemma {:induction false} DiffChangedSound(prev: seq<Snapshot>, curr: seq<Snapshot>, fmt3: real -> string)
    ensures forall e :: e in DiffOrders(prev, curr, fmt3).changed ==>
      exists c :: c in curr && Altered(prev, c) && e == EntryOf(prev, c, fmt3)
    decreases |curr|
  {
    if |curr| > 0 {
      DiffChangedSound(prev, curr[1..], fmt3);
      DiffStep(prev, curr, fmt3);
      var d := DiffOrders(prev, curr, fmt3);
      var rest := DiffOrders(prev, curr[1..], fmt3);
      forall e | e in d.changed ensures exists c :: c in curr && Altered(prev, c) && e == EntryOf(prev, c, fmt3) {
        if Altered(prev, curr[0]) && e == EntryOf(prev, curr[0], fmt3) {
          assert curr[0] in curr;
        } else {
          assert e in rest.changed;
          var c :| c in curr[1..] && Altered(prev, c) && e == EntryOf(prev, c, fmt3);
          assert c in curr;
        }
      }
    }
  }

  lemma {:induction false} DiffChangedComplete(prev: seq<Snapshot>, curr: seq<Snapshot>, fmt3: real -> string)
    ensures forall c :: c in curr && Altered(prev, c) ==> EntryOf(prev, c, fmt3) in DiffOrders(prev, curr, fmt3).changed
    decreases |curr|
  {
    if |curr| > 0 {
      DiffChangedComplete(prev, curr[1..], fmt3);
      DiffStep(prev, curr, fmt3);
      assert forall x :: x in curr <==> x == curr[0] || x in curr[1..];
    }
  }

  /** No id is both added and changed, and ids only in the previous list are never reported. */
  lemma DiffSeparates(prev: seq<Snapshot>, curr: seq<Snapshot>, fmt3: real -> string)
    ensures var d := DiffOrders(prev, curr, fmt3);
      && (forall a, e :: a in d.added && e in d.changed ==> IdText(a) != Js.ToStr(e.id))
      && (forall e :: e in d.changed ==> exists c :: c in curr && Js.ToStr(e.id) == IdText(c))
      && (forall a :: a in d.added ==> a in curr)
  {
    var d := DiffOrders(prev, curr, fmt3);
    DiffFacts(prev, curr, fmt3);
    forall a, e | a in d.added && e in d.changed ensures IdText(a) != Js.ToStr(e.id) {
      var c := ChangedFrom(prev, curr, fmt3, e);
      assert Js.ToStr(e.id) == IdText(c);
    }
    forall e | e in d.changed ensures exists c :: c in curr && Js.ToStr(e.id) == IdText(c) {
      var c := ChangedFrom(prev, curr, fmt3, e);
      assert Js.ToStr(e.id) == IdText(c);
    }
  }

  /** The current snapshot a changed entry reports. */
  lemma ChangedFrom(prev: seq<Snapshot>, curr: seq<Snapshot>, fmt3: real -> string, e: ChangedEntry) returns (c: Snapshot)
    requires e in DiffOrders(prev, curr, fmt3).changed
    ensures c in curr && Altered(prev, c) && e == EntryOf(prev, c, fmt3)
  {
    DiffFacts(prev, curr, fmt3);
    var d := DiffOrders(prev, curr, fmt3);
    assert exists x :: x in curr && Altered(prev, x) && e == EntryOf(prev, x, fmt3);
    c :| c in curr && Altered(prev, c) && e == EntryOf(prev, c, fmt3);
  }

  /** Comparing a list with itself reports nothing, when no id repeats. */
  lemma DiffSelf(xs: seq<Snapshot>, fmt3: real -> string)
    requires UniqueIds(xs)
    ensures DiffOrders(xs, xs, fmt3) == Diff([], [])
  {
    var d := DiffOrders(xs, xs, fmt3);
    DiffFacts(xs, xs, fmt3);
    forall c | c in xs ensures Known(xs, c) && !Altered(xs, c) {
      var i :| 0 <= i < |xs| && xs[i] == c;
      PreviousOwn(xs, i);
    }
    if |d.added| > 0 {
      HeadIn(d.added);
    }
    if |d.changed| > 0 {
      HeadIn(d.changed);
    }
  }

  // ------------------------------------------------------------ fingerprint

  function ChangedText(e: ChangedEntry): string {
    Js.ToStr(e.id) + ":" + Join(e.changes, "|")
  }

  /** `fingerprintDiffs(d)` */
  function Fingerprint(d: Diff): string {
    Join(SortStrings(Mapped(d.added, IdText)), ",") + "#" + Join(SortStrings(Mapped(d.changed, ChangedText)), ",")
  }

  /** Reordering the added or the changed list does not change the fingerprint. */
  lemma FingerprintIgnoresOrder(d1: Diff, d2: Diff)
    requires multiset(d1.added) == multiset(d2.added)
    requires multiset(d1.changed) == multiset(d2.changed)
    ensures Fingerprint(d1) == Fingerprint(d2)
  {
    MappedPerm(d1.added, d2.added, IdText);
    MappedPerm(d1.changed, d2.changed, ChangedText);
    SortIgnoresOrder(Mapped(d1.added, IdText), Mapped(d2.added, IdText));
    SortIgnoresOrder(Mapped(d1.changed, ChangedText), Mapped(d2.changed, ChangedText));
  }

  // ------------------------------------------------------------ grouping by trader

  /** One trader's part of the notice: the name, the summed margin and the reported rows. */
  datatype Group = Group(name: Js.Value, totalMargin: real, added: seq<Snapshot>, changed: seq<Snapshot>)

  /** `r.traderUid || "unknown"` */
  function GroupUid(s: Snapshot): string {
    if s.traderUid == "" then "unknown" else s.traderUid
  }

  function Fresh(s: Snapshot): Group {
    Group(Js.Or(s.trader, Js.Str("")), 0.0, [], [])
  }

  /** One row joining its group; the flag says whether it was added. */
  function Grow(g: Group, row: (Snapshot, bool)): Group {
    Group(Js.Or(g.name, Js.Or(row.0.trader, Js.Str(""))), g.totalMargin + row.0.margin,
      if row.1 then g.added + [row.0] else g.added,
      if row.1 then g.changed else g.changed + [row.0])
  }

  /** One iteration of the grouping loops: `groups.get(uid) || {…}`, update, `groups.set(uid, g)`. */
  function Place(gs: seq<(string, Group)>, row: (Snapshot, bool)): seq<(string, Group)> {
    var u := GroupUid(row.0);
    match Merge.Find(gs, u)
    case None => gs + [(u, Grow(Fresh(row.0), row))]
    case Some(g) => Merge.Put(gs, u, Grow(g, row))
  }

  /** The grouping loops over the rows in order. */
  function Groups(rows: seq<(Snapshot, bool)>): seq<(string, Group)>
    decreases |rows|
  {
    if |rows| == 0 then [] else Place(Groups(rows[..|rows| - 1]), rows[|rows| - 1])
  }

  /** The rows of one trader, in order. */
  function Of(rows: seq<(Snapshot, bool)>, u: string): seq<(Snapshot, bool)>
    decreases |rows|
  {
    if |rows| == 0 then []
    else Of(rows[..|rows| - 1], u) + (if GroupUid(rows[|rows| - 1].0) == u then [rows[|rows| - 1]] else [])
  }

  /** The rows carrying flag `b`. */
  function Flagged(rows: seq<(Snapshot, bool)>, b: bool): seq<Snapshot>
    decreases |rows|
  {
    if |rows| == 0 then []
    else Flagged(rows[..|rows| - 1], b) + (if rows[|rows| - 1].1 == b then [rows[|rows| - 1].0] else [])
  }

  function MarginSum(rows: seq<(Snapshot, bool)>): real
    decreases |rows|
  {
    if |rows| == 0 then 0.0 else MarginSum(rows[..|rows| - 1]) + rows[|rows| - 1].0.margin
  }

  /** The first truthy trader name among the rows, or `""`. */
  function FirstName(rows: seq<(Snapshot, bool)>): (r: Js.Value)
    ensures r == Js.Str("") || exists i :: 0 <= i < |rows| && r == rows[i].0.trader && Js.Truthy(r)
    decreases |rows|
  {
    if |rows| == 0 then Js.Str("")
    else if Js.Truthy(rows[0].0.trader) then rows[0].0.trader
    else
      var r := FirstName(rows[1..]);
      assert forall i :: 0 <= i < |rows[1..]| ==> rows[1..][i] == rows[i + 1];
      r
  }

  lemma {:induction false} FirstNameSnoc(rows: seq<(Snapshot, bool)>, x: (Snapshot, bool))
    ensures FirstName(rows + [x]) == Js.Or(FirstName(rows), Js.Or(x.0.trader, Js.Str("")))
    decreases |rows|
  {
    if |rows| > 0 {
      assert (rows + [x])[1..] == rows[1..] + [x];
      FirstNameSnoc(rows[1..], x);
    }
  }

  /** What a trader's group holds, computed from that trader's rows alone. */
  function Summary(rows: seq<(Snapshot, bool)>): Group {
    Group(FirstName(rows), MarginSum(rows), Flagged(rows, true), Flagged(rows, false))
  }

  /** The group of trader `u` exists exactly when some row belongs to `u`,
      and it holds the first truthy name, the summed margin and, in order,
      the added and the changed rows of `u`; no trader has two groups. */
  lemma {:induction false} GroupsFacts(rows: seq<(Snapshot, bool)>)
    ensures Merge.UniqueKeys(Groups(rows))
    ensures forall u :: Merge.Find(Groups(rows), u) == if |Of(rows, u)| == 0 then None else Some(Summary(Of(rows, u)))
    decreases |rows|
  {
    if |rows| > 0 {
      var init := rows[..|rows| - 1];
      var x := rows[|rows| - 1];
      var gs := Groups(init);
      var u0 := GroupUid(x.0);
      GroupsFacts(init);
      forall u ensures Merge.Find(Groups(rows), u) == if |Of(rows, u)| == 0 then None else Some(Summary(Of(rows, u))) {
        GroupStep(init, x, u);
      }
      Merge.UpsertFacts(gs, u0, Grow(Fresh(x.0), x), (a: Group, b: Group) => true);
      match Merge.Find(gs, u0)
      case None =>
        assert Groups(rows) == gs + [(u0, Grow(Fresh(x.0), x))];
      case Some(g) =>
        assert Groups(rows) == Merge.Put(gs, u0, Grow(g, x));
    }
  }

  /** The induction step of `GroupsFacts` for one trader. */
  lemma GroupStep(init: seq<(Snapshot, bool)>, x: (Snapshot, bool), u: string)
    requires forall u :: Merge.Find(Groups(init), u) == if |Of(init, u)| == 0 then None else Some(Summary(Of(init, u)))
    ensures Merge.Find(Groups(init + [x]), u) == if |Of(init + [x], u)| == 0 then None else Some(Summary(Of(init + [x], u)))
  {
    var rows := init + [x];
    assert rows[..|rows| - 1] == init && rows[|rows| - 1] == x;
    assert Groups(rows) == Place(Groups(init), x);
    var ys := Of(init, u);
    assert Of(rows, u) == ys + (if GroupUid(x.0) == u then [x] else []);
    PlaceFind(Groups(init), x, u);
    if GroupUid(x.0) == u {
      if |ys| == 0 {
        SummaryOne(x);
        assert ys + [x] == [x];
      } else {
        SummarySnoc(ys, x);
      }
    } else {
      assert ys + [] == ys;
    }
  }

  /** A step finds, under the row's trader, the grown group (a fresh one if
      the trader had none), and under every other trader what it found before. */
  lemma PlaceFind(gs: seq<(string, Group)>, x: (Snapshot, bool), u: string)
    ensures Merge.Find(Place(gs, x), u) ==
      if u == GroupUid(x.0) then Some(Grow(Merge.Find(gs, u).GetOr(Fresh(x.0)), x)) else Merge.Find(gs, u)
  {
    var u0 := GroupUid(x.0);
    match Merge.Find(gs, u0)
    case None =>
      Merge.FindSnoc(gs, u0, Grow(Fresh(x.0), x), u);
    case Some(g) =>
      Merge.FindPut(gs, u0, Grow(g, x), u);
  }

  lemma SummaryOne(x: (Snapshot, bool))
    ensures Summary([x]) == Grow(Fresh(x.0), x)
  {
    assert [x][..0] == [] && [x][1..] == [];
    assert FirstName([x]) == Js.Or(Js.Or(x.0.trader, Js.Str("")), Js.Or(x.0.trader, Js.Str("")));
    assert MarginSum([x]) == 0.0 + x.0.margin;
    assert Flagged([x], true) == (if x.1 then [x.0] else []);
    assert Flagged([x], false) == (if x.1 then [] else [x.0]);
  }

  lemma SummarySnoc(ys: seq<(Snapshot, bool)>, x: (Snapshot, bool))
    ensures Summary(ys + [x]) == Grow(Summary(ys), x)
  {
    assert (ys + [x])[..|ys|] == ys;
    FirstNameSnoc(ys, x);
  }

  /** Every row's trader has a group. */
  lemma {:induction false} OwnGroup(rows: seq<(Snapshot, bool)>, i: int)
    requires 0 <= i < |rows|
    ensures |Of(rows, GroupUid(rows[i].0))| > 0
    decreases |rows|
  {
    if i < |rows| - 1 {
      assert rows[..|rows| - 1][i] == rows[i];
      OwnGroup(rows[..|rows| - 1], i);
    }
  }

  /** There are groups exactly when there are rows. */
  lemma GroupsNonEmpty(rows: seq<(Snapshot, bool)>)
    ensures |Groups(rows)| > 0 <==> |rows| > 0
  {
    if |rows| > 0 {
      OwnGroup(rows, 0);
      GroupsFacts(rows);
      assert Merge.Find(Groups(rows), GroupUid(rows[0].0)).Some?;
    }
  }

  /** The rows the notice reports: every added snapshot, then, for every
      changed entry, the current snapshot of its id (`fullMap.get`). */
  function Reported(d: Diff, current: seq<Snapshot>): seq<(Snapshot, bool)> {
    Mapped(d.added, (a: Snapshot) => (a, true)) + ChangedRows(d.changed, current)
  }

  function ChangedRows(changed: seq<ChangedEntry>, current: seq<Snapshot>): (r: seq<(Snapshot, bool)>)
    ensures |r| <= |changed|
    decreases |changed|
  {
    if |changed| == 0 then []
    else
      match Previous(current, Js.ToStr(changed[0].id))
      case None => ChangedRows(changed[1..], current)
      case Some(full) => [(full, false)] + ChangedRows(changed[1..], current)
  }

  /** The lookup `fullMap.get(String(c.id))` never misses for a diff against the current list. */
  lemma {:induction false} ChangedRowsComplete(changed: seq<ChangedEntry>, current: seq<Snapshot>)
    requires forall e :: e in changed ==> exists c :: c in current && Js.ToStr(e.id) == IdText(c)
    ensures |ChangedRows(changed, current)| == |changed|
    decreases |changed|
  {
    if |changed| > 0 {
      var c :| c in current && Js.ToStr(changed[0].id) == IdText(c);
      assert Previous(current, Js.ToStr(changed[0].id)).Some?;
      assert forall e :: e in changed[1..] ==> e in changed;
      ChangedRowsComplete(changed[1..], current);
    }
  }

  /** The notice of a diff against the current list has a group exactly when the diff is not empty. */
  lemma NoticeNonEmpty(prev: seq<Snapshot>, current: seq<Snapshot>, fmt3: real -> string)
    ensures var d := DiffOrders(prev, current, fmt3);
      |Groups(Reported(d, current))| > 0 <==> |d.added| > 0 || |d.changed| > 0
  {
    var d := DiffOrders(prev, current, fmt3);
    DiffSeparates(prev, current, fmt3);
    ChangedRowsComplete(d.changed, current);
    GroupsNonEmpty(Reported(d, current));
  }

  // ------------------------------------------------------------ the state step

  /** The cache entry (`ordersById`, written but never read back, is left out). */
  datatype State = State(orderList: seq<Snapshot>, lastFP: string, bootstrapped: bool)

  /** The state written back and the groups posted (none when nothing is posted). */
  datatype Step = Step(state: State, notice: seq<(string, Group)>)

  /** `true` when the diff has something to say. */
  predicate NonEmpty(d: Diff) {
    |d.added| > 0 || |d.changed| > 0
  }

  /** A bootstrapped run whose diff is not empty and differs from the last
      one posted: the run that fetches prices and posts to Slack. */
  predicate Posts(state: State, current: seq<Snapshot>, fmt3: real -> string) {
    && state.bootstrapped
    && var d := DiffOrders(state.orderList, current, fmt3);
       NonEmpty(d) && Fingerprint(d) != state.lastFP
  }

  /** The bootstrap / diff / notify part of a normal run, given the current snapshots. */
  function Advance(state: State, current: seq<Snapshot>, fmt3: real -> string): Step {
    if !state.bootstrapped then Step(State(current, "", true), [])
    else
      var d := DiffOrders(state.orderList, current, fmt3);
      if Posts(state, current, fmt3) then
        Step(State(current, Fingerprint(d), true), Groups(Reported(d, current)))
      else Step(State(current, state.lastFP, true), [])
  }

  /** A first run only stores the snapshots; later runs post exactly when the
      diff is not empty and its fingerprint differs from the last one posted,
      and then remember that fingerprint. Every run stores the current
      snapshots and leaves the state bootstrapped. */
  lemma AdvanceFacts(state: State, current: seq<Snapshot>, fmt3: real -> string)
    ensures var s := Advance(state, current, fmt3);
      && s.state.orderList == current
      && s.state.bootstrapped
      && (!state.bootstrapped ==> s.notice == [] && s.state.lastFP == "")
    ensures state.bootstrapped ==>
      var d := DiffOrders(state.orderList, current, fmt3);
      var s := Advance(state, current, fmt3);
      var posts := NonEmpty(d) && Fingerprint(d) != state.lastFP;
      && (posts <==> Posts(state, current, fmt3))
      && (|s.notice| > 0 <==> posts)
      && s.state.lastFP == (if posts then Fingerprint(d) else state.lastFP)
  {
    NoticeNonEmpty(state.orderList, current, fmt3);
  }

  /** Running again on the same snapshots posts nothing and stores the same state. */
  lemma SecondRunQuiet(state: State, current: seq<Snapshot>, fmt3: real -> string)
    requires UniqueIds(current)
    ensures var s1 := Advance(state, current, fmt3);
      var s2 := Advance(s1.state, current, fmt3);
      s2.notice == [] && s2.state == s1.state
  {
    DiffSelf(current, fmt3);
  }

  /** A quiet run keeps the last fingerprint: a difference equal to the last
      one posted stays suppressed even when runs without changes came between. */
  lemma QuietRunKeepsFingerprint(state: State, current: seq<Snapshot>, fmt3: real -> string)
    requires state.bootstrapped && !NonEmpty(DiffOrders(state.orderList, current, fmt3))
    ensures Advance(state, current, fmt3).state.lastFP == state.lastFP
    ensures Advance(state, current, fmt3).notice == []
  {
  }

  // ------------------------------------------------------------ the request

  /** What the handler reads from the request: the `x-api-key` header and
      the `limit` and `testNotification` query parameters. */
  datatype Request = Request(apiKey: Option<string>, limit: Option<string>, testNotification: Option<string>)

  /** `INTERNAL_API_KEY`, `TARGET_UIDS` and `SLACK_BOT_TOKEN`, `""` when unset.
      `SLACK_CHANNEL_ID` falls back to a built-in channel, so it is always set. */
  datatype Env = Env(internalApiKey: string, targetUids: string, slackToken: string)

  /** How the handler's two outside calls settle: the `fetch` of `/api/prices`
      in `getPricesForSymbols` and the `fetch` of Slack's `chat.postMessage`
      in `postSlack`. `Err` is a rejected `fetch`. A run makes each call at
      most once. The prices only shape the message text, which is not
      modelled, and a reply that is not ok or not JSON reads as no prices. */
  datatype Calls = Calls(prices: Result<(), string>, slack: Result<(), string>)

  /** `getPricesForSymbols` on the symbols of `orders`: no `fetch` at all for
      an empty list, otherwise the call's outcome. */
  function PricesCall(orders: seq<Snapshot>, calls: Calls): (r: Result<(), string>)
    ensures r.Err? <==> |orders| > 0 && calls.prices.Err?
  {
    if |orders| == 0 then Ok(()) else calls.prices
  }

  /** `postSlack` with a non-empty text (every call site passes one): no
      `fetch` without a token, otherwise the call's outcome. */
  function SlackCall(env: Env, calls: Calls): (r: Result<(), string>)
    ensures r.Err? <==> env.slackToken != "" && calls.slack.Err?
  {
    if env.slackToken == "" then Ok(()) else calls.slack
  }

  datatype Reply =
    | Unauthorized                                      // 401
    | EmptyCache                                        // test run on an empty cache
    | Preview(groups: seq<(string, Group)>)             // test run: the cached list as if all added
    | NoTargets                                         // 400
    | ServerError                                       // 500
    | Bootstrapped(data: seq<Normalized>)
    | Checked(notified: bool, data: seq<Normalized>)

  datatype Served = Served(reply: Reply, state: State)

  /** `data.data?.content || []` */
  function Content(data: Js.Value): Js.Value {
    Js.Or(Js.Get(Js.Get(data, "data"), "content"), Js.Arr([]))
  }

  /** `rows.map(r => ({ ...r, _uid: uid }))` */
  function Tagged(items: seq<Js.Value>, uid: string): seq<Js.Value> {
    Mapped(items, (r: Js.Value) => Js.With(r, "_uid", Js.Str(uid)))
  }

  /** What one uid contributes: the rows of a successful response, tagged
      with the uid; a response that is not ok or not `success === true` adds
      nothing, and a `content` that is truthy but not an array makes `.map`
      throw. A tagged row answers every other property as its record does. */
  function Page(resp: Option<Js.Value>, uid: string): (r: Result<seq<Js.Value>, string>)
    ensures r.Ok? ==> forall i :: 0 <= i < |r.value| ==> r.value[i].Obj? && Js.Get(r.value[i], "_uid") == Js.Str(uid)
    ensures r.Err? <==> resp.Some? && Js.StrictEq(Js.Get(resp.value, "success"), Js.Bool(true)) && !Content(resp.value).Arr?
    ensures resp.None? || !Js.StrictEq(Js.Get(resp.value, "success"), Js.Bool(true)) ==> r == Ok([])
    ensures r.Ok? && resp.Some? && Js.StrictEq(Js.Get(resp.value, "success"), Js.Bool(true)) ==>
      var items := Content(resp.value).items;
      && |r.value| == |items|
      && forall i, k :: 0 <= i < |items| && k != "_uid" ==> Js.Get(r.value[i], k) == Js.Get(items[i], k)
  {
    match resp
    case None => Ok([])
    case Some(data) =>
      if !Js.StrictEq(Js.Get(data, "success"), Js.Bool(true)) then Ok([])
      else if !Content(data).Arr? then Err("content.map is not a function")
      else Ok(Tagged(Content(data).items, uid))
  }

  /** A fetched record: an object whose `_uid` is one of `uids`. */
  predicate TaggedFrom(v: Js.Value, uids: seq<string>) {
    v.Obj? && Js.Get(v, "_uid").Str? && Js.Get(v, "_uid").s in uids
  }

  /** The upstream: `Err` when `fetch` rejects, `Ok(None)` for a response
      that is not ok or not JSON, else the parsed body. */
  type Upstream = (string, real) -> Result<Option<Js.Value>, string>

  /** The fetch loop over the target uids in order. */
  function Fetch(uids: seq<string>, limit: real, upstream: Upstream): (r: Result<seq<Js.Value>, string>)
    ensures r.Ok? ==> forall i :: 0 <= i < |r.value| ==> TaggedFrom(r.value[i], uids)
    decreases |uids|
  {
    if |uids| == 0 then Ok([])
    else
      match upstream(uids[0], limit)
      case Err(e) => Err(e)
      case Ok(resp) =>
      match Page(resp, uids[0])
      case Err(e) => Err(e)
      case Ok(here) =>
        match Fetch(uids[1..], limit, upstream)
        case Err(e) => Err(e)
        case Ok(more) =>
          var r := here + more;
          assert forall i :: 0 <= i < |r| ==> TaggedFrom(r[i], uids) by {
            forall i | 0 <= i < |r| ensures TaggedFrom(r[i], uids) {
              if i < |here| {
                assert r[i] == here[i] && uids[0] in uids;
              } else {
                assert r[i] == more[i - |here|];
                assert TaggedFrom(more[i - |here|], uids[1..]);
                assert Js.Get(r[i], "_uid").s in uids[1..];
              }
            }
          }
          Ok(r)
  }

  /** One uid's request neither rejected nor met a non-array `content`. */
  predicate Answered(uid: string, limit: real, upstream: Upstream) {
    upstream(uid, limit).Ok? && Page(upstream(uid, limit).value, uid).Ok?
  }

  /** The rows one uid contributes when it was answered. */
  function RowsOf(uid: string, limit: real, upstream: Upstream): seq<Js.Value> {
    if Answered(uid, limit, upstream) then Page(upstream(uid, limit).value, uid).value else []
  }

  /** Each uid's rows, in uid order. */
  function PerUid(uids: seq<string>, limit: real, upstream: Upstream): (r: seq<seq<Js.Value>>)
    ensures |r| == |uids|
    ensures forall i :: 0 <= i < |uids| ==> r[i] == RowsOf(uids[i], limit, upstream)
  {
    seq(|uids|, i requires 0 <= i < |uids| => RowsOf(uids[i], limit, upstream))
  }

  /** The loop fails exactly when some uid's request rejects or meets a
      non-array `content`; otherwise its rows are every uid's rows, in uid
      order, nothing dropped and nothing added. */
  lemma {:induction false} FetchComplete(uids: seq<string>, limit: real, upstream: Upstream)
    ensures Fetch(uids, limit, upstream).Ok? <==> forall i :: 0 <= i < |uids| ==> Answered(uids[i], limit, upstream)
    ensures Fetch(uids, limit, upstream).Ok? ==> Fetch(uids, limit, upstream).value == Concat(PerUid(uids, limit, upstream))
    decreases |uids|
  {
    if |uids| > 0 {
      FetchComplete(uids[1..], limit, upstream);
      var per := PerUid(uids, limit, upstream);
      assert per[1..] == PerUid(uids[1..], limit, upstream);
      assert (forall i :: 0 <= i < |uids| ==> Answered(uids[i], limit, upstream))
         <==> Answered(uids[0], limit, upstream) && (forall i :: 0 <= i < |uids[1..]| ==> Answered(uids[1..][i], limit, upstream)) by {
        forall i | 0 < i < |uids| ensures uids[i] == uids[1..][i - 1] { }
      }
    }
  }

  /** `safeNum(url.searchParams.get("limit") || 10)` */
  function Limit(param: Option<string>): real {
    Js.SafeNum(Js.Or(if param.Some? then Js.Str(param.value) else Js.Null, Js.Num(10.0)))
  }

  /** The cached list previewed as if every order were new. */
  function AllAdded(xs: seq<Snapshot>): seq<(Snapshot, bool)> {
    Mapped(xs, (x: Snapshot) => (x, true))
  }

  /** `onRequest`: the reply and the cache entry afterwards. A rejected call
      inside the `try` answers 500 and, on a normal run, skips the write of
      the cache entry. */
  function Handle(req: Request, env: Env, state: State, upstream: Upstream, calls: Calls, fmt3: real -> string): (s: Served)
    ensures s.reply.Unauthorized? <==> !Gate.Admits(env.internalApiKey, req.apiKey)
    ensures s.reply.NoTargets? <==> !s.reply.Unauthorized? && req.testNotification != Some("true") && |CommaList(env.targetUids)| == 0
    ensures s.reply.Bootstrapped? || s.reply.Checked? || s.state == state
    ensures s.reply.Bootstrapped? ==> !state.bootstrapped && s.state.bootstrapped && s.state.lastFP == ""
    ensures s.reply.Checked? ==> state.bootstrapped && s.state.bootstrapped
    ensures s.reply.Bootstrapped? || s.reply.Checked? ==> s.state.orderList == Mapped(s.reply.data, SnapshotOf)
  {
    if !Gate.Admits(env.internalApiKey, req.apiKey) then Served(Unauthorized, state)
    else
      var targets := CommaList(env.targetUids);
      var limit := Limit(req.limit);
      if req.testNotification == Some("true") then
        if |state.orderList| == 0 then
          Served(if SlackCall(env, calls).Err? then ServerError else EmptyCache, state)
        else if PricesCall(state.orderList, calls).Err? || SlackCall(env, calls).Err? then Served(ServerError, state)
        else Served(Preview(Groups(AllAdded(state.orderList))), state)
      else if |targets| == 0 then Served(NoTargets, state)
      else
        match Fetch(targets, limit, upstream)
        case Err(_) => Served(ServerError, state)
        case Ok(all) => Check(state, all, env, calls, fmt3)
  }

  /** A normal run after the fetch loop: merge, normalise, then bootstrap or
      diff, and post when there is something new. */
  function Check(state: State, all: seq<Js.Value>, env: Env, calls: Calls, fmt3: real -> string): (s: Served)
    ensures s.reply.ServerError? || s.reply.Bootstrapped? || s.reply.Checked?
    ensures s.reply.ServerError? ==> s.state == state
    ensures s.reply.Bootstrapped? ==> !state.bootstrapped && s.state.bootstrapped && s.state.lastFP == ""
    ensures s.reply.Checked? ==> state.bootstrapped && s.state.bootstrapped
    ensures s.reply.Bootstrapped? || s.reply.Checked? ==> s.state.orderList == Mapped(s.reply.data, SnapshotOf)
  {
    var normalized := NormalizeAll(Merged(all));
    var current := Mapped(normalized, SnapshotOf);
    var step := Advance(state, current, fmt3);
    AdvanceFacts(state, current, fmt3);
    if !state.bootstrapped then Served(Bootstrapped(normalized), step.state)
    else if Posts(state, current, fmt3) && (PricesCall(current, calls).Err? || SlackCall(env, calls).Err?) then
      Served(ServerError, state)
    else Served(Checked(|step.notice| > 0, normalized), step.state)
  }

  /** What a normal run after the fetch answers: 500 exactly when it posts
      and a call it makes rejects; otherwise the normalised merge of the
      rows, and a check reports a post exactly when it posts. */
  lemma CheckFacts(state: State, all: seq<Js.Value>, env: Env, calls: Calls, fmt3: real -> string)
    ensures var current := Mapped(NormalizeAll(Merged(all)), SnapshotOf);
      var s := Check(state, all, env, calls, fmt3);
      && (s.reply.ServerError? <==> Posts(state, current, fmt3) && (calls.prices.Err? || (env.slackToken != "" && calls.slack.Err?)))
      && (s.reply.Bootstrapped? || s.reply.Checked? ==> s.reply.data == NormalizeAll(Merged(all)))
      && (s.reply.Checked? ==> (s.reply.notified <==> Posts(state, current, fmt3)))
  {
    var current := Mapped(NormalizeAll(Merged(all)), SnapshotOf);
    AdvanceFacts(state, current, fmt3);
    if Posts(state, current, fmt3) {
      PostsHasOrders(state, current, fmt3);
    }
  }

  /** The snapshots a normal run works on: every uid's rows, merged and normalised. */
  function Current(uids: seq<string>, limit: real, upstream: Upstream): seq<Snapshot> {
    Mapped(NormalizeAll(Merged(Concat(PerUid(uids, limit, upstream)))), SnapshotOf)
  }

  /** A normal run answers 500, leaving the cache alone, exactly when some
      target uid's `fetch` rejects or its `content` is not an array, or when
      the run posts and the prices `fetch` or the Slack `fetch` rejects.
      Otherwise the answer's data are the normalised merge of every uid's
      rows, and a check reports a post exactly when it posts. */
  lemma HandleFetchOutcome(req: Request, env: Env, state: State, upstream: Upstream, calls: Calls, fmt3: real -> string)
    requires Gate.Admits(env.internalApiKey, req.apiKey) && req.testNotification != Some("true")
    requires |CommaList(env.targetUids)| > 0
    ensures var targets := CommaList(env.targetUids);
      var limit := Limit(req.limit);
      var current := Current(targets, limit, upstream);
      var s := Handle(req, env, state, upstream, calls, fmt3);
      && (s.reply.ServerError? <==>
            || (exists i :: 0 <= i < |targets| && !Answered(targets[i], limit, upstream))
            || (Posts(state, current, fmt3) && (calls.prices.Err? || (env.slackToken != "" && calls.slack.Err?))))
      && (s.reply.ServerError? ==> s.state == state)
      && (s.reply.Bootstrapped? || s.reply.Checked? ==>
            s.reply.data == NormalizeAll(Merged(Concat(PerUid(targets, limit, upstream)))))
      && (s.reply.Checked? ==> (s.reply.notified <==> Posts(state, current, fmt3)))
  {
    var targets := CommaList(env.targetUids);
    var limit := Limit(req.limit);
    FetchComplete(targets, limit, upstream);
    var fetched := Fetch(targets, limit, upstream);
    if fetched.Ok? {
      assert fetched.value == Concat(PerUid(targets, limit, upstream));
      CheckFacts(state, fetched.value, env, calls, fmt3);
    }
  }

  /** A run that posts has orders now, so it does fetch the prices. */
  lemma PostsHasOrders(state: State, current: seq<Snapshot>, fmt3: real -> string)
    requires Posts(state, current, fmt3)
    ensures |current| > 0
  {
  }

  /** A test run never changes the cache. It answers 500 exactly when a call
      it makes rejects: on an empty cache the Slack post, otherwise the
      prices lookup or the Slack post. */
  lemma HandleTestOutcome(req: Request, env: Env, state: State, upstream: Upstream, calls: Calls, fmt3: real -> string)
    requires Gate.Admits(env.internalApiKey, req.apiKey) && req.testNotification == Some("true")
    ensures var s := Handle(req, env, state, upstream, calls, fmt3);
      && s.state == state
      && (s.reply.ServerError? <==> (env.slackToken != "" && calls.slack.Err?) || (|state.orderList| > 0 && calls.prices.Err?))
      && (s.reply.EmptyCache? <==> |state.orderList| == 0 && !s.reply.ServerError?)
      && (s.reply.Preview? <==> |state.orderList| > 0 && !s.reply.ServerError?)
  {
  }

  /** The test preview groups every cached order, as added, under its
      trader, and its groups hold added rows only. */
  lemma PreviewCoversCache(state: State, u: string)
    requires |state.orderList| > 0
    ensures var g := Merge.Find(Groups(AllAdded(state.orderList)), u);
      g.Some? ==> g.value.changed == [] && |g.value.added| > 0
    ensures forall i :: 0 <= i < |state.orderList| ==>
      var g := Merge.Find(Groups(AllAdded(state.orderList)), GroupUid(state.orderList[i]));
      g.Some? && state.orderList[i] in g.value.added
  {
    var rows := AllAdded(state.orderList);
    GroupsFacts(rows);
    AllFlagged(rows);
    forall i | 0 <= i < |state.orderList|
      ensures var g := Merge.Find(Groups(rows), GroupUid(state.orderList[i]));
        g.Some? && state.orderList[i] in g.value.added
    {
      CachedInOwnGroup(state.orderList, i);
    }
  }

  /** A cached order is among the added rows of its trader's preview group. */
  lemma CachedInOwnGroup(xs: seq<Snapshot>, i: int)
    requires 0 <= i < |xs|
    ensures var g := Merge.Find(Groups(AllAdded(xs)), GroupUid(xs[i]));
      g.Some? && xs[i] in g.value.added
  {
    var rows := AllAdded(xs);
    GroupsFacts(rows);
    assert rows[i] == (xs[i], true);
    InOwnGroup(rows, i);
  }

  /** Every row is listed, under its flag, in its own trader's rows. */
  lemma {:induction false} InOwnGroup(rows: seq<(Snapshot, bool)>, i: int)
    requires 0 <= i < |rows|
    ensures rows[i].0 in Flagged(Of(rows, GroupUid(rows[i].0)), rows[i].1)
    decreases |rows|
  {
    var init := rows[..|rows| - 1];
    var x := rows[|rows| - 1];
    var u := GroupUid(rows[i].0);
    var ys := Of(init, u);
    var b := rows[i].1;
    if i == |rows| - 1 {
      assert Of(rows, u) == ys + [x];
      assert (ys + [x])[..|ys|] == ys;
    } else {
      assert init[i] == rows[i];
      InOwnGroup(init, i);
      if GroupUid(x.0) == u {
        assert Of(rows, u) == ys + [x];
        assert (ys + [x])[..|ys|] == ys;
        assert Flagged(ys + [x], b) == Flagged(ys, b) + (if x.1 == b then [x.0] else []);
      } else {
        assert Of(rows, u) == ys;
      }
    }
  }

  /** Rows taken from a list of added rows are all added. */
  lemma {:induction false} AllFlagged(rows: seq<(Snapshot, bool)>)
    requires forall i :: 0 <= i < |rows| ==> rows[i].1
    ensures forall u :: Flagged(Of(rows, u), false) == [] && |Flagged(Of(rows, u), true)| == |Of(rows, u)|
    decreases |rows|
  {
    if |rows| > 0 {
      var init := rows[..|rows| - 1];
      var x := rows[|rows| - 1];
      AllFlagged(init);
      forall u ensures Flagged(Of(rows, u), false) == [] && |Flagged(Of(rows, u), true)| == |Of(rows, u)| {
        var ys := Of(init, u);
        assert Flagged(ys, false) == [] && |Flagged(ys, true)| == |ys|;
        assert x.1;
        if GroupUid(x.0) == u {
          assert Of(rows, u) == ys + [x];
          assert (ys + [x])[..|ys|] == ys;
        } else {
          assert Of(rows, u) == ys;
        }
      }
    }
  }

  // ------------------------------------------------------------ line figures

  /** `calcPnl`: the price move, negated for a short; any other mode counts as long. */
  function CalcPnl(mode: string, open: real, market: real, amount: real): (p: real)
    ensures mode != "short" ==> p == Arith.Move(open, market, amount)
    ensures mode == "short" ==> p == -Arith.Move(open, market, amount)
  {
    var diff := if mode == "short" then open - market else market - open;
    assert mode == "short" ==> diff * amount == -((market - open) * amount);
    diff * amount
  }

  /** A positive amount makes the PnL positive exactly when the price moved the position's way. */
  lemma PnlDirection(mode: string, open: real, market: real, amount: real)
    requires amount > 0.0
    ensures mode == "short" ==> (CalcPnl(mode, open, market, amount) > 0.0 <==> market < open)
    ensures mode != "short" ==> (CalcPnl(mode, open, market, amount) > 0.0 <==> market > open)
    ensures CalcPnl(mode, open, market, amount) == 0.0 <==> market == open
  {
  }

  /** `calcRoiPct`: 0 without a positive margin, else the PnL as a percentage of the margin. */
  function CalcRoiPct(pnl: real, margin: real): (r: real)
    ensures margin <= 0.0 ==> r == 0.0
    ensures margin > 0.0 ==> r * margin == pnl * 100.0
  {
    if margin <= 0.0 then 0.0 else pnl / margin * 100.0
  }

  /** `pctChangeVsOpen`: 0 without a positive open price, else the move as a
      percentage of the open price, with the sign of the move. */
  function PctChangeVsOpen(open: real, market: real): (r: real)
    ensures open <= 0.0 ==> r == 0.0
    ensures open > 0.0 ==> r * open == (market - open) * 100.0
    ensures open > 0.0 ==> (r > 0.0 <==> market > open) && (r < 0.0 <==> market < open)
  {
    if open <= 0.0 then 0.0 else (market - open) / open * 100.0
  }

  /** The market price a notice line uses: `safeNum(priceMap[r.symbolUS] || 0)`. */
  function MarketPrice(r: Snapshot, prices: Js.Value): real {
    Js.SafeNum(Js.Or(Js.Get(prices, r.symbolUS), Js.Num(0.0)))
  }

  /** A row without a price is shown at market price 0: a long then shows
      the whole notional as its loss and a 100% drop from the open price. */
  lemma UnpricedRowShowsFullLoss(r: Snapshot, prices: Js.Value)
    requires !Js.Truthy(Js.Get(prices, r.symbolUS)) && r.mode != "short" && r.openPrice > 0.0
    ensures MarketPrice(r, prices) == 0.0
    ensures CalcPnl(r.mode, r.openPrice, MarketPrice(r, prices), r.amount) == -(r.openPrice * r.amount)
    ensures PctChangeVsOpen(r.openPrice, MarketPrice(r, prices)) == -100.0
  {
    assert (0.0 - r.openPrice) / r.openPrice == -1.0;
  }
}
