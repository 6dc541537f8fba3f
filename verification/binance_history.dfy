/** `fetchOrdersByPortfolioAllPages` and `normalizeOrderBinance` of the
    position-history exporter.

    The walk asks for pages 1, 2, 3, ... of one portfolio, tags every record
    with the trader, and stops on an empty page, a page shorter than the page
    size, or once it holds at least the (truthy) `total` the page reports.
    The upstream maps a page number to the parsed response, or `None` when
    `postJson` threw, which aborts the walk. There is no page ceiling, so the
    model carries fuel: one unit per iteration. */
module BinanceHistory {
  import opened Outcome
  import Js
  import BinanceTraders
  import Csv

  datatype End = Finished | Threw | OutOfFuel

  datatype Walk = Walk(rows: seq<Js.Value>, pages: seq<nat>, end: End)

  type Upstream = nat -> Option<Js.Value>

  /** `(data?.data || {})` */
  function Body(data: Js.Value): Js.Value {
    Js.Or(Js.Get(data, "data"), Js.Obj([]))
  }

  /** `Array.isArray(d.list) ? d.list : []` */
  function List(data: Js.Value): seq<Js.Value> {
    var l := Js.Get(Body(data), "list");
    if l.Arr? then l.items else []
  }

  /** `Number(d.total ?? 0)`; `None` is NaN. */
  function Total(data: Js.Value): Option<real> {
    Js.ToNumber(Js.Coalesce(Js.Get(Body(data), "total"), Js.Num(0.0)))
  }

  /** `total && got >= total` */
  predicate Reached(total: Option<real>, got: nat) {
    total.Some? && total.value != 0.0 && got as real >= total.value
  }

  /** `{ ...o, _portfolioId, _uid, _nickname }` */
  function Tag(t: BinanceTraders.Trader, o: Js.Value): Js.Value {
    var base := Js.Obj(Js.FieldsOf(o));
    Js.With(Js.With(Js.With(base, "_portfolioId", t.portfolioId), "_uid", t.uid), "_nickname", t.nickname)
  }

  /** A tagged record carries the trader's three fields, overriding the
      record's own, and every other field of the record unchanged. */
  lemma TagFields(t: BinanceTraders.Trader, o: Js.Value, k: string)
    ensures Tag(t, o).Obj?
    ensures Js.Get(Tag(t, o), "_portfolioId") == t.portfolioId
    ensures Js.Get(Tag(t, o), "_uid") == t.uid
    ensures Js.Get(Tag(t, o), "_nickname") == t.nickname
    ensures k != "_portfolioId" && k != "_uid" && k != "_nickname" ==> Js.Get(Tag(t, o), k) == Js.Get(o, k)
  {
    var base := Js.Obj(Js.FieldsOf(o));
    assert |"_portfolioId"| != |"_uid"| && |"_uid"| != |"_nickname"| && |"_nickname"| != |"_portfolioId"|;
    WithThree(base, "_portfolioId", t.portfolioId, "_uid", t.uid, "_nickname", t.nickname, k);
  }

  /** Three assignments to distinct keys, one after the other. */
  lemma WithThree(o: Js.Value, k1: string, v1: Js.Value, k2: string, v2: Js.Value, k3: string, v3: Js.Value, k: string)
    requires k1 != k2 && k2 != k3 && k1 != k3
    ensures var r := Js.With(Js.With(Js.With(o, k1, v1), k2, v2), k3, v3);
      && r.Obj? && Js.Get(r, k1) == v1 && Js.Get(r, k2) == v2 && Js.Get(r, k3) == v3
      && (k != k1 && k != k2 && k != k3 ==> Js.Get(r, k) == Js.Get(o, k))
  {
  }

  function TagAll(t: BinanceTraders.Trader, list: seq<Js.Value>): (rows: seq<Js.Value>) {
    seq(|list|, i requires 0 <= i < |list| => Tag(t, list[i]))
  }

  function Prepend(rows: seq<Js.Value>, page: nat, w: Walk): Walk {
    if w.end.Threw? then Walk([], [page] + w.pages, Threw)
    else Walk(rows + w.rows, [page] + w.pages, w.end)
  }

  /** What the loop does after the answered page `data`, with `got` records
      held before it: stop, or go on holding `got` plus the page. */
  datatype Move = Stop | Go(held: nat)

  /** `if (!list.length) break; ...; if (list.length < pageSize) break; if (total && got >= total) break;` */
  function MoveAfter(pageSize: int, data: Js.Value, got: nat): Move {
    var list := List(data);
    if |list| == 0 || |list| < pageSize || Reached(Total(data), got + |list|) then Stop
    else Go(got + |list|)
  }

  /** The loop over any stopping rule `decide`, from `pageNumber == page`
      with `got` records already gathered. An empty page that stops the walk
      adds nothing, as tagging it gives nothing. */
  function Walker(t: BinanceTraders.Trader, decide: (Js.Value, nat) -> Move, up: Upstream, fuel: nat, page: nat, got: nat): Walk
    decreases fuel
  {
    if fuel == 0 then Walk([], [], OutOfFuel)
    else match up(page)
      case None => Walk([], [page], Threw)
      case Some(data) =>
        match decide(data, got)
        case Stop => Walk(TagAll(t, List(data)), [page], Finished)
        case Go(held) => Prepend(TagAll(t, List(data)), page, Walker(t, decide, up, fuel - 1, page + 1, held))
  }

  /** The exporter's loop: the walker under `MoveAfter`. */
  function Loop(t: BinanceTraders.Trader, pageSize: int, up: Upstream, fuel: nat, page: nat, got: nat): Walk {
    Walker(t, (data: Js.Value, held: nat) => MoveAfter(pageSize, data, held), up, fuel, page, got)
  }

  /** `fetchOrdersByPortfolioAllPages(trader, pageSize)` */
  function FetchAll(t: BinanceTraders.Trader, pageSize: int, up: Upstream, fuel: nat): Walk {
    Loop(t, pageSize, up, fuel, 1, 0)
  }

  /** The rows the responses to `pages` contribute, in order. */
  function Gathered(t: BinanceTraders.Trader, up: Upstream, pages: seq<nat>): seq<Js.Value>
    decreases |pages|
  {
    if |pages| == 0 then []
    else (match up(pages[0]) case None => [] case Some(d) => TagAll(t, List(d))) + Gathered(t, up, pages[1..])
  }

  /** The walk asks for consecutive page numbers, at most one per unit of
      fuel, and uses all of it only when it runs out. */
  lemma {:induction false} PagesFacts(t: BinanceTraders.Trader, decide: (Js.Value, nat) -> Move, up: Upstream, fuel: nat, page: nat, got: nat)
    ensures var w := Walker(t, decide, up, fuel, page, got);
      && |w.pages| <= fuel
      && (w.end.OutOfFuel? ==> |w.pages| == fuel)
      && (fuel > 0 ==> |w.pages| > 0)
      && (forall k :: 0 <= k < |w.pages| ==> w.pages[k] == page + k)
    decreases fuel
  {
    if fuel > 0 && up(page).Some? {
      var data := up(page).value;
      if decide(data, got).Go? {
        var w := Walker(t, decide, up, fuel, page, got);
        var held := decide(data, got).held;
        var rest := Walker(t, decide, up, fuel - 1, page + 1, held);
        PagesFacts(t, decide, up, fuel - 1, page + 1, held);
        assert w.pages == [page] + rest.pages;
        forall k | 0 <= k < |w.pages| ensures w.pages[k] == page + k {
          if k > 0 {
            assert w.pages[k] == rest.pages[k - 1];
          }
        }
      }
    }
  }

  /** Unless it threw, the walk's rows are the tagged pages it received, in
      order; a thrown walk keeps nothing, and its last request is the one
      that threw. */
  lemma RowsFacts(t: BinanceTraders.Trader, decide: (Js.Value, nat) -> Move, up: Upstream, fuel: nat, page: nat, got: nat)
    ensures var w := Walker(t, decide, up, fuel, page, got);
      && (w.end.Threw? ==> w.rows == [] && |w.pages| > 0 && up(w.pages[|w.pages| - 1]).None?)
      && (!w.end.Threw? ==> w.rows == Gathered(t, up, w.pages))
  {
    ThrownFacts(t, decide, up, fuel, page, got);
    KeptFacts(t, decide, up, fuel, page, got);
  }

  lemma {:induction false} ThrownFacts(t: BinanceTraders.Trader, decide: (Js.Value, nat) -> Move, up: Upstream, fuel: nat, page: nat, got: nat)
    ensures var w := Walker(t, decide, up, fuel, page, got);
      w.end.Threw? ==> w.rows == [] && |w.pages| > 0 && up(w.pages[|w.pages| - 1]).None?
    decreases fuel
  {
    if fuel > 0 && up(page).Some? {
      var data := up(page).value;
      if decide(data, got).Go? {
        var held := decide(data, got).held;
        var w := Walker(t, decide, up, fuel, page, got);
        var rest := Walker(t, decide, up, fuel - 1, page + 1, held);
        ThrownFacts(t, decide, up, fuel - 1, page + 1, held);
        assert w == Prepend(TagAll(t, List(data)), page, rest);
        if rest.end.Threw? {
          assert w.pages[|w.pages| - 1] == rest.pages[|rest.pages| - 1];
        }
      }
    }
  }

  lemma {:induction false} KeptFacts(t: BinanceTraders.Trader, decide: (Js.Value, nat) -> Move, up: Upstream, fuel: nat, page: nat, got: nat)
    ensures var w := Walker(t, decide, up, fuel, page, got);
      !w.end.Threw? ==> w.rows == Gathered(t, up, w.pages)
    decreases fuel
  {
    if fuel > 0 && up(page).Some? {
      var data := up(page).value;
      var rows := TagAll(t, List(data));
      if decide(data, got).Stop? {
        GatheredCons(t, up, page, []);
      } else {
        var held := decide(data, got).held;
        var rest := Walker(t, decide, up, fuel - 1, page + 1, held);
        KeptFacts(t, decide, up, fuel - 1, page + 1, held);
        assert Walker(t, decide, up, fuel, page, got) == Prepend(rows, page, rest);
        GatheredCons(t, up, page, rest.pages);
      }
    }
  }

  lemma GatheredCons(t: BinanceTraders.Trader, up: Upstream, p: nat, ps: seq<nat>)
    ensures Gathered(t, up, [p] + ps)
            == (match up(p) case None => [] case Some(d) => TagAll(t, List(d))) + Gathered(t, up, ps)
  {
    assert ([p] + ps)[1..] == ps;
  }

  /** A rule that only goes on after a page of at least `pageSize` records. */
  ghost predicate GoesOnFull(decide: (Js.Value, nat) -> Move, pageSize: int) {
    forall data, got :: decide(data, got).Go? ==> |List(data)| >= pageSize
  }

  /** The page asked for `k`-th was answered with at least `pageSize` records. */
  predicate FullAt(up: Upstream, pages: seq<nat>, k: int, pageSize: int)
    requires 0 <= k < |pages|
  {
    up(pages[k]).Some? && |List(up(pages[k]).value)| >= pageSize
  }

  /** Under such a rule, every page but the last one asked for was answered and full. */
  lemma {:induction false} FullBeforeLast(t: BinanceTraders.Trader, decide: (Js.Value, nat) -> Move, pageSize: int, up: Upstream, fuel: nat, page: nat, got: nat)
    requires GoesOnFull(decide, pageSize)
    ensures var w := Walker(t, decide, up, fuel, page, got);
      forall k :: 0 <= k < |w.pages| - 1 ==> FullAt(up, w.pages, k, pageSize)
    decreases fuel
  {
    if fuel > 0 && up(page).Some? {
      var data := up(page).value;
      if decide(data, got).Go? {
        var w := Walker(t, decide, up, fuel, page, got);
        var held := decide(data, got).held;
        var rest := Walker(t, decide, up, fuel - 1, page + 1, held);
        FullBeforeLast(t, decide, pageSize, up, fuel - 1, page + 1, held);
        assert forall j :: 0 <= j < |rest.pages| - 1 ==> FullAt(up, rest.pages, j, pageSize) by {
          assert var w' := Walker(t, decide, up, fuel - 1, page + 1, held);
            forall j :: 0 <= j < |w'.pages| - 1 ==> FullAt(up, w'.pages, j, pageSize);
        }
        assert w.pages == [page] + rest.pages;
        forall k | 0 <= k < |w.pages| - 1
          ensures FullAt(up, w.pages, k, pageSize)
        {
          if k > 0 {
            assert FullAt(up, rest.pages, k - 1, pageSize);
            assert w.pages[k] == rest.pages[k - 1];
          } else {
            assert w.pages[k] == page;
          }
        }
      }
    }
  }

  /** The exporter's walk from page 1: consecutive pages from 1, at most one
      per unit of fuel; its rows are the tagged pages it received unless it
      threw, when it keeps nothing; every page but the last was full. */
  lemma FetchAllFacts(t: BinanceTraders.Trader, pageSize: int, up: Upstream, fuel: nat)
    ensures var w := FetchAll(t, pageSize, up, fuel);
      && |w.pages| <= fuel
      && (forall k :: 0 <= k < |w.pages| ==> w.pages[k] == k + 1)
      && (w.end.Threw? ==> w.rows == [] && up(w.pages[|w.pages| - 1]).None?)
      && (!w.end.Threw? ==> w.rows == Gathered(t, up, w.pages))
      && (forall k :: 0 <= k < |w.pages| - 1 ==> FullAt(up, w.pages, k, pageSize))
  {
    var decide := (data: Js.Value, held: nat) => MoveAfter(pageSize, data, held);
    PagesFacts(t, decide, up, fuel, 1, 0);
    RowsFacts(t, decide, up, fuel, 1, 0);
    FullBeforeLast(t, decide, pageSize, up, fuel, 1, 0);
  }

  /** Every response reports a numeric total in (0, cap]. */
  ghost predicate TotalsAtMost(up: Upstream, cap: real) {
    forall p :: up(p).Some? ==> Total(up(p).value).Some? && 0.0 < Total(up(p).value).value <= cap
  }

  /** `held` records after `pages` full pages. */
  lemma FullPages(held: nat, pages: nat, pageSize: nat, list: nat)
    requires held >= pages * pageSize && list >= pageSize
    ensures held + list >= (pages + 1) * pageSize
  {
  }

  /** A rule that goes on only after a page of at least `pageSize` records
      that leaves fewer than `cap` held, holding exactly those. */
  ghost predicate GoesOnBelow(decide: (Js.Value, nat) -> Move, up: Upstream, pageSize: nat, cap: real) {
    forall p: nat, got: nat :: up(p).Some? && decide(up(p).value, got).Go? ==>
      && |List(up(p).value)| >= pageSize
      && decide(up(p).value, got).held == got + |List(up(p).value)|
      && ((got + |List(up(p).value)|) as real) < cap
  }

  /** The exporter's rule is such a rule when every total is at most `cap`:
      it goes on only while the total is not reached. */
  lemma MoveAfterBelow(pageSize: nat, up: Upstream, cap: real)
    requires TotalsAtMost(up, cap)
    ensures GoesOnBelow((data: Js.Value, held: nat) => MoveAfter(pageSize, data, held), up, pageSize, cap)
  {
  }

  /** With totals of at most `cap`, a page is only asked for while fewer
      than `cap` records are held: `done` pages before `page` are full,
      the walk never asks past the first `⌈cap / pageSize⌉`, and that much
      fuel always suffices. */
  lemma PagesWithinTotal(t: BinanceTraders.Trader, pageSize: nat, up: Upstream, fuel: nat, done: nat, got: nat, cap: real)
    requires pageSize >= 1 && TotalsAtMost(up, cap)
    requires got >= done * pageSize && ((done * pageSize) as real) < cap
    ensures var w := Loop(t, pageSize, up, fuel, done + 1, got);
      && (|w.pages| > 0 ==> (((done + |w.pages| - 1) * pageSize) as real) < cap)
      && (((done + fuel) * pageSize) as real >= cap ==> !w.end.OutOfFuel?)
  {
    MoveAfterBelow(pageSize, up, cap);
    WithinCap(t, (data: Js.Value, held: nat) => MoveAfter(pageSize, data, held), pageSize, up, fuel, done, got, cap);
    EndsWithinCap(t, (data: Js.Value, held: nat) => MoveAfter(pageSize, data, held), pageSize, up, fuel, done, got, cap);
  }

  /** The pages asked for never go past the first whose full predecessors
      already reach `cap`. */
  lemma {:induction false} WithinCap(t: BinanceTraders.Trader, decide: (Js.Value, nat) -> Move, pageSize: nat, up: Upstream,
                                     fuel: nat, done: nat, got: nat, cap: real)
    requires pageSize >= 1 && GoesOnBelow(decide, up, pageSize, cap)
    requires got >= done * pageSize && ((done * pageSize) as real) < cap
    ensures var w := Walker(t, decide, up, fuel, done + 1, got);
      |w.pages| > 0 ==> (((done + |w.pages| - 1) * pageSize) as real) < cap
    decreases fuel
  {
    if fuel > 0 && up(done + 1).Some? {
      var data := up(done + 1).value;
      if decide(data, got).Go? {
        var n := |List(data)|;
        assert n >= pageSize && decide(data, got).held == got + n && ((got + n) as real) < cap;
        FullPages(got, done, pageSize, n);
        var w := Walker(t, decide, up, fuel, done + 1, got);
        var rest := Walker(t, decide, up, fuel - 1, done + 2, got + n);
        WithinCap(t, decide, pageSize, up, fuel - 1, done + 1, got + n, cap);
        assert |w.pages| == |rest.pages| + 1;
        if |rest.pages| > 0 {
          assert done + |w.pages| - 1 == (done + 1) + |rest.pages| - 1;
        }
      }
    }
  }

  /** Fuel for every page up to the one whose full predecessors reach `cap`
      lets the walk end. */
  lemma {:induction false} EndsWithinCap(t: BinanceTraders.Trader, decide: (Js.Value, nat) -> Move, pageSize: nat, up: Upstream,
                                         fuel: nat, done: nat, got: nat, cap: real)
    requires pageSize >= 1 && GoesOnBelow(decide, up, pageSize, cap)
    requires got >= done * pageSize && ((done * pageSize) as real) < cap
    ensures var w := Walker(t, decide, up, fuel, done + 1, got);
      ((done + fuel) * pageSize) as real >= cap ==> !w.end.OutOfFuel?
    decreases fuel
  {
    if fuel > 0 && up(done + 1).Some? {
      var data := up(done + 1).value;
      if decide(data, got).Go? {
        var n := |List(data)|;
        assert n >= pageSize && decide(data, got).held == got + n && ((got + n) as real) < cap;
        FullPages(got, done, pageSize, n);
        var w := Walker(t, decide, up, fuel, done + 1, got);
        var rest := Walker(t, decide, up, fuel - 1, done + 2, got + n);
        EndsWithinCap(t, decide, pageSize, up, fuel - 1, done + 1, got + n, cap);
        assert w.end == rest.end;
        assert done + fuel == (done + 1) + (fuel - 1);
      }
    }
  }

  /** From page 1 with totals of at most `cap`: at most `⌈cap / pageSize⌉`
      pages are asked for, and that much fuel always lets the walk end. */
  lemma RequestBound(t: BinanceTraders.Trader, pageSize: nat, up: Upstream, fuel: nat, cap: real)
    requires pageSize >= 1 && cap > 0.0 && TotalsAtMost(up, cap)
    ensures var w := FetchAll(t, pageSize, up, fuel);
      && ((((|w.pages| - 1) * pageSize) as real) < cap)
      && ((fuel * pageSize) as real >= cap ==> !w.end.OutOfFuel?)
  {
    PagesWithinTotal(t, pageSize, up, fuel, 0, 0, cap);
  }

  // ---------------------------------------------------------------- rows

  /** The trader's three fields, as every collected record carries them. */
  predicate TaggedBy(t: BinanceTraders.Trader, r: Js.Value) {
    Js.Get(r, "_portfolioId") == t.portfolioId && Js.Get(r, "_uid") == t.uid && Js.Get(r, "_nickname") == t.nickname
  }

  lemma {:induction false} GatheredTagged(t: BinanceTraders.Trader, up: Upstream, pages: seq<nat>)
    ensures forall r :: r in Gathered(t, up, pages) ==> TaggedBy(t, r)
    decreases |pages|
  {
    if |pages| > 0 {
      GatheredTagged(t, up, pages[1..]);
      if up(pages[0]).Some? {
        var list := List(up(pages[0]).value);
        forall r | r in TagAll(t, list) ensures TaggedBy(t, r) {
          var i :| 0 <= i < |list| && TagAll(t, list)[i] == r;
          TagFields(t, list[i], "");
        }
      }
    }
  }

  /** Every record the walk collects carries the trader's `_portfolioId`,
      `_uid` and `_nickname`, whatever the record itself held under them. */
  lemma FetchAllTagged(t: BinanceTraders.Trader, pageSize: int, up: Upstream, fuel: nat)
    ensures forall r :: r in FetchAll(t, pageSize, up, fuel).rows ==> TaggedBy(t, r)
  {
    FetchAllFacts(t, pageSize, up, fuel);
    GatheredTagged(t, up, FetchAll(t, pageSize, up, fuel).pages);
  }

  /** `CSV_HEADERS` */
  const Headers: seq<string> := [
    "portfolioId", "uid", "nickname", "id", "symbol", "type", "side", "isolated", "status",
    "avgCost", "avgClosePrice", "closingPnl", "closedVolume", "maxOpenInterest", "opened", "closed", "updateTime"]

  /** The record property each column is read from. */
  const Sources: seq<string> := [
    "_portfolioId", "_uid", "_nickname", "id", "symbol", "type", "side", "isolated", "status",
    "avgCost", "avgClosePrice", "closingPnl", "closedVolume", "maxOpenInterest", "opened", "closed", "updateTime"]

  /** `normalizeOrderBinance(o)`: every column is the record's property, or `""` when that is nullish. */
  function NormalizeOrder(o: Js.Value): Js.Value {
    Js.Record(Headers, seq(|Headers|, i requires 0 <= i < |Headers| => Js.Coalesce(Js.Get(o, Sources[i]), Js.Str(""))))
  }

  lemma HeadersDistinct()
    ensures Js.DistinctKeys(Headers)
  {
    HeadersApart();
    Js.DistinctByEnds(Headers);
  }

  lemma HeadersApart()
    ensures forall i, j :: 0 <= i < j < |Headers| ==> Js.Apart(Headers[i], Headers[j])
  {
  }

  /** Column `Headers[i]` of a normalised record holds its `Sources[i]`
      property, or `""` in place of `null` and `undefined`. */
  lemma NormalizeOrderColumn(o: Js.Value, i: int)
    requires 0 <= i < |Headers|
    ensures Js.Get(NormalizeOrder(o), Headers[i]) == Js.Coalesce(Js.Get(o, Sources[i]), Js.Str(""))
    ensures !Js.Nullish(Js.Get(NormalizeOrder(o), Headers[i]))
  {
    HeadersDistinct();
    Js.RecordGet(Headers, seq(|Headers|, i requires 0 <= i < |Headers| => Js.Coalesce(Js.Get(o, Sources[i]), Js.Str(""))), i);
  }

  /** A collected record's row names its trader in the first three columns. */
  lemma TaggedRow(t: BinanceTraders.Trader, r: Js.Value)
    requires TaggedBy(t, r)
    ensures Js.Get(NormalizeOrder(r), "portfolioId") == Js.Coalesce(t.portfolioId, Js.Str(""))
    ensures Js.Get(NormalizeOrder(r), "uid") == Js.Coalesce(t.uid, Js.Str(""))
    ensures Js.Get(NormalizeOrder(r), "nickname") == Js.Coalesce(t.nickname, Js.Str(""))
  {
    NormalizeOrderColumn(r, 0);
    NormalizeOrderColumn(r, 1);
    NormalizeOrderColumn(r, 2);
  }

  /** The records of every trader in turn: a trader whose walk threw adds
      nothing. The worker pool interleaves traders; here they run in order. */
  function Orders(traders: seq<BinanceTraders.Trader>, pageSize: int, ups: BinanceTraders.Trader -> Upstream, fuel: nat): seq<Js.Value>
    decreases |traders|
  {
    if |traders| == 0 then []
    else FetchAll(traders[0], pageSize, ups(traders[0]), fuel).rows + Orders(traders[1..], pageSize, ups, fuel)
  }

  /** Every collected record was tagged by one of the traders. */
  lemma {:induction false} OrdersTagged(traders: seq<BinanceTraders.Trader>, pageSize: int, ups: BinanceTraders.Trader -> Upstream, fuel: nat)
    ensures forall r :: r in Orders(traders, pageSize, ups, fuel) ==> exists k :: 0 <= k < |traders| && TaggedBy(traders[k], r)
    decreases |traders|
  {
    if |traders| > 0 {
      FetchAllTagged(traders[0], pageSize, ups(traders[0]), fuel);
      OrdersTagged(traders[1..], pageSize, ups, fuel);
      forall r | r in Orders(traders, pageSize, ups, fuel) ensures exists k :: 0 <= k < |traders| && TaggedBy(traders[k], r) {
        if r in FetchAll(traders[0], pageSize, ups(traders[0]), fuel).rows {
          assert TaggedBy(traders[0], r);
        } else {
          assert r in Orders(traders[1..], pageSize, ups, fuel);
          var k :| 0 <= k < |traders[1..]| && TaggedBy(traders[1..][k], r);
          assert TaggedBy(traders[k + 1], r);
        }
      }
    }
  }

  /** The text appended to the output file: one normalised row per collected record. */
  function Export(traders: seq<BinanceTraders.Trader>, pageSize: int, ups: BinanceTraders.Trader -> Upstream, fuel: nat): string {
    var orders := Orders(traders, pageSize, ups, fuel);
    Csv.Body(seq(|orders|, i requires 0 <= i < |orders| => NormalizeOrder(orders[i])), Headers)
  }
}
