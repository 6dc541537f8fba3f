/** The Express proxy's `GET /api/orders`: it asks the MEXC copy-trade API
    for the first page of each uid's orders, one uid after the other,
    spreads the content of every successful response into one list, keeps
    the newest record of each order id, and answers the records in the
    shape of `normalizeAndCompute`, most recently opened first. Anything
    thrown on the way (a failed request, a content that cannot be spread, a
    `null` record, a symbol without `replace`) answers 500.

    The upstream is a function from (uid, limit) to the parsed body, `Err`
    standing for an `axios.get` that throws (network error, timeout, a
    status outside 2xx). The `/api/prices` route of the same file is
    `Prices.Handle` with no key. */
module Server {
  import opened Outcome
  import opened Text
  import Js
  import Merge
  import Sorting
  import Arith
  import opened Lists
  import Notification
  import Leader

  /** The uids of `MEXC_LEADER_UIDS`, in the order they are written. */
  const LeaderUidList: seq<string> := [
    "78481146", "89070846", "01249789", "87698388", "57343925", "74785697", "21810967", "22247145",
    "88833523", "40133940", "84277140", "93640617", "76459243", "48673493", "13290625", "48131784"]

  /** `MEXC_LEADER_UIDS`, the comma-separated text of the list. */
  const LeaderUids: string := Join(LeaderUidList, ",")

  // ------------------------------------------------------------ query

  /** `String(req.query.uids || MEXC_LEADER_UIDS || "").split(",").map(s => s.trim()).filter(Boolean)` */
  function Uids(param: Option<string>): (r: seq<string>)
    ensures forall i :: 0 <= i < |r| ==> r[i] != [] && IsTrimmed(r[i]) && ',' !in r[i]
  {
    CommaList(Fallback(param.GetOr(""), LeaderUids))
  }

  /** Without a `uids` parameter (or with an empty one) the sixteen built-in
      uids are asked, in order. */
  lemma UidsDefault(param: Option<string>)
    requires param.None? || param == Some("")
    ensures Uids(param) == LeaderUidList
  {
    CommaListJoin(LeaderUidList);
  }

  /** A comma-separated list in the parameter is asked as it is written. */
  lemma UidsGiven(xs: seq<string>)
    requires |xs| > 0
    requires forall i :: 0 <= i < |xs| ==> xs[i] != [] && IsTrimmed(xs[i]) && ',' !in xs[i]
    ensures Uids(Some(Join(xs, ","))) == xs
  {
    CommaListGiven(xs, LeaderUids);
  }

  /** `Number(req.query.limit || 10)`; `None` is NaN, which is sent as it is. */
  function Limit(param: Option<string>): (r: Option<real>)
    ensures param.None? || param == Some("") ==> r == Some(10.0)
  {
    Js.ToNumber(Js.Or(if param.Some? then Js.Str(param.value) else Js.Undefined, Js.Num(10.0)))
  }

  // ------------------------------------------------------------ fetch loop

  /** `all.push(...rows)`: an array spreads into its items, a string into
      one-character strings, and anything else is not iterable and throws. */
  function Spread(rows: Js.Value): (r: Result<seq<Js.Value>, string>)
    ensures r.Err? <==> !rows.Arr? && !rows.Str?
    ensures rows.Arr? ==> r == Ok(rows.items)
    ensures rows.Str? ==> (r.Ok? && |r.value| == |rows.s| &&
              forall i :: 0 <= i < |rows.s| ==> r.value[i] == Js.Str([rows.s[i]]))
  {
    match rows
    case Arr(items) => Ok(items)
    case Str(s) => Ok(seq(|s|, i requires 0 <= i < |s| => Js.Str([s[i]])))
    case _ => Err("TypeError: rows is not iterable")
  }

  /** What one uid's response adds to `all`: nothing unless
      `data?.success === true`, else the spread of `data.data?.content || []`. */
  function Page(data: Js.Value): (r: Result<seq<Js.Value>, string>)
    ensures !Js.StrictEq(Js.Get(data, "success"), Js.Bool(true)) ==> r == Ok([])
    ensures Js.StrictEq(Js.Get(data, "success"), Js.Bool(true)) ==> r == Spread(Notification.Content(data))
  {
    if Js.StrictEq(Js.Get(data, "success"), Js.Bool(true)) then Spread(Notification.Content(data)) else Ok([])
  }

  /** The rows uid `u` contributes, if its request and spread go through. */
  function Contribution(u: string, limit: Option<real>, upstream: (string, Option<real>) -> Result<Js.Value, string>): Result<seq<Js.Value>, string> {
    match upstream(u, limit)
    case Err(e) => Err(e)
    case Ok(data) => Page(data)
  }

  /** `for (const uid of uids) { ... }`: the uids one after the other, the
      first throw ending the loop. */
  function Gather(uids: seq<string>, limit: Option<real>, upstream: (string, Option<real>) -> Result<Js.Value, string>): (r: Result<seq<Js.Value>, string>)
    decreases |uids|
  {
    if |uids| == 0 then Ok([])
    else
      match Contribution(uids[0], limit, upstream)
      case Err(e) => Err(e)
      case Ok(here) =>
        match Gather(uids[1..], limit, upstream)
        case Err(e) => Err(e)
        case Ok(more) => Ok(here + more)
  }

  /** `x` is one of the rows some uid contributed. */
  predicate FromUid(uids: seq<string>, limit: Option<real>, upstream: (string, Option<real>) -> Result<Js.Value, string>, x: Js.Value) {
    exists k :: 0 <= k < |uids| && Contribution(uids[k], limit, upstream).Ok? && x in Contribution(uids[k], limit, upstream).value
  }

  /** The loop fails exactly when some uid's request or spread throws, and
      otherwise collects exactly the rows the uids contributed. */
  lemma {:induction false} GatherFacts(uids: seq<string>, limit: Option<real>, upstream: (string, Option<real>) -> Result<Js.Value, string>)
    ensures Gather(uids, limit, upstream).Err? <==> exists k :: 0 <= k < |uids| && Contribution(uids[k], limit, upstream).Err?
    ensures Gather(uids, limit, upstream).Ok? ==>
              forall x :: x in Gather(uids, limit, upstream).value <==> FromUid(uids, limit, upstream, x)
    decreases |uids|
  {
    if |uids| > 0 {
      GatherFacts(uids[1..], limit, upstream);
      assert forall k :: 0 <= k < |uids[1..]| ==> uids[1..][k] == uids[k + 1];
      var c := Contribution(uids[0], limit, upstream);
      if (exists k :: 0 <= k < |uids| && Contribution(uids[k], limit, upstream).Err?) && c.Ok? {
        var k :| 0 <= k < |uids| && Contribution(uids[k], limit, upstream).Err?;
        assert k > 0 && Contribution(uids[1..][k - 1], limit, upstream).Err?;
      }
      if Gather(uids, limit, upstream).Ok? {
        var here := c.value;
        var more := Gather(uids[1..], limit, upstream).value;
        forall x
          ensures x in Gather(uids, limit, upstream).value <==> FromUid(uids, limit, upstream, x)
        {
          if x in here {
            assert FromUid(uids, limit, upstream, x);
          } else if x in more {
            var k :| 0 <= k < |uids[1..]| && Contribution(uids[1..][k], limit, upstream).Ok? &&
                     x in Contribution(uids[1..][k], limit, upstream).value;
            assert FromUid(uids, limit, upstream, x);
          }
          if FromUid(uids, limit, upstream, x) {
            var k :| 0 <= k < |uids| && Contribution(uids[k], limit, upstream).Ok? && x in Contribution(uids[k], limit, upstream).value;
            if k > 0 {
              assert FromUid(uids[1..], limit, upstream, x);
            }
          }
        }
      }
    }
  }

  // ------------------------------------------------------------ merge

  /** `!prev || pageTime > (prev.pageTime || prev.openTime || 0)`: a falsy
      record kept so far (a `0`, `false` or `""` row) is always replaced. */
  predicate Newer(o: Js.Value, prev: Js.Value) {
    !Js.Truthy(prev) || Notification.Newer(o, prev)
  }

  /** The de-duplication loop; `o.orderId` of a `null` row throws. */
  function Merged(all: seq<Js.Value>): (r: Result<seq<Js.Value>, string>)
    ensures r.Err? <==> exists i :: 0 <= i < |all| && Js.Nullish(all[i])
  {
    if exists i :: 0 <= i < |all| && Js.Nullish(all[i]) then Err("TypeError: cannot read orderId")
    else Ok(Merge.Values(Merge.Merge(Notification.Keyed(all), Newer)))
  }

  /** One record per order id, every id of the input kept, each survivor one
      of the input records; when every record is an object with a numeric
      recency, each survivor has the greatest recency of its id and is the
      first one seen among equally recent records. */
  lemma MergedFacts(all: seq<Js.Value>)
    requires Merged(all).Ok?
    ensures var d := Merged(all).value;
      && (forall p, q :: 0 <= p < q < |d| ==> Notification.Key(d[p]) != Notification.Key(d[q]))
      && (forall i :: 0 <= i < |all| ==> Merge.KeyIn(d, Notification.Key, Notification.Key(all[i])))
      && (forall p :: 0 <= p < |d| ==> d[p] in all)
    ensures (forall i :: 0 <= i < |all| ==> all[i].Obj? && Notification.Recency(all[i]).Num?) ==>
              forall p :: 0 <= p < |Merged(all).value| ==>
                Merge.WinningRecord(Notification.Keyed(all), Notification.Stamp, all, Merged(all).value[p])
  {
    Merge.KeyedValuesFacts(all, Notification.Key, Newer, Notification.Keyed(all));
    if forall i :: 0 <= i < |all| ==> all[i].Obj? && Notification.Recency(all[i]).Num? {
      MergedWinners(all);
    }
  }

  /** With numeric recencies the survivors are the newest of their ids. */
  lemma MergedWinners(all: seq<Js.Value>)
    requires Merged(all).Ok?
    requires forall i :: 0 <= i < |all| ==> all[i].Obj? && Notification.Recency(all[i]).Num?
    ensures forall p :: 0 <= p < |Merged(all).value| ==>
              Merge.WinningRecord(Notification.Keyed(all), Notification.Stamp, all, Merged(all).value[p])
  {
    var items := Notification.Keyed(all);
    forall i, j | 0 <= i < |items| && 0 <= j < |items|
      ensures Newer(items[i].1, items[j].1) <==> Notification.Stamp(items[i].1) > Notification.Stamp(items[j].1)
    {
      Js.GreaterOnNumbers(Notification.Recency(all[i]).x, Notification.Recency(all[j]).x);
    }
    Merge.ValuesFacts(all, Notification.Key, Newer, Notification.Stamp, items);
  }

  // ------------------------------------------------------------ normalizeAndCompute

  /** One row of `normalizeAndCompute`; the leverage, amount, open price,
      margin and followers are passed through as they came (the `openAtStr`
      text is left out). */
  datatype Order = Order(
    id: Js.Value, trader: Js.Value, symbol: string, mode: string, lev: Js.Value,
    marginMode: string, amount: Js.Value, openPrice: Js.Value, margin: Js.Value,
    followers: Js.Value, openAt: Js.Value, closePrice: Js.Value,
    notional: real, marginPct: real, raw: Js.Value)

  /** The row of record `o`, when its symbol does not make `toPair` throw. */
  function Shape(o: Js.Value): (r: Order)
    ensures r.raw == o && r.id == Notification.Key(o)
    ensures r.symbol == Leader.Pair(Js.Get(o, "symbol"))
    ensures !Js.Truthy(Js.Get(o, "closeAvgPrice")) ==> r.closePrice == Js.Num(0.0)
    ensures Js.Truthy(Js.Get(o, "openTime")) ==> r.openAt == Js.Get(o, "openTime")
    ensures r.notional > 0.0 ==> r.marginPct * r.notional == Leader.Num0(Js.Get(o, "margin")) * 100.0
    ensures r.notional <= 0.0 ==> r.marginPct == 0.0
  {
    Order(
      id := Notification.Key(o),
      trader := Js.Or(Js.Get(o, "traderNickName"), Js.Str("")),
      symbol := Leader.Pair(Js.Get(o, "symbol")),
      mode := Notification.Mode(Js.Get(o, "positionType")),
      lev := Js.Get(o, "leverage"),
      marginMode := Notification.MarginMode(Js.Get(o, "openType")),
      amount := Js.Get(o, "amount"),
      openPrice := Js.Get(o, "openAvgPrice"),
      margin := Js.Get(o, "margin"),
      followers := Js.Get(o, "followers"),
      openAt := Js.Or(Js.Get(o, "openTime"), Js.Num(0.0)),
      closePrice := Js.Or(Js.Get(o, "closeAvgPrice"), Js.Num(0.0)),
      notional := Leader.Notional(o),
      marginPct := Arith.Percent(Leader.Num0(Js.Get(o, "margin")), Leader.Notional(o)),
      raw := o)
  }

  /** `b.openAt - a.openAt`, a non-numeric time counting as 0. */
  function OpenAt(r: Order): real {
    Js.SafeNum(r.openAt)
  }

  /** Some record's symbol makes `toPair` throw. */
  predicate BadSymbol(rows: seq<Js.Value>) {
    exists i :: 0 <= i < |rows| && Leader.PairThrows(Js.Get(rows[i], "symbol"))
  }

  /** `normalizeAndCompute(rows)`: shaped rows, most recently opened first. */
  function NormalizeAll(rows: seq<Js.Value>): (r: Result<seq<Order>, string>)
    ensures r.Err? <==> BadSymbol(rows)
  {
    if BadSymbol(rows) then Err("TypeError: replace is not a function")
    else Ok(Sorting.SortDesc(Mapped(rows, Shape), OpenAt))
  }

  /** The rows are a reordering of the shaped records, newest first, records
      of equal time in input order. */
  lemma NormalizeAllFacts(rows: seq<Js.Value>)
    requires !BadSymbol(rows)
    ensures Sorting.Descending(NormalizeAll(rows).value, OpenAt)
    ensures multiset(NormalizeAll(rows).value) == multiset(Mapped(rows, Shape))
    ensures forall v :: Sorting.WithKey(NormalizeAll(rows).value, OpenAt, v) == Sorting.WithKey(Mapped(rows, Shape), OpenAt, v)
  {
    Sorting.SortDescFacts(Mapped(rows, Shape), OpenAt);
  }

  // ------------------------------------------------------------ route

  datatype Reply = Failed(error: string) | Orders(data: seq<Order>)

  /** The route after the fetch loop: merge, shape and sort, 500 on a throw. */
  function Answer(g: Result<seq<Js.Value>, string>): Reply {
    match g
    case Err(e) => Failed(e)
    case Ok(all) =>
      match Merged(all)
      case Err(e) => Failed(e)
      case Ok(merged) =>
        match NormalizeAll(merged)
        case Err(e) => Failed(e)
        case Ok(data) => Orders(data)
  }

  /** `app.get("/api/orders", ...)` */
  function Handle(uidsParam: Option<string>, limitParam: Option<string>,
                  upstream: (string, Option<real>) -> Result<Js.Value, string>): Reply
  {
    Answer(Gather(Uids(uidsParam), Limit(limitParam), upstream))
  }

  /** A collected `null` record fails the route; an answer is sorted newest
      first, has one row per order id, and holds only shapes of collected
      records. */
  lemma AnswerFacts(all: seq<Js.Value>)
    ensures (exists i :: 0 <= i < |all| && Js.Nullish(all[i])) ==> Answer(Ok(all)).Failed?
    ensures var r := Answer(Ok(all));
      r.Orders? ==>
        && Sorting.Descending(r.data, OpenAt)
        && (forall p, q :: 0 <= p < q < |r.data| ==> r.data[p].id != r.data[q].id)
        && (forall p :: 0 <= p < |r.data| ==> r.data[p] == Shape(r.data[p].raw) && r.data[p].raw in all)
  {
    if Merged(all).Ok? {
      var merged := Merged(all).value;
      MergedFacts(all);
      if !BadSymbol(merged) {
        ReplyFacts(all, merged);
      }
    }
  }

  /** Every answered row is the shape of a record some asked uid contributed. */
  predicate Contributed(data: seq<Order>, uids: seq<string>, limit: Option<real>,
                        upstream: (string, Option<real>) -> Result<Js.Value, string>) {
    forall p :: 0 <= p < |data| ==> data[p] == Shape(data[p].raw) && FromUid(uids, limit, upstream, data[p].raw)
  }

  /** The route fails when a request or a spread throws or a `null` record
      was contributed; an answer is sorted newest first, has one row per
      order id, and holds only shapes of contributed records. */
  lemma HandleFacts(uidsParam: Option<string>, limitParam: Option<string>,
                    upstream: (string, Option<real>) -> Result<Js.Value, string>)
    ensures (exists k :: 0 <= k < |Uids(uidsParam)| && Contribution(Uids(uidsParam)[k], Limit(limitParam), upstream).Err?) ==>
              Handle(uidsParam, limitParam, upstream).Failed?
    ensures (exists x :: FromUid(Uids(uidsParam), Limit(limitParam), upstream, x) && Js.Nullish(x)) ==>
              Handle(uidsParam, limitParam, upstream).Failed?
    ensures var r := Handle(uidsParam, limitParam, upstream);
      r.Orders? ==>
        && Sorting.Descending(r.data, OpenAt)
        && (forall p, q :: 0 <= p < q < |r.data| ==> r.data[p].id != r.data[q].id)
        && Contributed(r.data, Uids(uidsParam), Limit(limitParam), upstream)
  {
    var uids := Uids(uidsParam);
    var limit := Limit(limitParam);
    GatherFacts(uids, limit, upstream);
    var g := Gather(uids, limit, upstream);
    if g.Ok? {
      ContributedAnswer(g.value, uids, limit, upstream);
    }
  }

  lemma ContributedAnswer(all: seq<Js.Value>, uids: seq<string>, limit: Option<real>,
                          upstream: (string, Option<real>) -> Result<Js.Value, string>)
    requires forall x :: x in all <==> FromUid(uids, limit, upstream, x)
    ensures (exists x :: FromUid(uids, limit, upstream, x) && Js.Nullish(x)) ==> Answer(Ok(all)).Failed?
    ensures var r := Answer(Ok(all));
      r.Orders? ==>
        && Sorting.Descending(r.data, OpenAt)
        && (forall p, q :: 0 <= p < q < |r.data| ==> r.data[p].id != r.data[q].id)
        && Contributed(r.data, uids, limit, upstream)
  {
    AnswerFacts(all);
    if exists x :: FromUid(uids, limit, upstream, x) && Js.Nullish(x) {
      var x :| FromUid(uids, limit, upstream, x) && Js.Nullish(x);
      var i :| 0 <= i < |all| && all[i] == x;
    }
  }

  /** The sorted shapes of the merged records: newest first, ids distinct,
      each the shape of one of the collected records. */
  lemma ReplyFacts(all: seq<Js.Value>, merged: seq<Js.Value>)
    requires !BadSymbol(merged)
    requires forall p, q :: 0 <= p < q < |merged| ==> Notification.Key(merged[p]) != Notification.Key(merged[q])
    requires forall p :: 0 <= p < |merged| ==> merged[p] in all
    ensures var data := NormalizeAll(merged).value;
      && Sorting.Descending(data, OpenAt)
      && (forall p, q :: 0 <= p < q < |data| ==> data[p].id != data[q].id)
      && (forall p :: 0 <= p < |data| ==> data[p] == Shape(data[p].raw) && data[p].raw in all)
  {
    var shaped := Mapped(merged, Shape);
    var data := NormalizeAll(merged).value;
    NormalizeAllFacts(merged);
    forall p | 0 <= p < |data|
      ensures data[p] == Shape(data[p].raw) && data[p].raw in all
    {
      var o := PickSource(merged, Shape, data, data[p]);
    }
    forall a, b | 0 <= a < b < |shaped|
      ensures shaped[a].id != shaped[b].id
    {
      assert shaped[a].id == Notification.Key(merged[a]) && shaped[b].id == Notification.Key(merged[b]);
    }
    PermDistinct(shaped, data, (o: Order) => o.id);
  }

  /** A `content` given as a string adds one record per character. */
  lemma StringContentSpreads(data: Js.Value, s: string)
    requires Js.StrictEq(Js.Get(data, "success"), Js.Bool(true))
    requires Js.Get(Js.Get(data, "data"), "content") == Js.Str(s) && s != ""
    ensures Page(data).Ok? && |Page(data).value| == |s|
    ensures forall i :: 0 <= i < |s| ==> Page(data).value[i] == Js.Str([s[i]])
  {
  }
}
