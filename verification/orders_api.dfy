/** The Cloudflare function `GET /api/orders`: behind the optional internal
    key, it asks the MEXC copy-trade API for the first page of each uid's
    orders (retrying once on a mirror host when the main one answers 403,
    404 or 451), tags every row with the uid it came from, keeps the newest
    record of each order id, and answers them normalised and most recently
    opened first. Anything thrown on the way answers 500.

    The two hosts are reached through one parameter, a function from
    (host, uid, limit) to the response, `Err` standing for a `fetch` that
    throws. The two-worker pool is modelled as asking the uids one after the
    other, and the random stagger, the cache-busting `t` parameter and the
    `openAtStr` time-zone text are left out. */
module OrdersApi {
  import opened Outcome
  import opened Text
  import Js
  import Merge
  import Sorting
  import Arith
  import opened Lists
  import Notification
  import Gate

  /** The uids of `DEFAULT_UIDS`, in the order they are written, in three parts. */
  const DefaultHead: seq<string> := [
    "34988691", "02058392", "83769107", "47991559", "82721272", "89920323", "92798483", "72432594",
    "87698388", "31866177", "49787038", "45227412", "80813692", "27337672", "95927229", "71925540",
    "38063228"]
  const DefaultMiddle: seq<string> := [
    "47395458", "78481146", "89070846", "01249789", "87698388", "57343925", "74785697", "21810967",
    "22247145", "88833523", "40133940", "84277140", "93640617", "76459243", "48673493", "13290625",
    "48131784"]
  const DefaultTail: seq<string> := [
    "23747691", "89989257", "69454560", "52543521", "07867898", "36267959", "90901845", "27012439",
    "58298982", "72486517", "30339263", "49140673", "20393898", "93765871", "98086898", "81873060",
    "08796342"]
  const DefaultUidList: seq<string> := DefaultHead + DefaultMiddle + DefaultTail

  /** `DEFAULT_UIDS`, the comma-separated text of the list. */
  const DefaultUids: string := Join(DefaultHead, ",") + "," + Join(DefaultMiddle, ",") + "," + Join(DefaultTail, ",")

  // ------------------------------------------------------------ query

  /** `(url.searchParams.get("uids") || DEFAULT_UIDS).split(",").map(s => s.trim()).filter(Boolean)` */
  function Uids(param: Option<string>): (r: seq<string>)
    ensures forall i :: 0 <= i < |r| ==> r[i] != [] && IsTrimmed(r[i]) && ',' !in r[i]
  {
    CommaList(Fallback(param.GetOr(""), DefaultUids))
  }

  /** Without a `uids` parameter the built-in uids are asked, in order. */
  lemma UidsDefault(param: Option<string>)
    requires param.None? || param == Some("")
    ensures Uids(param) == DefaultUidList
  {
    DefaultPlain();
    JoinAppend(DefaultHead, DefaultMiddle, ",");
    JoinAppend(DefaultHead + DefaultMiddle, DefaultTail, ",");
    CommaListJoin(DefaultUidList);
  }

  lemma DefaultPlain()
    ensures PlainItems(DefaultUidList)
  {
    HeadPlain();
    MiddlePlain();
    TailPlain();
    PlainItemsAppend(DefaultHead, DefaultMiddle);
    PlainItemsAppend(DefaultHead + DefaultMiddle, DefaultTail);
  }

  lemma HeadPlain() ensures PlainItems(DefaultHead) { }
  lemma MiddlePlain() ensures PlainItems(DefaultMiddle) { }
  lemma TailPlain() ensures PlainItems(DefaultTail) { }

  /** The built-in list has 51 entries and asks uid 87698388 twice, at
      positions 8 and 21. */
  lemma DefaultRepeats()
    ensures |DefaultUidList| == 51
    ensures DefaultUidList[8] == DefaultUidList[21] == "87698388"
  {
    assert DefaultUidList[21] == DefaultMiddle[4];
  }

  /** A comma-separated list in the parameter is asked as it is written. */
  lemma UidsGiven(xs: seq<string>)
    requires |xs| > 0
    requires forall i :: 0 <= i < |xs| ==> xs[i] != [] && IsTrimmed(xs[i]) && ',' !in xs[i]
    ensures Uids(Some(Join(xs, ","))) == xs
  {
    CommaListGiven(xs, DefaultUids);
  }

  /** `n(url.searchParams.get("limit") || 50)` */
  function Limit(param: Option<string>): (r: real)
    ensures param.None? || param == Some("") ==> r == 50.0
  {
    Js.SafeNum(Js.Or(if param.Some? then Js.Str(param.value) else Js.Null, Js.Num(50.0)))
  }

  // ------------------------------------------------------------ one uid

  /** `EP1` and its fallback `EP2`. */
  datatype Host = Main | Mirror

  /** What the function reads of a response: `ok`, `status`, and the body
      parsed as JSON (`None` when `resp.json()` fails). */
  datatype Response = Response(ok: bool, status: int, body: Option<Js.Value>)

  type Upstream = (Host, string, real) -> Result<Response, string>

  /** `!resp.ok && (status === 404 || status === 403 || status === 451)` */
  predicate Refused(r: Response) {
    !r.ok && r.status in {404, 403, 451}
  }

  /** One uid's exchange: the hosts asked, in order, and the body of the
      response kept (`None` when it was not ok or not JSON). */
  datatype Exchange = Exchange(asked: seq<Host>, outcome: Result<Option<Js.Value>, string>)

  function Ask(uid: string, limit: real, fetch: Upstream): (x: Exchange)
    ensures |x.asked| >= 1 && x.asked[0] == Main
  {
    match fetch(Main, uid, limit)
    case Err(e) => Exchange([Main], Err(e))
    case Ok(first) =>
      if Refused(first) then
        match fetch(Mirror, uid, limit)
        case Err(e) => Exchange([Main, Mirror], Err(e))
        case Ok(second) => Exchange([Main, Mirror], Ok(if second.ok then second.body else None))
      else Exchange([Main], Ok(if first.ok then first.body else None))
  }

  /** The mirror is asked exactly when the main host answered 403, 404 or
      451 without `ok`, and then its answer is the one used; a thrown
      `fetch` is passed on. */
  lemma AskFacts(uid: string, limit: real, fetch: Upstream)
    ensures var x := Ask(uid, limit, fetch);
      && (x.asked == [Main, Mirror] <==> fetch(Main, uid, limit).Ok? && Refused(fetch(Main, uid, limit).value))
      && (x.asked == [Main] <==> !(fetch(Main, uid, limit).Ok? && Refused(fetch(Main, uid, limit).value)))
      && (x.outcome.Err? <==> fetch(x.asked[|x.asked| - 1], uid, limit).Err?)
      && (x.outcome.Ok? ==> var used := fetch(x.asked[|x.asked| - 1], uid, limit).value;
            x.outcome.value == (if used.ok then used.body else None))
  {
  }

  /** The rows uid `u` adds to `all`: `Err` when a `fetch` throws or the
      content cannot be iterated with `forEach`. */
  function Contribution(u: string, limit: real, fetch: Upstream): Result<seq<Js.Value>, string> {
    match Ask(u, limit, fetch).outcome
    case Err(e) => Err(e)
    case Ok(body) => Notification.Page(body, u)
  }

  /** Every uid in turn; the first throw rejects `Promise.all`. */
  function Gather(uids: seq<string>, limit: real, fetch: Upstream): (r: Result<seq<Js.Value>, string>)
    ensures r.Ok? ==> forall i :: 0 <= i < |r.value| ==> r.value[i].Obj? && Tagged(uids, r.value[i])
    decreases |uids|
  {
    if |uids| == 0 then Ok([])
    else
      match Contribution(uids[0], limit, fetch)
      case Err(e) => Err(e)
      case Ok(here) =>
        match Gather(uids[1..], limit, fetch)
        case Err(e) => Err(e)
        case Ok(more) =>
          TaggedAppend(uids, here, more);
          Ok(here + more)
  }

  /** The record carries `_uid` set to one of `uids`. */
  predicate Tagged(uids: seq<string>, o: Js.Value) {
    exists u :: u in uids && Js.Get(o, "_uid") == Js.Str(u)
  }

  lemma TaggedAppend(uids: seq<string>, here: seq<Js.Value>, more: seq<Js.Value>)
    requires |uids| > 0
    requires forall i :: 0 <= i < |here| ==> here[i].Obj? && Js.Get(here[i], "_uid") == Js.Str(uids[0])
    requires forall i :: 0 <= i < |more| ==> more[i].Obj? && Tagged(uids[1..], more[i])
    ensures forall i :: 0 <= i < |here + more| ==> (here + more)[i].Obj? && Tagged(uids, (here + more)[i])
  {
    forall i | 0 <= i < |here + more|
      ensures (here + more)[i].Obj? && Tagged(uids, (here + more)[i])
    {
      if i < |here| {
        assert (here + more)[i] == here[i] && uids[0] in uids;
      } else {
        var x := (here + more)[i];
        assert x == more[i - |here|];
        var u :| u in uids[1..] && Js.Get(x, "_uid") == Js.Str(u);
        assert u in uids;
      }
    }
  }

  /** The gathering fails exactly when some uid's exchange throws. */
  lemma {:induction false} GatherFails(uids: seq<string>, limit: real, fetch: Upstream)
    ensures Gather(uids, limit, fetch).Err? <==> exists k :: 0 <= k < |uids| && Contribution(uids[k], limit, fetch).Err?
    decreases |uids|
  {
    if |uids| > 0 {
      GatherFails(uids[1..], limit, fetch);
      if (exists k :: 0 <= k < |uids| && Contribution(uids[k], limit, fetch).Err?) && Contribution(uids[0], limit, fetch).Ok? {
        var k :| 0 <= k < |uids| && Contribution(uids[k], limit, fetch).Err?;
        assert k > 0 && uids[1..][k - 1] == uids[k];
      }
      if exists k :: 0 <= k < |uids[1..]| && Contribution(uids[1..][k], limit, fetch).Err? {
        var k :| 0 <= k < |uids[1..]| && Contribution(uids[1..][k], limit, fetch).Err?;
        assert uids[1..][k] == uids[k + 1];
      }
    }
  }

  // ------------------------------------------------------------ normalise

  /** `pair(s = "")`: `String(s).replace("_", "")`; the default applies only
      to `undefined`, so a `null` symbol becomes `"null"`. */
  function Pair(s: Js.Value): (r: string)
    ensures s.Undefined? ==> r == ""
    ensures s.Null? ==> r == "null"
    ensures s.Str? && '_' !in s.s ==> r == s.s
  {
    ReplaceFirst(Js.ToStr(if s.Undefined? then Js.Str("") else s), '_', "")
  }

  /** One answered row. */
  datatype Row = Row(
    id: Js.Value, trader: Js.Value, traderUid: string, symbol: string, mode: string,
    lev: real, marginMode: string, amount: real, openPrice: real, margin: real,
    notional: real, followers: Js.Value, openAt: Js.Value, marginPct: real, raw: Js.Value)

  /** The `merged.map(o => ({ ... }))` callback: the columns, then the
      margin share computed from the row's own margin and notional. */
  function Shape(o: Js.Value): Row {
    WithShare(Columns(o))
  }

  function Columns(o: Js.Value): Row {
    var p := Js.SafeNum(Js.Get(o, "openAvgPrice"));
    var a := Js.SafeNum(Js.Get(o, "amount"));
    Row(
      id := Notification.Key(o),
      trader := Js.Or(Js.Get(o, "traderNickName"), Js.Str("")),
      traderUid := Notification.TraderUid(o),
      symbol := Pair(Js.Get(o, "symbol")),
      mode := Notification.Mode(Js.Get(o, "positionType")),
      lev := Notification.Leverage(o),
      marginMode := Notification.MarginMode(Js.Get(o, "openType")),
      amount := a,
      openPrice := p,
      margin := Notification.MarginOf(o),
      notional := p * a,
      followers := Js.Get(o, "followers"),
      openAt := Js.Or(Js.Get(o, "openTime"), Js.Num(0.0)),
      marginPct := 0.0,
      raw := o)
  }

  /** `marginPct`: the margin over the notional in percent, 0 without a positive notional. */
  function WithShare(r: Row): Row {
    r.(marginPct := Arith.Percent(r.margin, r.notional))
  }

  /** A row keeps its record and id; its leverage is never 0, its margin is
      the reported one or the notional over the leverage, its notional is
      the record's price times its amount, and its margin share is the
      margin over the notional in percent, 0 without a positive notional. */
  lemma ShapeFacts(o: Js.Value)
    ensures Shape(o).raw == o && Shape(o).id == Notification.Key(o)
    ensures Shape(o).lev != 0.0 && Shape(o).lev == Notification.Leverage(o)
    ensures Shape(o).margin == Notification.MarginOf(o)
    ensures Shape(o).openPrice == Js.SafeNum(Js.Get(o, "openAvgPrice"))
    ensures Shape(o).amount == Js.SafeNum(Js.Get(o, "amount"))
    ensures Shape(o).notional == Js.SafeNum(Js.Get(o, "openAvgPrice")) * Js.SafeNum(Js.Get(o, "amount"))
    ensures Shared(Shape(o))
  {
    ShapeKeeps(o);
    ShapeAmounts(o);
    WithShareShared(Columns(o));
  }

  lemma ShapeKeeps(o: Js.Value)
    ensures Shape(o).raw == o && Shape(o).id == Notification.Key(o)
    ensures Shape(o).lev != 0.0 && Shape(o).lev == Notification.Leverage(o)
    ensures Shape(o).margin == Notification.MarginOf(o)
  {
  }

  lemma ShapeAmounts(o: Js.Value)
    ensures Shape(o).openPrice == Js.SafeNum(Js.Get(o, "openAvgPrice"))
    ensures Shape(o).amount == Js.SafeNum(Js.Get(o, "amount"))
    ensures Shape(o).notional == Js.SafeNum(Js.Get(o, "openAvgPrice")) * Js.SafeNum(Js.Get(o, "amount"))
  {
  }

  /** A row's share column is its margin over its notional in percent, or
      0 without a positive notional. */
  predicate Shared(r: Row) {
    && (r.notional > 0.0 ==> r.marginPct * r.notional == r.margin * 100.0)
    && (r.notional <= 0.0 ==> r.marginPct == 0.0)
  }

  lemma WithShareShared(r: Row)
    ensures Shared(WithShare(r))
  {
  }

  /** A record without its own `uid` or `traderUid` is attributed to the
      uid it was fetched for. */
  lemma TraderUidFromTag(o: Js.Value, u: string)
    requires Js.Get(o, "_uid") == Js.Str(u)
    requires Js.Nullish(Js.Get(o, "uid")) && Js.Nullish(Js.Get(o, "traderUid"))
    ensures Shape(o).traderUid == u
  {
  }

  /** `b.openAt - a.openAt`, a non-numeric time counting as 0. */
  function OpenAt(r: Row): real {
    Js.SafeNum(r.openAt)
  }

  /** The answered rows for the collected records: merged newest-wins by id,
      shaped, most recently opened first. */
  function Rows(all: seq<Js.Value>): seq<Row> {
    Sorting.SortDesc(Mapped(Notification.Merged(all), Shape), OpenAt)
  }

  /** Newest first; one row per order id; every collected order id answered;
      each row the shape of one collected record. */
  lemma RowsFacts(all: seq<Js.Value>)
    ensures var data := Rows(all);
      && Sorting.Descending(data, OpenAt)
      && (forall p, q :: 0 <= p < q < |data| ==> data[p].id != data[q].id)
      && (forall i :: 0 <= i < |all| ==> HasId(data, Notification.Key(all[i])))
      && (forall p :: 0 <= p < |data| ==> data[p] == Shape(data[p].raw) && data[p].raw in all)
  {
    Merge.KeyedValuesFacts(all, Notification.Key, Notification.Newer, Notification.Keyed(all));
    var merged := Notification.Merged(all);
    Sorting.SortDescFacts(Mapped(merged, Shape), OpenAt);
    RowsFromRecords(all, merged, Rows(all));
    RowsDistinct(merged, Rows(all));
    RowsCover(all, merged, Rows(all));
  }

  /** Some row of `data` answers for order id `k`. */
  ghost predicate HasId(data: seq<Row>, k: Js.Value) {
    exists p :: 0 <= p < |data| && data[p].id == k
  }

  lemma RowsFromRecords(all: seq<Js.Value>, merged: seq<Js.Value>, data: seq<Row>)
    requires forall p :: 0 <= p < |merged| ==> merged[p] in all
    requires multiset(data) == multiset(Mapped(merged, Shape))
    ensures forall p :: 0 <= p < |data| ==> data[p] == Shape(data[p].raw) && data[p].raw in all
  {
    forall p | 0 <= p < |data|
      ensures data[p] == Shape(data[p].raw) && data[p].raw in all
    {
      var o := PickSource(merged, Shape, data, data[p]);
    }
  }

  lemma RowsDistinct(merged: seq<Js.Value>, data: seq<Row>)
    requires forall p, q :: 0 <= p < q < |merged| ==> Notification.Key(merged[p]) != Notification.Key(merged[q])
    requires multiset(data) == multiset(Mapped(merged, Shape))
    ensures forall p, q :: 0 <= p < q < |data| ==> data[p].id != data[q].id
  {
    var shaped := Mapped(merged, Shape);
    forall a, b | 0 <= a < b < |shaped|
      ensures shaped[a].id != shaped[b].id
    {
      assert shaped[a].id == Notification.Key(merged[a]) && shaped[b].id == Notification.Key(merged[b]);
    }
    PermDistinct(shaped, data, (r: Row) => r.id);
  }

  lemma RowsCover(all: seq<Js.Value>, merged: seq<Js.Value>, data: seq<Row>)
    requires forall i :: 0 <= i < |all| ==> Merge.KeyIn(merged, Notification.Key, Notification.Key(all[i]))
    requires multiset(data) == multiset(Mapped(merged, Shape))
    ensures forall i :: 0 <= i < |all| ==> HasId(data, Notification.Key(all[i]))
  {
    var shaped := Mapped(merged, Shape);
    forall i | 0 <= i < |all|
      ensures HasId(data, Notification.Key(all[i]))
    {
      assert Merge.KeyIn(merged, Notification.Key, Notification.Key(all[i]));
      var m :| 0 <= m < |merged| && Notification.Key(merged[m]) == Notification.Key(all[i]);
      assert shaped[m] in multiset(data);
      assert shaped[m] in data;
      var p :| 0 <= p < |data| && data[p] == shaped[m];
      assert data[p].id == Notification.Key(merged[m]);
    }
  }

  /** Rows of records tagged with the asked uids are tagged with them too. */
  lemma RowsTagged(all: seq<Js.Value>, uids: seq<string>)
    requires forall i :: 0 <= i < |all| ==> Tagged(uids, all[i])
    ensures forall p :: 0 <= p < |Rows(all)| ==> Tagged(uids, Rows(all)[p].raw)
  {
    RowsFacts(all);
    forall p | 0 <= p < |Rows(all)|
      ensures Tagged(uids, Rows(all)[p].raw)
    {
      var i :| 0 <= i < |all| && all[i] == Rows(all)[p].raw;
    }
  }

  // ------------------------------------------------------------ onRequest

  datatype Reply = Unauthorized | Failed(error: string) | Answered(data: seq<Row>)

  /** `onRequest`: the key check, then the gathering and the answer. */
  function Handle(required: string, header: Option<string>, uidsParam: Option<string>,
                  limitParam: Option<string>, fetch: Upstream): (r: Reply)
    ensures r.Unauthorized? <==> !Gate.Admits(required, header)
    ensures r.Failed? <==> Gate.Admits(required, header) && Gather(Uids(uidsParam), Limit(limitParam), fetch).Err?
  {
    if !Gate.Admits(required, header) then Unauthorized
    else
      match Gather(Uids(uidsParam), Limit(limitParam), fetch)
      case Err(e) => Failed(e)
      case Ok(all) => Answered(Rows(all))
  }

  /** An answer's rows are newest first with one row per order id, and each
      is a record fetched for one of the asked uids; a throw in any uid's
      exchange fails the whole request. */
  lemma HandleFacts(required: string, header: Option<string>, uidsParam: Option<string>,
                    limitParam: Option<string>, fetch: Upstream)
    ensures var uids := Uids(uidsParam);
      Gate.Admits(required, header) && (exists k :: 0 <= k < |uids| && Contribution(uids[k], Limit(limitParam), fetch).Err?) ==>
        Handle(required, header, uidsParam, limitParam, fetch).Failed?
    ensures var r := Handle(required, header, uidsParam, limitParam, fetch);
      r.Answered? ==>
        && Sorting.Descending(r.data, OpenAt)
        && (forall p, q :: 0 <= p < q < |r.data| ==> r.data[p].id != r.data[q].id)
        && (forall p :: 0 <= p < |r.data| ==> Tagged(Uids(uidsParam), r.data[p].raw))
  {
    var uids := Uids(uidsParam);
    var limit := Limit(limitParam);
    GatherFails(uids, limit, fetch);
    var g := Gather(uids, limit, fetch);
    if g.Ok? {
      RowsFacts(g.value);
      RowsTagged(g.value, uids);
    }
  }
}
