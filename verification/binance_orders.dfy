/** The Binance copy-trade order endpoint (`GET /api/binance/orders`) and its
    command-line twin.

    One call takes a window of the requested uids (`cursor`, `max`), turns
    each uid into portfolio ids (an identifier longer than 15 characters is
    one already; a shorter one is looked up), reads up to three pages of order
    history per portfolio, keeps one order per identifying key (the newest),
    and answers the orders newest first, with the cursor of the next window.
    The endpoint reads its parameters from the query string and the script
    from `--name=value` arguments; everything after that lookup is the same,
    so the model takes the lookup as a function.

    The portfolio lookup and the history requests are functions from the
    request to the answer: `None` for a non-2xx status, `Some(null)` for a
    body that is not JSON. */
module BinanceOrders {
  import opened Outcome
  import opened Text
  import Js
  import Merge
  import Sorting
  import Arith
  import opened Lists

  const DefaultUids := "4438679961865098497"

  /** Seven days in milliseconds: the default width of the time range. */
  const Week := 604800000.0

  // ------------------------------------------------------------ parameters

  /** `url.searchParams.get(name)`: the first value given for the name, or `null`. */
  function QueryGet(query: seq<(string, string)>, name: string): (v: Js.Value)
    ensures v.Null? || v.Str?
    ensures v.Null? <==> forall i :: 0 <= i < |query| ==> query[i].0 != name
    decreases |query|
  {
    if |query| == 0 then Js.Null
    else if query[0].0 == name then Js.Str(query[0].1)
    else
      assert forall i :: 1 <= i < |query| ==> query[i] == query[1..][i - 1];
      QueryGet(query[1..], name)
  }

  /** An argument of the form `--name` or `--name=value`. */
  predicate IsOption(a: string) {
    StartsWith(a, "--")
  }

  /** `a.slice(2).split("=")` */
  function OptionParts(a: string): (parts: seq<string>)
    requires IsOption(a)
    ensures |parts| >= 1
  {
    Split(a[2..], '=')
  }

  /** The value `[k, v]` destructuring gives: the second piece, or `true` when there is none. */
  function OptionValue(a: string): Js.Value
    requires IsOption(a)
  {
    var parts := OptionParts(a);
    if |parts| >= 2 then Js.Str(parts[1]) else Js.Bool(true)
  }

  /** The loop of `parseArgs` over the remaining arguments, assigning into `args`. */
  function Options(rest: seq<string>, args: seq<(string, Js.Value)>): seq<(string, Js.Value)>
    decreases |rest|
  {
    if |rest| == 0 then args
    else
      var a := rest[0];
      Options(rest[1..], if IsOption(a) then Js.SetField(args, OptionParts(a)[0], OptionValue(a)) else args)
  }

  /** The arguments after the program and script names, `argv.slice(2)`. */
  function UserArgs(argv: seq<string>): seq<string> {
    if |argv| <= 2 then [] else argv[2..]
  }

  /** `parseArgs(process.argv)` */
  function ParseArgs(argv: seq<string>): (args: Js.Value)
    ensures args.Obj?
  {
    Js.Obj(Options(UserArgs(argv), []))
  }

  /** The value the last option named `k` among `rest` gives, if any option names it. */
  function LastOption(rest: seq<string>, k: string): Option<Js.Value>
    decreases |rest|
  {
    if |rest| == 0 then None
    else
      var later := LastOption(rest[1..], k);
      if later.Some? then later
      else if IsOption(rest[0]) && OptionParts(rest[0])[0] == k then Some(OptionValue(rest[0]))
      else None
  }

  lemma {:induction false} OptionsLookup(rest: seq<string>, args: seq<(string, Js.Value)>, k: string)
    ensures Js.Lookup(Options(rest, args), k) == LastOption(rest, k).GetOr(Js.Lookup(args, k))
    decreases |rest|
  {
    if |rest| > 0 {
      var a := rest[0];
      var next := if IsOption(a) then Js.SetField(args, OptionParts(a)[0], OptionValue(a)) else args;
      OptionsLookup(rest[1..], next, k);
    }
  }

  /** Every option name reads as the value of its last occurrence, and a name
      no option gives reads as `undefined`. */
  lemma ParseArgsLast(argv: seq<string>, k: string)
    ensures Js.Get(ParseArgs(argv), k) == LastOption(UserArgs(argv), k).GetOr(Js.Undefined)
  {
    OptionsLookup(UserArgs(argv), [], k);
  }

  /** Splitting at the first `=`. */
  lemma SplitAtFirst(a: string, b: string)
    requires '=' !in a
    ensures Split(a + "=" + b, '=') == [a] + Split(b, '=')
  {
    var s := a + "=" + b;
    assert s[..|a|] == a && s[|a|] == '=';
    IndexOfFirst(s, '=', |a|);
    assert s[|a| + 1..] == b;
  }

  /** `--k` sets `k` to `true`. */
  lemma BareOption(k: string)
    requires '=' !in k
    ensures OptionParts("--" + k) == [k] && OptionValue("--" + k) == Js.Bool(true)
  {
    assert ("--" + k)[2..] == k;
  }

  /** `--k=v` sets `k` to `"v"`, and `--k=v=w` sets it to `"v"` as well. */
  lemma ValuedOption(k: string, v: string, w: string)
    requires '=' !in k && '=' !in v
    ensures OptionParts("--" + k + "=" + v)[0] == k && OptionValue("--" + k + "=" + v) == Js.Str(v)
    ensures OptionParts("--" + k + "=" + v + "=" + w)[0] == k && OptionValue("--" + k + "=" + v + "=" + w) == Js.Str(v)
  {
    assert ("--" + k + "=" + v)[2..] == k + "=" + v;
    SplitAtFirst(k, v);
    assert ("--" + k + "=" + v + "=" + w)[2..] == k + "=" + (v + "=" + w);
    SplitAtFirst(k, v + "=" + w);
    SplitAtFirst(v, w);
  }

  lemma {:induction false} OptionsSkip(p: seq<string>, a: string, q: seq<string>, args: seq<(string, Js.Value)>)
    requires !IsOption(a)
    ensures Options(p + [a] + q, args) == Options(p + q, args)
    decreases |p|
  {
    if |p| == 0 {
      assert p + [a] + q == [a] + q && p + q == q;
      assert ([a] + q)[1..] == q;
    } else {
      var next := if IsOption(p[0]) then Js.SetField(args, OptionParts(p[0])[0], OptionValue(p[0])) else args;
      assert (p + [a] + q)[1..] == p[1..] + [a] + q;
      assert (p + q)[1..] == p[1..] + q;
      OptionsSkip(p[1..], a, q, next);
    }
  }

  /** An argument that does not start with `--` is ignored. */
  lemma NonOptionIgnored(argv: seq<string>, i: int)
    requires 2 <= i < |argv| && !IsOption(argv[i])
    ensures ParseArgs(argv) == ParseArgs(argv[..i] + argv[i + 1..])
  {
    var shorter := argv[..i] + argv[i + 1..];
    assert argv[2..] == argv[2..i] + [argv[i]] + argv[i + 1..];
    OptionsSkip(argv[2..i], argv[i], argv[i + 1..], []);
    if |shorter| > 2 {
      assert shorter[2..] == argv[2..i] + argv[i + 1..];
    } else {
      assert argv[2..i] + argv[i + 1..] == [];
    }
  }

  // ------------------------------------------------------------ uid window

  /** `(uids || DEFAULT_UIDS).split(",").map(trim).filter(Boolean)` */
  function Uids(param: string -> Js.Value): (uids: seq<string>)
    ensures forall i :: 0 <= i < |uids| ==> uids[i] != "" && IsTrimmed(uids[i]) && ',' !in uids[i]
  {
    CommaList(Js.ToStr(Js.Or(param("uids"), Js.Str(DefaultUids))))
  }

  /** `Math.max(1, Math.min(35, n(max || 35)))` */
  function MaxPerCall(max: Js.Value): (m: real)
    ensures 1.0 <= m <= 35.0
    ensures !Js.Truthy(max) ==> m == 35.0
  {
    Arith.MaxR(1.0, Arith.MinR(35.0, Js.SafeNum(Js.Or(max, Js.Num(35.0)))))
  }

  /** The slice `[start, end)` of the uid list one call handles, and the
      cursor of the next call (`null` once the list is exhausted). */
  datatype Window = Window(start: real, end: real, total: nat, maxPerCall: real, nextCursor: Option<string>)

  function WindowOf(total: nat, cursor: Js.Value, max: Js.Value): (w: Window)
    ensures w.total == total && w.maxPerCall == MaxPerCall(max)
    ensures 0.0 <= w.start && w.end <= total as real && w.end <= w.start + w.maxPerCall
    ensures w.end < total as real ==> w.end == w.start + w.maxPerCall
    ensures w.nextCursor.Some? <==> w.end < total as real
    ensures w.nextCursor.Some? ==> w.nextCursor.value == Js.ToStr(Js.Num(w.end))
  {
    var start := Arith.MaxR(0.0, Js.SafeNum(Js.Or(cursor, Js.Num(0.0))));
    var maxPerCall := MaxPerCall(max);
    var end := Arith.MinR(total as real, start + maxPerCall);
    Window(start, end, total, maxPerCall, if end < total as real then Some(Js.NumText(end)) else None)
  }

  /** A cursor at or past the end of the list gives an empty window and no next cursor. */
  lemma PastTheEnd(total: nat, cursor: Js.Value, max: Js.Value)
    requires Js.SafeNum(Js.Or(cursor, Js.Num(0.0))) >= total as real
    ensures var w := WindowOf(total, cursor, max);
      Steps(w.start, w.end) == [] && w.nextCursor == None
  {
  }

  /** The indices `for (let i = start; i < end; i++)` visits: `from`,
      `from + 1`, ... as long as they are below `end`. */
  function Steps(from: real, end: real): (r: seq<real>)
    ensures forall k :: 0 <= k < |r| ==> r[k] == from + k as real && r[k] < end
    ensures end <= from + |r| as real
    decreases if from < end then (end - from).Floor + 1 else 0
  {
    if from < end then [from] + Steps(from + 1.0, end) else []
  }

  /** The whole numbers `s`, `s + 1`, ..., `e - 1`. */
  function Range(s: nat, e: nat): (r: seq<real>)
    requires s <= e
    ensures |r| == e - s && forall k :: 0 <= k < |r| ==> r[k] == (s + k) as real
  {
    seq(e - s, k => (s + k) as real)
  }

  lemma RangeConcat(a: nat, b: nat, c: nat)
    requires a <= b <= c
    ensures Range(a, b) + Range(b, c) == Range(a, c)
  {
  }

  /** Between whole numbers, the loop visits each index from `s` up to `e` once, in order. */
  lemma WholeSteps(s: nat, e: nat)
    requires s <= e
    ensures Steps(s as real, e as real) == Range(s, e)
  {
    var r := Steps(s as real, e as real);
    if |r| > 0 {
      assert r[|r| - 1] == (s + |r| - 1) as real;
    }
  }

  /** `uids[i]`: the uid at a whole index inside the list, `undefined` anywhere else. */
  function UidAt(uids: seq<string>, i: real): Js.Value {
    if i == i.Floor as real && 0 <= i.Floor < |uids| then Js.Str(uids[i.Floor]) else Js.Undefined
  }

  /** The window of a call from the whole cursor `s` when `max` is the whole number `m`. */
  predicate WholeFrom(w: Window, total: nat, m: nat, s: nat) {
    var e := Arith.Min(total, s + m);
    && w.start == s as real && w.end == e as real
    && (w.nextCursor.Some? <==> e < total)
    && (e < total ==> w.nextCursor == Some(NatToString(e)))
  }

  /** With a whole `max`, a call whose cursor is the whole number `s` handles
      `[s, min(total, s + max))` and names the end as the next cursor. */
  lemma WholeWindow(total: nat, s: nat, max: Js.Value)
    requires MaxPerCall(max) == MaxPerCall(max).Floor as real
    ensures WholeFrom(WindowOf(total, Js.Str(NatToString(s)), max), total, MaxPerCall(max).Floor, s)
  {
    Js.NatTextParses(s);
    var e := Arith.Min(total, s + MaxPerCall(max).Floor);
    Js.StrOfNat(e);
  }

  /** The uid indices the calls visit when each call passes on the previous
      call's `nextCursor`, the first one starting at `cursor`, `call` giving
      the window of each call, and at most `fuel` calls are made. */
  function ChainBy(call: Js.Value -> Window, cursor: Js.Value, fuel: nat): seq<real>
    decreases fuel
  {
    if fuel == 0 then []
    else
      var w := call(cursor);
      Steps(w.start, w.end) + if w.nextCursor.Some? then ChainBy(call, Js.Str(w.nextCursor.value), fuel - 1) else []
  }

  /** The chain of calls of the endpoint over `total` uids with the given `max`. */
  function Chain(total: nat, max: Js.Value, cursor: Js.Value, fuel: nat): seq<real> {
    ChainBy((c: Js.Value) => WindowOf(total, c, max), cursor, fuel)
  }

  /** `call` answers every whole cursor up to `total` with the whole window of width `m`. */
  predicate WholeCalls(call: Js.Value -> Window, total: nat, m: nat) {
    forall t: nat :: t <= total ==> WholeFrom(call(Js.Str(NatToString(t))), total, m, t)
  }

  /** One call from the whole cursor `s` visits `[s, e)` and hands on to a
      call from `e` when the list goes on. */
  lemma ChainStep(call: Js.Value -> Window, total: nat, m: nat, s: nat, fuel: nat)
    requires WholeCalls(call, total, m) && m >= 1
    requires s <= total && fuel > 0
    ensures var e := Arith.Min(total, s + m);
      && s <= e <= total && (s < total ==> s < e)
      && ChainBy(call, Js.Str(NatToString(s)), fuel) ==
           Range(s, e) + if e < total then ChainBy(call, Js.Str(NatToString(e)), fuel - 1) else []
  {
    var e := Arith.Min(total, s + m);
    assert WholeFrom(call(Js.Str(NatToString(s))), total, m, s);
    WholeSteps(s, e);
  }

  lemma {:induction false} ChainFrom(call: Js.Value -> Window, total: nat, m: nat, s: nat, fuel: nat)
    requires WholeCalls(call, total, m) && m >= 1
    requires s <= total && fuel > total - s
    ensures ChainBy(call, Js.Str(NatToString(s)), fuel) == Range(s, total)
    decreases total - s
  {
    var e := Arith.Min(total, s + m);
    ChainStep(call, total, m, s, fuel);
    if e < total {
      ChainFrom(call, total, m, e, fuel - 1);
      RangeConcat(s, e, total);
    }
  }

  /** With a whole `max`, calls chained from no cursor through `nextCursor`
      visit every uid index exactly once, in order, and then stop. */
  lemma ChainCovers(total: nat, max: Js.Value)
    requires MaxPerCall(max) == MaxPerCall(max).Floor as real
    ensures Chain(total, max, Js.Null, total + 1) == Range(0, total)
  {
    var call := (c: Js.Value) => WindowOf(total, c, max);
    AllWhole(total, max);
    NullIsZero(total, max);
    SameStart(call, Js.Null, Js.Str(NatToString(0)), total + 1);
    ChainFrom(call, total, MaxPerCall(max).Floor, 0, total + 1);
  }

  lemma AllWhole(total: nat, max: Js.Value)
    requires MaxPerCall(max) == MaxPerCall(max).Floor as real
    ensures WholeCalls((c: Js.Value) => WindowOf(total, c, max), total, MaxPerCall(max).Floor)
  {
    forall t: nat | t <= total
      ensures WholeFrom(WindowOf(total, Js.Str(NatToString(t)), max), total, MaxPerCall(max).Floor, t)
    {
      WholeWindow(total, t, max);
    }
  }

  /** No cursor is the cursor `"0"`. */
  lemma NullIsZero(total: nat, max: Js.Value)
    ensures WindowOf(total, Js.Null, max) == WindowOf(total, Js.Str(NatToString(0)), max)
  {
    Js.NatTextParses(0);
  }

  /** Chains whose first calls answer alike are alike. */
  lemma SameStart(call: Js.Value -> Window, c1: Js.Value, c2: Js.Value, fuel: nat)
    requires call(c1) == call(c2)
    ensures ChainBy(call, c1, fuel) == ChainBy(call, c2, fuel)
  {
  }

  /** So the uids the chained calls read are the requested ones, each once, in order. */
  lemma ChainVisitsEveryUid(uids: seq<string>, max: Js.Value)
    requires MaxPerCall(max) == MaxPerCall(max).Floor as real
    ensures Mapped(Chain(|uids|, max, Js.Null, |uids| + 1), (i: real) => UidAt(uids, i)) == Mapped(uids, (u: string) => Js.Str(u))
  {
    ChainCovers(|uids|, max);
    var at := Chain(|uids|, max, Js.Null, |uids| + 1);
    forall k | 0 <= k < |uids|
      ensures UidAt(uids, at[k]) == Js.Str(uids[k])
    {
      assert at[k] == k as real;
      assert (k as real).Floor == k;
    }
  }

  // ------------------------------------------------------------ portfolio ids

  /** `String(it?.portfolioId || "")` */
  function PortfolioIdOf(it: Js.Value): string {
    Js.ToStr(Js.Or(Js.Get(it, "portfolioId"), Js.Str("")))
  }

  /** `fetchPortfolioIdsByLeadUid`: the non-empty portfolio ids of
      `data.list`, or of `data` when that has no list; none when the request
      fails or the list is not an array (`.map` throws and the error is
      swallowed). */
  function PortfolioIds(answer: Option<Js.Value>): (ids: seq<string>)
    ensures forall i :: 0 <= i < |ids| ==> ids[i] != ""
    ensures answer.Some? && Js.Get(Js.Get(answer.value, "data"), "list").Arr? ==>
      forall s :: s in ids <==> s != "" && s in Mapped(Js.Get(Js.Get(answer.value, "data"), "list").items, PortfolioIdOf)
  {
    match answer
    case None => []
    case Some(json) =>
      var data := Js.Get(json, "data");
      var list := Js.Or(Js.Get(data, "list"), Js.Or(data, Js.Arr([])));
      if list.Arr? then NonEmpty(Mapped(list.items, PortfolioIdOf)) else []
  }

  /** The portfolio ids of one requested uid: the uid itself when its text is
      longer than 15 characters, otherwise whatever the lookup answers for it. */
  function PortfolioIdsOf(uid: Js.Value, lookup: string -> Option<Js.Value>): (ids: seq<string>)
    ensures forall i :: 0 <= i < |ids| ==> ids[i] != ""
  {
    var text := Js.ToStr(uid);
    if |text| > 15 then [text] else PortfolioIds(lookup(text))
  }

  /** A long identifier is taken as a portfolio id without consulting the lookup. */
  lemma LongUidIsPortfolio(uid: Js.Value, lookup1: string -> Option<Js.Value>, lookup2: string -> Option<Js.Value>)
    requires |Js.ToStr(uid)| > 15
    ensures PortfolioIdsOf(uid, lookup1) == PortfolioIdsOf(uid, lookup2) == [Js.ToStr(uid)]
  {
  }

  // ------------------------------------------------------------ order history

  /** One order-history request: the portfolio, the time range and, after
      the first page, the `indexValue` to continue from. The page size is 30. */
  datatype PageRequest = PageRequest(portfolioId: string, startTime: real, endTime: real, indexValue: Option<string>)

  /** `json?.success === true && json?.code === "000000"` */
  predicate Confirmed(json: Js.Value) {
    Js.StrictEq(Js.Get(json, "success"), Js.Bool(true)) && Js.StrictEq(Js.Get(json, "code"), Js.Str("000000"))
  }

  function DataOf(json: Js.Value): Js.Value {
    if Confirmed(json) then Js.Get(json, "data") else Js.Null
  }

  /** `Array.isArray(data?.list) ? data.list : []` */
  function ListOf(json: Js.Value): seq<Js.Value> {
    var list := Js.Get(DataOf(json), "list");
    if list.Arr? then list.items else []
  }

  /** `data?.indexValue || null` */
  function NextIndex(json: Js.Value): Js.Value {
    Js.Or(Js.Get(DataOf(json), "indexValue"), Js.Null)
  }

  /** An answer without the success flag and code contributes no records and ends the walk. */
  lemma UnconfirmedCountsForNothing(json: Js.Value)
    requires !Confirmed(json)
    ensures ListOf(json) == [] && !Js.Truthy(NextIndex(json))
  {
  }

  /** The records an answer contributes; a failed request contributes none. */
  function Records(answer: Option<Js.Value>): seq<Js.Value> {
    match answer
    case None => []
    case Some(json) => ListOf(json)
  }

  /** The walk goes on after `req`: it succeeded, its list was not empty and it named a next index. */
  predicate Continues(history: PageRequest -> Option<Js.Value>, req: PageRequest) {
    && history(req).Some?
    && |ListOf(history(req).value)| > 0
    && Js.Truthy(NextIndex(history(req).value))
  }

  /** The request after `req`: the same, continued from the index its answer named. */
  function Following(history: PageRequest -> Option<Js.Value>, req: PageRequest): PageRequest
    requires Continues(history, req)
  {
    req.(indexValue := Some(Js.ToStr(NextIndex(history(req).value))))
  }

  /** The requests a walk made and the records it kept. */
  datatype Walk = Walk(requests: seq<PageRequest>, records: seq<Js.Value>)

  /** The loop of `fetchFirst3PagesOrderHistory` from request `req` on, with `left` pages still allowed. */
  function Pages(history: PageRequest -> Option<Js.Value>, req: PageRequest, left: nat): (w: Walk)
    ensures |w.requests| <= left
    ensures left > 0 ==> |w.requests| > 0 && w.requests[0] == req
    decreases left
  {
    if left == 0 then Walk([], [])
    else if Continues(history, req) then
      var rest := Pages(history, Following(history, req), left - 1);
      Walk([req] + rest.requests, Records(history(req)) + rest.records)
    else Walk([req], Records(history(req)))
  }

  /** `fetchFirst3PagesOrderHistory(pid, startTime, endTime)` */
  function FirstPages(history: PageRequest -> Option<Js.Value>, pid: string, startTime: real, endTime: real): Walk {
    Pages(history, PageRequest(pid, startTime, endTime, None), 3)
  }

  /** The records of the answers to `reqs`, in order. */
  function Gathered(history: PageRequest -> Option<Js.Value>, reqs: seq<PageRequest>): seq<Js.Value>
    decreases |reqs|
  {
    if |reqs| == 0 then [] else Records(history(reqs[0])) + Gathered(history, reqs[1..])
  }

  /** Every request is for the portfolio and time range of `req`. */
  predicate SameSource(reqs: seq<PageRequest>, req: PageRequest) {
    forall k :: 0 <= k < |reqs| ==> reqs[k].(indexValue := None) == req.(indexValue := None)
  }

  /** Each request after the first continues from the index the answer before
      it named, that answer having succeeded with records. */
  predicate Linked(history: PageRequest -> Option<Js.Value>, reqs: seq<PageRequest>) {
    forall k :: 0 <= k < |reqs| - 1 ==> Continues(history, reqs[k]) && reqs[k + 1] == Following(history, reqs[k])
  }

  /** A walk asks for one portfolio and time range throughout. */
  lemma {:induction false} PagesSource(history: PageRequest -> Option<Js.Value>, req: PageRequest, left: nat)
    ensures SameSource(Pages(history, req, left).requests, req)
    decreases left
  {
    if left > 0 && Continues(history, req) {
      var next := Following(history, req);
      var rest := Pages(history, next, left - 1);
      var w := Pages(history, req, left);
      PagesSource(history, next, left - 1);
      assert w.requests == [req] + rest.requests;
      assert next.(indexValue := None) == req.(indexValue := None);
      forall k | 0 < k < |w.requests|
        ensures w.requests[k].(indexValue := None) == req.(indexValue := None)
      {
        assert w.requests[k] == rest.requests[k - 1];
      }
    }
  }

  /** Each request of a walk after the first follows from the answer before it. */
  lemma {:induction false} PagesLinked(history: PageRequest -> Option<Js.Value>, req: PageRequest, left: nat)
    ensures Linked(history, Pages(history, req, left).requests)
    decreases left
  {
    if left > 0 && Continues(history, req) {
      var next := Following(history, req);
      var rest := Pages(history, next, left - 1);
      var w := Pages(history, req, left);
      PagesLinked(history, next, left - 1);
      assert w.requests == [req] + rest.requests;
      forall k | 0 <= k < |w.requests| - 1
        ensures Continues(history, w.requests[k]) && w.requests[k + 1] == Following(history, w.requests[k])
      {
        assert w.requests[k + 1] == rest.requests[k];
        if k > 0 {
          assert w.requests[k] == rest.requests[k - 1];
        }
      }
    }
  }

  /** A walk ends before its page allowance only after a failed request, an
      empty list or a missing index. */
  lemma {:induction false} PagesStop(history: PageRequest -> Option<Js.Value>, req: PageRequest, left: nat)
    ensures var w := Pages(history, req, left);
      0 < |w.requests| < left ==> !Continues(history, w.requests[|w.requests| - 1])
    decreases left
  {
    if left > 0 && Continues(history, req) {
      var next := Following(history, req);
      var w := Pages(history, req, left);
      PagesStop(history, next, left - 1);
      assert w.requests[1..] == Pages(history, next, left - 1).requests;
    }
  }

  /** A walk keeps the records of every answer it got, in order. */
  lemma {:induction false} PagesRecords(history: PageRequest -> Option<Js.Value>, req: PageRequest, left: nat)
    ensures var w := Pages(history, req, left);
      w.records == Gathered(history, w.requests)
    decreases left
  {
    if left > 0 && Continues(history, req) {
      var next := Following(history, req);
      var w := Pages(history, req, left);
      PagesRecords(history, next, left - 1);
      assert w.requests[1..] == Pages(history, next, left - 1).requests;
    }
  }

  /** `fetchFirst3PagesOrderHistory` makes one to three requests, the first
      without an `indexValue` and each later one with the index the previous
      answer named. */
  lemma FirstPagesFacts(history: PageRequest -> Option<Js.Value>, pid: string, startTime: real, endTime: real)
    ensures var w := FirstPages(history, pid, startTime, endTime);
      && 1 <= |w.requests| <= 3
      && w.requests[0] == PageRequest(pid, startTime, endTime, None)
      && SameSource(w.requests, w.requests[0])
      && Linked(history, w.requests)
      && (|w.requests| < 3 ==> !Continues(history, w.requests[|w.requests| - 1]))
      && w.records == Gathered(history, w.requests)
  {
    var req := PageRequest(pid, startTime, endTime, None);
    PagesSource(history, req, 3);
    PagesLinked(history, req, 3);
    PagesStop(history, req, 3);
    PagesRecords(history, req, 3);
  }

  // ------------------------------------------------------------ collection

  /** `{ ...r, _portfolioId: pid, _leadUid: uid }` */
  function Tag(r: Js.Value, pid: string, uid: Js.Value): (t: Js.Value)
    ensures t.Obj? && Js.Get(t, "_portfolioId") == Js.Str(pid) && Js.Get(t, "_leadUid") == uid
    ensures forall k :: k != "_portfolioId" && k != "_leadUid" ==> Js.Get(t, k) == Js.Get(r, k)
  {
    Js.With(Js.With(r, "_portfolioId", Js.Str(pid)), "_leadUid", uid)
  }

  /** The tagged history records of a uid's portfolios, portfolio by portfolio. */
  function UidRecords(history: PageRequest -> Option<Js.Value>, uid: Js.Value, pids: seq<string>, startTime: real, endTime: real): (rows: seq<Js.Value>)
    ensures forall i :: 0 <= i < |rows| ==>
      && Js.Get(rows[i], "_leadUid") == uid
      && Js.Get(rows[i], "_portfolioId").Str?
      && Js.Get(rows[i], "_portfolioId").s in pids
    decreases |pids|
  {
    if |pids| == 0 then []
    else
      var pid := pids[0];
      var here := Mapped(FirstPages(history, pid, startTime, endTime).records, (r: Js.Value) => Tag(r, pid, uid));
      here + UidRecords(history, uid, pids[1..], startTime, endTime)
  }

  /** The rows of one call: for each visited index, the tagged records of its uid. */
  function Collected(
    uids: seq<string>, at: seq<real>, lookup: string -> Option<Js.Value>,
    history: PageRequest -> Option<Js.Value>, startTime: real, endTime: real): (rows: seq<Js.Value>)
    ensures forall i :: 0 <= i < |rows| ==> exists k :: 0 <= k < |at| && TaggedFor(rows[i], UidAt(uids, at[k]), lookup)
    decreases |at|
  {
    if |at| == 0 then []
    else
      var uid := UidAt(uids, at[0]);
      var here := UidRecords(history, uid, PortfolioIdsOf(uid, lookup), startTime, endTime);
      var rest := Collected(uids, at[1..], lookup, history, startTime, endTime);
      assert forall i :: 0 <= i < |here| ==> TaggedFor(here[i], UidAt(uids, at[0]), lookup);
      assert forall k :: 1 <= k < |at| ==> at[1..][k - 1] == at[k];
      here + rest
  }

  /** The row carries the uid it was fetched for and one of that uid's portfolio ids. */
  predicate TaggedFor(row: Js.Value, uid: Js.Value, lookup: string -> Option<Js.Value>) {
    && Js.Get(row, "_leadUid") == uid
    && Js.Get(row, "_portfolioId").Str?
    && Js.Get(row, "_portfolioId").s in PortfolioIdsOf(uid, lookup)
  }

  /** A short uid the lookup has no portfolios for contributes no rows. */
  lemma UnknownUidSkipped(
    uids: seq<string>, i: real, lookup: string -> Option<Js.Value>,
    history: PageRequest -> Option<Js.Value>, startTime: real, endTime: real)
    requires |Js.ToStr(UidAt(uids, i))| <= 15 && PortfolioIds(lookup(Js.ToStr(UidAt(uids, i)))) == []
    ensures Collected(uids, [i], lookup, history, startTime, endTime) == []
  {
    assert [i][1..] == [];
  }

  // ------------------------------------------------------------ de-duplication

  /** `o?.[name] || ""` as `join` and the template literal render it. */
  function Field(o: Js.Value, name: string): string {
    Js.ToStr(Js.Or(Js.Get(o, name), Js.Str("")))
  }

  /** The six fields `keyOf` tells orders apart by. */
  function KeyFields(o: Js.Value): seq<string> {
    [Field(o, "_portfolioId"), Field(o, "orderTime"), Field(o, "symbol"),
     Field(o, "avgPrice"), Field(o, "executedQty"), Field(o, "side")]
  }

  /** `keyOf`: the six fields joined with `|`. */
  function KeyOf(o: Js.Value): string {
    Join(KeyFields(o), "|")
  }

  /** When no field holds a `|`, two rows share a key exactly when their six fields agree. */
  lemma KeySeparates(a: Js.Value, b: Js.Value)
    requires forall i :: 0 <= i < 6 ==> '|' !in KeyFields(a)[i] && '|' !in KeyFields(b)[i]
    ensures KeyOf(a) == KeyOf(b) <==> KeyFields(a) == KeyFields(b)
  {
    SplitJoin(KeyFields(a), '|');
    SplitJoin(KeyFields(b), '|');
  }

  /** `n(o?.orderUpdateTime || o?.orderTime || 0)` */
  function Stamp(o: Js.Value): real {
    Js.SafeNum(Js.Or(Js.Get(o, "orderUpdateTime"), Js.Or(Js.Get(o, "orderTime"), Js.Num(0.0))))
  }

  /** The replacement test `t > tp` of the `byKey` loop. */
  predicate Newer(o: Js.Value, prev: Js.Value) {
    Stamp(o) > Stamp(prev)
  }

  function Keyed(all: seq<Js.Value>): (items: seq<(string, Js.Value)>)
    ensures |items| == |all| && forall i :: 0 <= i < |all| ==> items[i] == (KeyOf(all[i]), all[i])
  {
    Mapped(all, (o: Js.Value) => (KeyOf(o), o))
  }

  /** `Array.from(byKey.values())` */
  function Deduped(all: seq<Js.Value>): seq<Js.Value> {
    Merge.Values(Merge.Merge(Keyed(all), Newer))
  }

  /** One row per key, every key of the input represented, and the row kept
      for a key is an input row with the strictly greatest stamp of its key,
      the first one seen among equally new ones. */
  lemma DedupFacts(all: seq<Js.Value>)
    ensures var d := Deduped(all);
      && (forall p, q :: 0 <= p < q < |d| ==> KeyOf(d[p]) != KeyOf(d[q]))
      && (forall i :: 0 <= i < |all| ==> Merge.KeyIn(d, KeyOf, KeyOf(all[i])))
      && (forall p :: 0 <= p < |d| ==> Merge.WinningRecord(Keyed(all), Stamp, all, d[p]))
  {
    Merge.ValuesFacts(all, KeyOf, Newer, Stamp, Keyed(all));
  }

  // ------------------------------------------------------------ DTO

  /** `modeFromSide`: BUY and SELL in any letter case; anything else is unknown. */
  function ModeFromSide(side: Js.Value): (m: string)
    ensures m == "long" || m == "short" || m == "unknown"
  {
    var s := ToUpper(Js.ToStr(Js.Or(side, Js.Str(""))));
    if s == "BUY" then "long" else if s == "SELL" then "short" else "unknown"
  }

  /** Sides that differ only in letter case map alike; `buy` is long and `Sell` short. */
  lemma ModeIgnoresCase(a: string, b: string)
    requires ToUpper(a) == ToUpper(b)
    ensures ModeFromSide(Js.Str(a)) == ModeFromSide(Js.Str(b))
    ensures ModeFromSide(Js.Str("buy")) == "long" && ModeFromSide(Js.Str("Sell")) == "short"
    ensures ModeFromSide(Js.Undefined) == "unknown"
  {
    UpperIdempotent("");
  }

  /** `lev`: `raw.leverage` when it is a finite non-zero number, else 1. */
  function Lev(o: Js.Value): (l: real)
    ensures l != 0.0
    ensures Js.Nullish(Js.Get(Js.Get(o, "raw"), "leverage")) ==> l == 1.0
  {
    var v := Js.SafeNum(Js.Get(Js.Get(o, "raw"), "leverage"));
    if v != 0.0 then v else 1.0
  }

  /** `mUSDT(p, a, l, m)`: a positive margin as given; otherwise the notional
      over the leverage (a zero leverage counting as 1), and 0 for a negative one. */
  function MarginUsdt(p: real, a: real, l: real, m: real): (r: real)
    ensures m > 0.0 ==> r == m
    ensures m <= 0.0 && l > 0.0 ==> r * l == p * a
    ensures m <= 0.0 && l == 0.0 ==> r == p * a
    ensures m <= 0.0 && l < 0.0 ==> r == 0.0
  {
    if m > 0.0 then m
    else
      var lv := if l != 0.0 then l else 1.0;
      if lv > 0.0 then p * a / lv else 0.0
  }

  /** The order as the endpoint answers it. `trader` is always empty and
      `marginMode` always "Unknown": the history carries neither. */
  datatype Order = Order(
    id: string, trader: string, traderUid: string, symbol: string, mode: string,
    lev: real, marginMode: string, amount: real, openPrice: real, margin: real,
    notional: real, openAt: real, marginPct: real, raw: Js.Value)

  function ToOrder(o: Js.Value): (d: Order)
    ensures d.raw == o && d.lev == Lev(o) && d.mode == ModeFromSide(Js.Get(o, "side"))
    ensures d.openPrice == Js.SafeNum(Js.Get(o, "avgPrice")) && d.amount == Js.SafeNum(Js.Get(o, "executedQty"))
  {
    Priced(o, Lev(o), Js.SafeNum(Js.Get(o, "avgPrice")), Js.SafeNum(Js.Get(o, "executedQty")))
  }

  /** The order of record `o` at leverage `l`, price `p` and quantity `a`. */
  function Priced(o: Js.Value, l: real, p: real, a: real): (d: Order)
    ensures d.raw == o && d.lev == l && d.mode == ModeFromSide(Js.Get(o, "side"))
    ensures d.openPrice == p && d.amount == a && d.notional == p * a
    ensures d.margin == MarginUsdt(p, a, l, 0.0)
    ensures d.marginPct == Arith.Percent(d.margin, d.notional)
  {
    var notional := p * a;
    var m := MarginUsdt(p, a, l, 0.0);
    Order(
      id := Field(o, "symbol") + "-" + Field(o, "orderTime") + "-" + Field(o, "side"),
      trader := "",
      traderUid := Field(o, "_leadUid"),
      symbol := ReplaceFirst(Field(o, "symbol"), '_', ""),
      mode := ModeFromSide(Js.Get(o, "side")),
      lev := l,
      marginMode := "Unknown",
      amount := a,
      openPrice := p,
      margin := m,
      notional := notional,
      openAt := Js.SafeNum(Js.Or(Js.Get(o, "orderTime"), Js.Num(0.0))),
      marginPct := Arith.Percent(m, notional),
      raw := o)
  }

  /** History records carry no leverage, so the order counts as unlevered:
      its margin is its whole notional, which is 100% of itself. */
  lemma Unlevered(o: Js.Value)
    requires Js.Nullish(Js.Get(Js.Get(o, "raw"), "leverage"))
    ensures var d := ToOrder(o);
      d.lev == 1.0 && d.margin == d.notional && (d.notional > 0.0 ==> d.marginPct == 100.0)
  {
  }

  function OpenAt(d: Order): real {
    d.openAt
  }

  /** The de-duplicated rows as orders, newest `openAt` first. */
  function Orders(all: seq<Js.Value>): seq<Order> {
    Sorting.SortDesc(Mapped(Deduped(all), ToOrder), OpenAt)
  }

  /** Every de-duplicated row is one of the input rows. */
  lemma DedupFromInput(all: seq<Js.Value>)
    ensures forall x :: x in Deduped(all) ==> x in all
  {
    var items := Keyed(all);
    Merge.ValuesFromInput(items, Newer);
    forall x | x in Deduped(all)
      ensures x in all
    {
      var i :| 0 <= i < |items| && items[i].1 == x;
      assert all[i] == x;
    }
  }

  /** The answer lists one order per de-duplicated row, newest first, and
      every order's `raw` is one of the input rows. */
  lemma OrdersFacts(all: seq<Js.Value>)
    ensures Sorting.Descending(Orders(all), OpenAt)
    ensures multiset(Orders(all)) == multiset(Mapped(Deduped(all), ToOrder))
    ensures forall i :: 0 <= i < |Orders(all)| ==> Orders(all)[i].raw in all
  {
    var d := Deduped(all);
    var r := Orders(all);
    Sorting.SortDescFacts(Mapped(d, ToOrder), OpenAt);
    DedupFromInput(all);
    forall i | 0 <= i < |r|
      ensures r[i].raw in all
    {
      var x := PickSource(d, ToOrder, r, r[i]);
    }
  }

  // ------------------------------------------------------------ the call

  /** The answer: the window, `limit` (read but unused), the time range and the orders. */
  datatype Reply = Reply(window: Window, limitUsed: real, startTime: real, endTime: real, data: seq<Order>)

  /** One call, given its parameter lookup and the current time in milliseconds. */
  function Handle(
    param: string -> Js.Value, now: real, lookup: string -> Option<Js.Value>,
    history: PageRequest -> Option<Js.Value>): Reply
  {
    var uids := Uids(param);
    var w := WindowOf(|uids|, param("cursor"), param("max"));
    var startTime := Js.SafeNum(Js.Or(param("startTime"), Js.Num(now - Week)));
    var endTime := Js.SafeNum(Js.Or(param("endTime"), Js.Num(now)));
    var all := Collected(uids, Steps(w.start, w.end), lookup, history, startTime, endTime);
    Reply(w, Js.SafeNum(Js.Or(param("limit"), Js.Num(50.0))), startTime, endTime, Orders(all))
  }

  /** Every order's row was tagged for the uid at one of the visited indexes `at`. */
  predicate FromUids(data: seq<Order>, uids: seq<string>, at: seq<real>, lookup: string -> Option<Js.Value>) {
    forall i :: 0 <= i < |data| ==>
      exists k :: 0 <= k < |at| && TaggedFor(data[i].raw, UidAt(uids, at[k]), lookup)
  }

  lemma CollectedOrders(
    uids: seq<string>, at: seq<real>, lookup: string -> Option<Js.Value>,
    history: PageRequest -> Option<Js.Value>, startTime: real, endTime: real)
    ensures Sorting.Descending(Orders(Collected(uids, at, lookup, history, startTime, endTime)), OpenAt)
    ensures FromUids(Orders(Collected(uids, at, lookup, history, startTime, endTime)), uids, at, lookup)
  {
    var all := Collected(uids, at, lookup, history, startTime, endTime);
    var r := Orders(all);
    OrdersFacts(all);
    forall i | 0 <= i < |r|
      ensures exists k :: 0 <= k < |at| && TaggedFor(r[i].raw, UidAt(uids, at[k]), lookup)
    {
      var j :| 0 <= j < |all| && all[j] == r[i].raw;
    }
  }

  /** The answer's orders are newest first, and each came from a uid inside
      the call's window and one of that uid's portfolios. */
  lemma HandleFacts(
    param: string -> Js.Value, now: real, lookup: string -> Option<Js.Value>,
    history: PageRequest -> Option<Js.Value>)
    ensures var r := Handle(param, now, lookup, history);
      && r.window == WindowOf(|Uids(param)|, param("cursor"), param("max"))
      && Sorting.Descending(r.data, OpenAt)
      && FromUids(r.data, Uids(param), Steps(r.window.start, r.window.end), lookup)
  {
    var r := Handle(param, now, lookup, history);
    CollectedOrders(Uids(param), Steps(r.window.start, r.window.end), lookup, history, r.startTime, r.endTime);
  }

  /** `GET /api/binance/orders`: the parameters come from the query string. */
  function Endpoint(
    query: seq<(string, string)>, now: real, lookup: string -> Option<Js.Value>,
    history: PageRequest -> Option<Js.Value>): Reply
  {
    Handle(name => QueryGet(query, name), now, lookup, history)
  }

  /** The script: the parameters come from `--name=value` arguments. */
  function Script(
    argv: seq<string>, now: real, lookup: string -> Option<Js.Value>,
    history: PageRequest -> Option<Js.Value>): Reply
  {
    Handle(name => Js.Get(ParseArgs(argv), name), now, lookup, history)
  }
}
