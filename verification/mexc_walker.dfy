/** The per-trader order-history walk of the MEXC exporter.

    Requests carry a page number and, once the upstream has handed one out,
    a `pageTime` cursor. The walk appends every non-empty page, stops on an
    empty or short page, gives up after two consecutive full pages that
    carry no cursor, and, when the cursor repeats, issues one last
    "recheck" request and stops whatever it returns.

    The upstream is a function from a request to the parsed response, or
    `None` when `fetchJson` gave up and threw (which aborts the whole walk).
    The loop has no page ceiling, so the model carries fuel: one unit per
    iteration of the `while (true)`. */
module MexcWalker {
  import opened Outcome
  import Js

  datatype Request = Request(page: nat, pageTime: Option<string>)

  /** `lastCursor`: never assigned, assigned `null`, or assigned a cursor (kept as its `String`). */
  datatype Last = Unset | NullCursor | Seen(text: string)

  datatype End = Finished | Threw | OutOfFuel

  datatype Walk = Walk(rows: seq<Js.Value>, requests: seq<Request>, end: End)

  type Upstream = Request -> Option<Js.Value>

  /** `(data?.data || {}).content` when it is an array, else `[]`. */
  function Content(data: Js.Value): (c: seq<Js.Value>) {
    var d := Js.Or(Js.Get(data, "data"), Js.Obj([]));
    var content := Js.Get(d, "content");
    if content.Arr? then content.items else []
  }

  /** The recheck's `checkData?.data?.content` reads the same array. */
  lemma RecheckContent(data: Js.Value)
    ensures Content(data) == (var c := Js.Get(Js.Get(data, "data"), "content"); if c.Arr? then c.items else [])
  {
  }

  /** `{ uid: String(uid), ...o }` for every record of a page. */
  function Tagged(uid: string, content: seq<Js.Value>): (rows: seq<Js.Value>)
    ensures |rows| == |content|
  {
    seq(|content|, i requires 0 <= i < |content| => Js.Obj(Js.Spread([("uid", Js.Str(uid))], content[i])))
  }

  /** A tagged row has the record's own fields and a `uid`: the record's own when it has one, the walk's otherwise. */
  lemma TaggedFields(uid: string, content: seq<Js.Value>, i: int, k: string)
    requires 0 <= i < |content|
    ensures Tagged(uid, content)[i].Obj?
    ensures k != "uid" ==> Js.Get(Tagged(uid, content)[i], k) == Js.Get(content[i], k)
    ensures k == "uid" ==>
              Js.Get(Tagged(uid, content)[i], k)
              == (if Js.HasKey(Js.FieldsOf(content[i]), "uid") then Js.Get(content[i], "uid") else Js.Str(uid))
  {
    assert Tagged(uid, content)[i].fields == Js.Spread([("uid", Js.Str(uid))], content[i]);
    var base := [("uid", Js.Str(uid))];
    Js.LookupMissing(Js.FieldsOf(content[i]), k);
    assert base[..0] == [];
    assert k != "uid" ==> Js.Lookup(base, k) == Js.Undefined;
    assert Js.Get(Tagged(uid, content)[i], k)
        == (if Js.HasKey(Js.FieldsOf(content[i]), k) then Js.Lookup(Js.FieldsOf(content[i]), k) else Js.Lookup(base, k));
  }

  /** `content.at(-1)?.pageTime` */
  function NextCursor(content: seq<Js.Value>): Js.Value
    requires |content| > 0
  {
    Js.Get(content[|content| - 1], "pageTime")
  }

  /** `String(lastCursor)` for an assigned `lastCursor`. */
  function LastText(last: Last): string
    requires !last.Unset?
  {
    if last.Seen? then last.text else "null"
  }

  /** The request that follows a full page: the next page number, and the
      page's cursor when it has one, the old cursor otherwise. */
  function Advance(req: Request, content: seq<Js.Value>): (next: Request)
    requires |content| > 0
    ensures next.page == req.page + 1
    ensures Js.Nullish(NextCursor(content)) ==> next.pageTime == req.pageTime
    ensures !Js.Nullish(NextCursor(content)) ==> next.pageTime == Some(Js.ToStr(NextCursor(content)))
  {
    var c := NextCursor(content);
    Request(req.page + 1, if Js.Nullish(c) then req.pageTime else Some(Js.ToStr(c)))
  }

  /** Put one appended page and its request in front of the rest of the walk; a throw later loses everything. */
  function Prepend(rows: seq<Js.Value>, req: Request, w: Walk): Walk {
    if w.end.Threw? then Walk([], [req] + w.requests, Threw)
    else Walk(rows + w.rows, [req] + w.requests, w.end)
  }

  /** What the loop does after receiving `content`. */
  datatype Move = Stop | Recheck | Next(last: Last)

  /** The `break`s and `continue`s of the loop body, in their order. */
  function MoveAfter(limit: int, page: nat, last: Last, content: seq<Js.Value>): (m: Move)
    ensures m.Next? || m.Recheck? ==> |content| == limit > 0
    ensures |content| == 0 || |content| != limit ==> m == Stop
    ensures m.Recheck? ==> !Js.Nullish(NextCursor(content)) && !last.Unset? && Js.ToStr(NextCursor(content)) == LastText(last)
    ensures m.Next? ==> m.last == (if Js.Nullish(NextCursor(content)) then NullCursor else Seen(Js.ToStr(NextCursor(content))))
  {
    if |content| == 0 || |content| != limit then Stop
    else
      var next := NextCursor(content);
      if Js.Nullish(next) then
        if page >= 2 && !last.Seen? then Stop else Next(NullCursor)
      else if !last.Unset? && Js.ToStr(next) == LastText(last) then Recheck
      else Next(Seen(Js.ToStr(next)))
  }

  /** The loop body from request `req` with `lastCursor == last`. */
  function Loop(uid: string, limit: int, up: Upstream, fuel: nat, req: Request, last: Last): Walk
    decreases fuel
  {
    if fuel == 0 then Walk([], [], OutOfFuel)
    else match up(req)
      case None => Walk([], [req], Threw)
      case Some(data) =>
        var content := Content(data);
        match MoveAfter(limit, req.page, last, content)
        case Stop => Walk(Tagged(uid, content), [req], Finished)
        case Recheck =>
          var check := Advance(req, content);
          (match up(check)
           case None => Walk([], [req, check], Threw)
           case Some(checkData) => Walk(Tagged(uid, content) + Tagged(uid, Content(checkData)), [req, check], Finished))
        case Next(l) => Prepend(Tagged(uid, content), req, Loop(uid, limit, up, fuel - 1, Advance(req, content), l))
  }

  /** `fetchOrdersByUIDAllPages(uid)`: page 1, no cursor, `lastCursor` unset. */
  function FetchAll(uid: string, limit: int, up: Upstream, fuel: nat): Walk {
    Loop(uid, limit, up, fuel, Request(1, None), Unset)
  }

  /** The rows the responses to `reqs` contribute, in request order. */
  function Gathered(uid: string, up: Upstream, reqs: seq<Request>): seq<Js.Value>
    decreases |reqs|
  {
    if |reqs| == 0 then []
    else
      var here := match up(reqs[0]) case None => [] case Some(d) => Tagged(uid, Content(d));
      here + Gathered(uid, up, reqs[1..])
  }

  /** Request `k + 1` follows a full page answering request `k`. */
  ghost predicate StepAt(up: Upstream, limit: int, reqs: seq<Request>, k: int) {
    && 0 <= k < |reqs| - 1
    && up(reqs[k]).Some?
    && |Content(up(reqs[k]).value)| == limit > 0
    && reqs[k + 1] == Advance(reqs[k], Content(up(reqs[k]).value))
  }

  /** Every request after the first follows a full page of the one before it. */
  ghost predicate Chained(up: Upstream, limit: int, reqs: seq<Request>) {
    forall k :: 0 <= k < |reqs| - 1 ==> StepAt(up, limit, reqs, k)
  }

  lemma ChainedCons(up: Upstream, limit: int, req: Request, rest: seq<Request>)
    requires up(req).Some? && |Content(up(req).value)| == limit > 0
    requires |rest| > 0 ==> rest[0] == Advance(req, Content(up(req).value))
    requires Chained(up, limit, rest)
    ensures Chained(up, limit, [req] + rest)
  {
    var reqs := [req] + rest;
    forall k | 0 <= k < |reqs| - 1
      ensures StepAt(up, limit, reqs, k)
    {
      if k > 0 {
        assert StepAt(up, limit, rest, k - 1);
        assert reqs[k] == rest[k - 1] && reqs[k + 1] == rest[k];
      }
    }
  }

  lemma ChainedInit(up: Upstream, limit: int, reqs: seq<Request>)
    requires Chained(up, limit, reqs) && |reqs| > 0
    ensures Chained(up, limit, reqs[..|reqs| - 1])
  {
    var init := reqs[..|reqs| - 1];
    forall k | 0 <= k < |init| - 1
      ensures StepAt(up, limit, init, k)
    {
      assert StepAt(up, limit, reqs, k);
      assert init[k] == reqs[k] && init[k + 1] == reqs[k + 1];
    }
  }

  /** What a walk is, whatever the upstream: it starts with `req`, each
      further request is the advance over a full page, at most one request
      per unit of fuel plus the recheck, and unless it threw, its rows are
      exactly the pages it received, in order. A thrown walk keeps no rows. */
  lemma {:induction false} LoopFacts(uid: string, limit: int, up: Upstream, fuel: nat, req: Request, last: Last)
    ensures var w := Loop(uid, limit, up, fuel, req, last);
      && |w.requests| <= fuel + 1
      && (fuel > 0 ==> |w.requests| >= 1 && w.requests[0] == req)
      && (fuel == 0 <==> |w.requests| == 0)
      && Chained(up, limit, w.requests)
      && (w.end.Threw? ==> w.rows == [] && up(w.requests[|w.requests| - 1]).None?)
      && (!w.end.Threw? ==> w.rows == Gathered(uid, up, w.requests))
      && (w.end.OutOfFuel? ==> |w.requests| == fuel)
    decreases fuel
  {
    if fuel > 0 && up(req).Some? {
      var content := Content(up(req).value);
      match MoveAfter(limit, req.page, last, content)
      case Stop =>
        GatheredOne(uid, up, req);
      case Recheck =>
        RecheckFacts(uid, limit, up, fuel, req, last);
      case Next(l) =>
        var rest := Loop(uid, limit, up, fuel - 1, Advance(req, content), l);
        LoopFacts(uid, limit, up, fuel - 1, Advance(req, content), l);
        NextFacts(uid, limit, up, fuel, req, rest);
    }
  }

  lemma GatheredOne(uid: string, up: Upstream, req: Request)
    requires up(req).Some?
    ensures Gathered(uid, up, [req]) == Tagged(uid, Content(up(req).value))
  {
    assert [req][1..] == [];
  }

  lemma RecheckFacts(uid: string, limit: int, up: Upstream, fuel: nat, req: Request, last: Last)
    requires fuel > 0 && up(req).Some?
    requires MoveAfter(limit, req.page, last, Content(up(req).value)).Recheck?
    ensures var w := Loop(uid, limit, up, fuel, req, last);
      && w.requests == [req, Advance(req, Content(up(req).value))]
      && Chained(up, limit, w.requests)
      && (w.end.Threw? ==> w.rows == [] && up(w.requests[1]).None?)
      && (!w.end.Threw? ==> w.end.Finished? && w.rows == Gathered(uid, up, w.requests))
  {
    var content := Content(up(req).value);
    var check := Advance(req, content);
    assert [req, check] == [req] + [check];
    ChainedCons(up, limit, req, [check]);
    assert [req, check][1..] == [check];
    if up(check).Some? {
      GatheredOne(uid, up, check);
      assert Gathered(uid, up, [req, check]) == Tagged(uid, content) + Gathered(uid, up, [check]);
    }
  }

  /** A normal advance puts this page's rows and request in front of the
      rest of the walk, and whatever the rest kept as a walk, the longer
      walk keeps too. */
  lemma NextFacts(uid: string, limit: int, up: Upstream, fuel: nat, req: Request, rest: Walk)
    requires fuel > 0 && up(req).Some? && |Content(up(req).value)| == limit > 0
    requires |rest.requests| <= fuel
    requires fuel - 1 > 0 ==> |rest.requests| >= 1 && rest.requests[0] == Advance(req, Content(up(req).value))
    requires fuel - 1 == 0 <==> |rest.requests| == 0
    requires Chained(up, limit, rest.requests)
    requires rest.end.Threw? ==> rest.rows == [] && |rest.requests| > 0 && up(rest.requests[|rest.requests| - 1]).None?
    requires !rest.end.Threw? ==> rest.rows == Gathered(uid, up, rest.requests)
    requires rest.end.OutOfFuel? ==> |rest.requests| == fuel - 1
    ensures var w := Prepend(Tagged(uid, Content(up(req).value)), req, rest);
      && |w.requests| <= fuel + 1
      && |w.requests| >= 1 && w.requests[0] == req
      && Chained(up, limit, w.requests)
      && (w.end.Threw? ==> w.rows == [] && up(w.requests[|w.requests| - 1]).None?)
      && (!w.end.Threw? ==> w.rows == Gathered(uid, up, w.requests))
      && (w.end.OutOfFuel? ==> |w.requests| == fuel)
  {
    ChainedCons(up, limit, req, rest.requests);
    assert ([req] + rest.requests)[1..] == rest.requests;
    if rest.end.Threw? {
      assert ([req] + rest.requests)[|rest.requests|] == rest.requests[|rest.requests| - 1];
    }
  }

  /** The walk asks for pages n, n + 1, n + 2, ... in turn. */
  lemma {:induction false} PagesInTurn(up: Upstream, limit: int, reqs: seq<Request>)
    requires Chained(up, limit, reqs)
    ensures forall k :: 0 <= k < |reqs| ==> reqs[k].page == reqs[0].page + k
    decreases |reqs|
  {
    if |reqs| > 1 {
      ChainedInit(up, limit, reqs);
      PagesInTurn(up, limit, reqs[..|reqs| - 1]);
      assert StepAt(up, limit, reqs, |reqs| - 2);
    }
  }

  /** A `pageTime` is only ever sent after some page handed out a cursor:
      while no page had one, the request carries none. */
  lemma {:induction false} NoCursorUntilGiven(up: Upstream, limit: int, reqs: seq<Request>, k: nat)
    requires Chained(up, limit, reqs) && k < |reqs| && reqs[0].pageTime.None?
    requires forall j :: 0 <= j < k ==> StepAt(up, limit, reqs, j) && Js.Nullish(NextCursor(Content(up(reqs[j]).value)))
    ensures reqs[k].pageTime.None?
    decreases k
  {
    if k > 0 {
      NoCursorUntilGiven(up, limit, reqs, k - 1);
      assert StepAt(up, limit, reqs, k - 1);
    }
  }

  /** An empty first response ends the walk with nothing. */
  lemma EmptyPageStops(uid: string, limit: int, up: Upstream, fuel: nat, req: Request, last: Last)
    requires fuel > 0 && up(req).Some? && |Content(up(req).value)| == 0
    ensures Loop(uid, limit, up, fuel, req, last) == Walk([], [req], Finished)
  {
  }

  /** A short page is kept and ends the walk. */
  lemma ShortPageStops(uid: string, limit: int, up: Upstream, fuel: nat, req: Request, last: Last)
    requires fuel > 0 && up(req).Some?
    requires 0 < |Content(up(req).value)| != limit
    ensures Loop(uid, limit, up, fuel, req, last) == Walk(Tagged(uid, Content(up(req).value)), [req], Finished)
  {
  }

  /** Two full pages in a row without a cursor, from page 2 on, end the walk. */
  lemma CursorlessTwiceStops(uid: string, limit: int, up: Upstream, fuel: nat, req: Request)
    requires fuel > 0 && req.page >= 2 && up(req).Some?
    requires |Content(up(req).value)| == limit > 0 && Js.Nullish(NextCursor(Content(up(req).value)))
    ensures Loop(uid, limit, up, fuel, req, NullCursor).end == Finished
    ensures Loop(uid, limit, up, fuel, req, NullCursor).requests == [req]
  {
  }

  /** A repeated cursor triggers exactly one more request, with the next page
      number and that cursor, and the walk ends with whatever it returned. */
  lemma RepeatRechecksOnce(uid: string, limit: int, up: Upstream, fuel: nat, req: Request, text: string)
    requires fuel > 0 && up(req).Some?
    requires |Content(up(req).value)| == limit > 0
    requires !Js.Nullish(NextCursor(Content(up(req).value))) && Js.ToStr(NextCursor(Content(up(req).value))) == text
    ensures var w := Loop(uid, limit, up, fuel, req, Seen(text));
      && w.requests == [req, Request(req.page + 1, Some(text))]
      && w.end != OutOfFuel
  {
  }

  /** An upstream that keeps repeating the same full page with the same
      cursor is asked exactly three times: the page, its successor (which
      sets `lastCursor`), and the recheck. */
  lemma StuckUpstreamStops(uid: string, limit: int, up: Upstream, fuel: nat, data: Js.Value)
    requires fuel >= 2
    requires forall r :: up(r) == Some(data)
    requires |Content(data)| == limit > 0 && !Js.Nullish(NextCursor(Content(data)))
    ensures FetchAll(uid, limit, up, fuel).end == Finished
    ensures |FetchAll(uid, limit, up, fuel).requests| == 3
  {
    var c := Js.ToStr(NextCursor(Content(data)));
    var r1 := Request(1, None);
    var r2 := Request(2, Some(c));
    assert Advance(r1, Content(data)) == r2;
    RepeatRechecksOnce(uid, limit, up, fuel - 1, r2, c);
  }

  /** The walk finishes within `n` iterations when every page from number
      `req.page + n - 1` on is short, empty or a failure. */
  lemma {:induction false} EventuallyShortStops(uid: string, limit: int, up: Upstream, fuel: nat, req: Request, last: Last, n: nat)
    requires 1 <= n <= fuel
    requires forall r: Request :: r.page >= req.page + n - 1 ==> up(r).None? || |Content(up(r).value)| != limit
    ensures Loop(uid, limit, up, fuel, req, last).end != OutOfFuel
    decreases n
  {
    if up(req).Some? {
      var content := Content(up(req).value);
      var m := MoveAfter(limit, req.page, last, content);
      if m.Next? {
        var rest := Loop(uid, limit, up, fuel - 1, Advance(req, content), m.last);
        assert Loop(uid, limit, up, fuel, req, last) == Prepend(Tagged(uid, content), req, rest);
        EventuallyShortStops(uid, limit, up, fuel - 1, Advance(req, content), m.last, n - 1);
      }
    }
  }
}
