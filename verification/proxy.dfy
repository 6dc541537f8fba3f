/** The `/api/call` pass-through proxy: after the shared-key check it takes
    the target URL from the `callUrl` query parameter, refuses targets that
    are not plain http(s) or that name the local machine, optionally
    overwrites the target's `limit` parameter, forwards the request with the
    connection-level and gateway headers stripped, retries once when the
    upstream request throws, and relays the upstream status, headers and
    body with the CORS headers added.

    URL parsing is a parameter: a function from the text to the parsed
    protocol, hostname, query and the rest of the URL (port, path, fragment)
    kept as one opaque string, or `None` where `new URL` throws. Header
    lists and query lists are name-value pairs in order, as the `Headers`
    and `URLSearchParams` objects present them (header names already in
    lower case). The upstream is a function from the forwarded request to
    the outcome of each attempt; the bodies are opaque strings and the
    pause between attempts is left out. */
module Proxy {
  import opened Outcome
  import opened Text
  import Gate

  type Pairs = seq<(string, string)>

  // ------------------------------------------------------------ name-value lists

  /** `getAll(name)`: the values stored under `name`, in order. */
  function Values(ps: Pairs, name: string): (r: seq<string>)
    ensures |r| <= |ps|
    ensures forall v :: v in r <==> (name, v) in ps
  {
    if ps == [] then []
    else (if ps[0].0 == name then [ps[0].1] else []) + Values(ps[1..], name)
  }

  /** `get(name)`: the first value stored under `name`. */
  function Get(ps: Pairs, name: string): (r: Option<string>)
    ensures r.Some? <==> Values(ps, name) != []
    ensures r.Some? ==> r.value == Values(ps, name)[0]
    ensures r.None? <==> forall i | 0 <= i < |ps| :: ps[i].0 != name
    ensures r.Some? ==> exists i | 0 <= i < |ps| :: ps[i] == (name, r.value) && forall j | 0 <= j < i :: ps[j].0 != name
  {
    if ps == [] then None
    else if ps[0].0 == name then Some(ps[0].1)
    else Get(ps[1..], name)
  }

  /** `delete(name)`: every pair named `name` removed, the rest kept in order. */
  function Drop(ps: Pairs, name: string): (r: Pairs)
    ensures |r| <= |ps|
    ensures forall p :: p in r <==> p in ps && p.0 != name
  {
    if ps == [] then []
    else (if ps[0].0 == name then [] else [ps[0]]) + Drop(ps[1..], name)
  }

  lemma {:induction false} ValuesAppend(ps: Pairs, qs: Pairs, name: string)
    ensures Values(ps + qs, name) == Values(ps, name) + Values(qs, name)
  {
    if ps != [] {
      var here := if ps[0].0 == name then [ps[0].1] else [];
      assert (ps + qs)[0] == ps[0] && (ps + qs)[1..] == ps[1..] + qs;
      ValuesAppend(ps[1..], qs, name);
      assert Values(ps + qs, name) == here + (Values(ps[1..], name) + Values(qs, name));
      assert here + (Values(ps[1..], name) + Values(qs, name)) == (here + Values(ps[1..], name)) + Values(qs, name);
    } else {
      assert ps + qs == qs;
    }
  }

  lemma {:induction false} DropAppend(ps: Pairs, qs: Pairs, name: string)
    ensures Drop(ps + qs, name) == Drop(ps, name) + Drop(qs, name)
  {
    if ps != [] {
      var here := if ps[0].0 == name then [] else [ps[0]];
      assert (ps + qs)[0] == ps[0] && (ps + qs)[1..] == ps[1..] + qs;
      DropAppend(ps[1..], qs, name);
      assert Drop(ps + qs, name) == here + (Drop(ps[1..], name) + Drop(qs, name));
      assert here + (Drop(ps[1..], name) + Drop(qs, name)) == (here + Drop(ps[1..], name)) + Drop(qs, name);
    } else {
      assert ps + qs == qs;
    }
  }

  /** Deleting one name leaves the values of every other name as they were. */
  lemma {:induction false} ValuesDrop(ps: Pairs, gone: string, name: string)
    ensures Values(Drop(ps, gone), name) == if name == gone then [] else Values(ps, name)
  {
    if ps != [] {
      ValuesDrop(ps[1..], gone, name);
      ValuesAppend(if ps[0].0 == gone then [] else [ps[0]], Drop(ps[1..], gone), name);
    }
  }

  lemma {:induction false} DropTwice(ps: Pairs, name: string)
    ensures Drop(Drop(ps, name), name) == Drop(ps, name)
  {
    if ps != [] {
      DropTwice(ps[1..], name);
      DropAppend(if ps[0].0 == name then [] else [ps[0]], Drop(ps[1..], name), name);
    }
  }

  /** The first pair named `name` takes the value, later ones are removed. */
  function Replace(ps: Pairs, name: string, value: string): (r: Pairs)
    requires Values(ps, name) != []
    ensures Values(r, name) == [value]
    ensures Drop(r, name) == Drop(ps, name)
  {
    if ps[0].0 == name then
      var r := [(name, value)] + Drop(ps[1..], name);
      ValuesAppend([(name, value)], Drop(ps[1..], name), name);
      ValuesDrop(ps[1..], name, name);
      DropAppend([(name, value)], Drop(ps[1..], name), name);
      DropTwice(ps[1..], name);
      r
    else
      var rest := Replace(ps[1..], name, value);
      ValuesAppend([ps[0]], rest, name);
      DropAppend([ps[0]], rest, name);
      [ps[0]] + rest
  }

  /** `set(name, value)` of both `URLSearchParams` and `Headers`: afterwards
      `name` holds exactly `value`, every other pair is kept in order, and a
      new name goes to the end. */
  function Assign(ps: Pairs, name: string, value: string): (r: Pairs)
    ensures Values(r, name) == [value]
    ensures Drop(r, name) == Drop(ps, name)
    ensures Values(ps, name) == [] ==> r == ps + [(name, value)]
  {
    if Values(ps, name) == [] then
      ValuesAppend(ps, [(name, value)], name);
      DropAppend(ps, [(name, value)], name);
      ps + [(name, value)]
    else
      Replace(ps, name, value)
  }

  /** Setting a name leaves the values of every other name as they were. */
  lemma AssignKeepsOthers(ps: Pairs, name: string, value: string, other: string)
    requires other != name
    ensures Values(Assign(ps, name, value), other) == Values(ps, other)
  {
    ValuesDrop(Assign(ps, name, value), name, other);
    ValuesDrop(ps, name, other);
  }

  /** Setting the same value twice is the same as setting it once. */
  lemma AssignIdempotent(ps: Pairs, name: string, value: string)
    ensures Assign(Assign(ps, name, value), name, value) == Assign(ps, name, value)
  {
    AssignSingle(Assign(ps, name, value), name);
  }

  /** Setting a name that already holds one value to that value changes nothing. */
  lemma {:induction false} AssignSingle(ps: Pairs, name: string)
    requires |Values(ps, name)| == 1
    ensures Assign(ps, name, Values(ps, name)[0]) == ps
  {
    ReplaceSingle(ps, name);
  }

  lemma {:induction false} ReplaceSingle(ps: Pairs, name: string)
    requires |Values(ps, name)| == 1
    ensures Replace(ps, name, Values(ps, name)[0]) == ps
  {
    if ps[0].0 == name {
      assert Values(ps[1..], name) == [];
      DropNone(ps[1..], name);
    } else {
      ReplaceSingle(ps[1..], name);
    }
  }

  lemma {:induction false} DropNone(ps: Pairs, name: string)
    requires Values(ps, name) == []
    ensures Drop(ps, name) == ps
  {
    if ps != [] {
      DropNone(ps[1..], name);
    }
  }

  /** `for (const h of names) headers.delete(h)` */
  function DropAll(ps: Pairs, names: seq<string>): (r: Pairs)
    ensures forall n :: n in names ==> Values(r, n) == []
    ensures forall n :: n !in names ==> Values(r, n) == Values(ps, n)
    decreases |names|
  {
    if names == [] then ps
    else
      var once := Drop(ps, names[0]);
      var r := DropAll(once, names[1..]);
      forall n ensures Values(once, n) == if n == names[0] then [] else Values(ps, n) {
        ValuesDrop(ps, names[0], n);
      }
      r
  }

  // ------------------------------------------------------------ constants

  /** The connection-level headers of section 13.5.1 of RFC 2616. */
  const HopByHop: seq<string> :=
    ["connection", "keep-alive", "proxy-authenticate", "proxy-authorization",
     "te", "trailer", "transfer-encoding", "upgrade"]

  /** `corsHeaders()` */
  const Cors: Pairs := [
    ("access-control-allow-origin", "*"),
    ("access-control-allow-methods", "GET,POST,PUT,DELETE,PATCH,OPTIONS"),
    ("access-control-allow-headers", "Content-Type, X-API-Key")]

  /** `addCors`: the three CORS headers set over whatever was there. */
  function AddCors(ps: Pairs): (r: Pairs)
    ensures forall i :: 0 <= i < |Cors| ==> Values(r, Cors[i].0) == [Cors[i].1]
    ensures forall n :: (forall i :: 0 <= i < |Cors| ==> n != Cors[i].0) ==> Values(r, n) == Values(ps, n)
  {
    var r := Assign(Assign(Assign(ps, Cors[0].0, Cors[0].1), Cors[1].0, Cors[1].1), Cors[2].0, Cors[2].1);
    CorsNamesDistinct();
    AssignThree(ps, Cors[0].0, Cors[0].1, Cors[1].0, Cors[1].1, Cors[2].0, Cors[2].1, "");
    forall i | 0 <= i < |Cors| ensures Values(r, Cors[i].0) == [Cors[i].1] {
      assert i == 0 || i == 1 || i == 2;
    }
    forall n | (forall i :: 0 <= i < |Cors| ==> n != Cors[i].0) ensures Values(r, n) == Values(ps, n) {
      assert n != Cors[0].0 && n != Cors[1].0 && n != Cors[2].0;
      AssignThree(ps, Cors[0].0, Cors[0].1, Cors[1].0, Cors[1].1, Cors[2].0, Cors[2].1, n);
    }
    r
  }

  lemma CorsNamesDistinct()
    ensures Cors[0].0 != Cors[1].0 && Cors[1].0 != Cors[2].0 && Cors[0].0 != Cors[2].0
  {
  }

  /** Three settings of distinct names, one after the other. */
  lemma AssignThree(ps: Pairs, n0: string, v0: string, n1: string, v1: string, n2: string, v2: string, n: string)
    requires n0 != n1 && n1 != n2 && n0 != n2
    ensures var r := Assign(Assign(Assign(ps, n0, v0), n1, v1), n2, v2);
      && Values(r, n0) == [v0] && Values(r, n1) == [v1] && Values(r, n2) == [v2]
      && (n != n0 && n != n1 && n != n2 ==> Values(r, n) == Values(ps, n))
  {
    var a := Assign(ps, n0, v0);
    var b := Assign(a, n1, v1);
    AssignKeepsOthers(b, n2, v2, n1);
    AssignKeepsOthers(b, n2, v2, n0);
    AssignKeepsOthers(a, n1, v1, n0);
    if n != n0 && n != n1 && n != n2 {
      AssignKeepsOthers(b, n2, v2, n);
      AssignKeepsOthers(a, n1, v1, n);
      AssignKeepsOthers(ps, n0, v0, n);
    }
  }

  // ------------------------------------------------------------ isSafeTarget

  /** What `new URL(text)` yields, as far as the proxy looks at it. */
  datatype Url = Url(protocol: string, hostname: string, rest: string, query: Pairs)

  /** The hostnames the guard refuses, after lower-casing. */
  predicate LocalAsWritten(host: string) {
    || host == "localhost" || host == "127.0.0.1" || host == "::1"
    || EndsWith(host, ".localhost") || StartsWith(host, "169.254.")
  }

  /** `isSafeTarget` as written: a URL that does not parse, a protocol other
      than http and https, and a local hostname are refused. */
  predicate GuardAsWritten(parsed: Option<Url>) {
    match parsed
    case None => false
    case Some(u) => (u.protocol == "http:" || u.protocol == "https:") && !LocalAsWritten(ToLower(u.hostname))
  }

  /** The URL parser renders an IPv6 hostname in brackets, so the loopback
      address reaches the guard as `[::1]` and is let through. */
  lemma GuardAsWrittenAdmitsIpv6Loopback()
    ensures GuardAsWritten(Some(Url("http:", "[::1]", "/", [])))
  {
    assert ToLower("[::1]") == "[::1]";
    assert !StartsWith("[::1]", "169.254.");
  }

  /** The hostnames refused, with the IPv6 loopback in both spellings. */
  predicate Local(host: string) {
    LocalAsWritten(host) || host == "[::1]"
  }

  /** `isSafeTarget` with the bracketed loopback refused too. */
  function IsSafeTarget(parsed: Option<Url>): (r: bool)
    ensures r ==> parsed.Some? && (parsed.value.protocol == "http:" || parsed.value.protocol == "https:")
    ensures r ==> GuardAsWritten(parsed)
    ensures GuardAsWritten(parsed) && !r ==> ToLower(parsed.value.hostname) == "[::1]"
  {
    match parsed
    case None => false
    case Some(u) => (u.protocol == "http:" || u.protocol == "https:") && !Local(ToLower(u.hostname))
  }

  /** Both spellings of every loopback name are refused, whatever their case,
      and so is every `.localhost` subdomain and the link-local range. */
  lemma IsSafeTargetRefusesLocal(protocol: string, host: string, rest: string, query: Pairs)
    requires var h := ToLower(host);
      || h == "localhost" || h == "127.0.0.1" || h == "::1" || h == "[::1]"
      || EndsWith(h, ".localhost") || StartsWith(h, "169.254.")
    ensures !IsSafeTarget(Some(Url(protocol, host, rest, query)))
  {
  }

  /** The guard does not depend on the case of the hostname. */
  lemma GuardIgnoresCase(u: Url, v: Url)
    requires u.protocol == v.protocol && ToLower(u.hostname) == ToLower(v.hostname)
    ensures IsSafeTarget(Some(u)) == IsSafeTarget(Some(v))
  {
  }

  // ------------------------------------------------------------ mergeLimitParam

  /** Where the request goes: the text as given, or the URL rebuilt by `u.toString()`. */
  datatype Destination = AsGiven(text: string) | Rebuilt(url: Url)

  /** `mergeLimitParam`: with a non-empty limit the target's `limit` parameter
      is set to it, replacing any it had; otherwise the text is kept. */
  function MergeLimit(text: string, u: Url, limit: Option<string>): (r: Destination)
    ensures limit.GetOr("") == "" <==> r == AsGiven(text)
    ensures r.Rebuilt? ==>
      && Values(r.url.query, "limit") == [limit.value]
      && Drop(r.url.query, "limit") == Drop(u.query, "limit")
      && r.url.protocol == u.protocol && r.url.hostname == u.hostname && r.url.rest == u.rest
  {
    if limit.GetOr("") == "" then AsGiven(text)
    else Rebuilt(u.(query := Assign(u.query, "limit", limit.value)))
  }

  /** Rebuilding with the limit a URL already carries changes nothing more. */
  lemma MergeLimitIdempotent(text: string, u: Url, limit: Option<string>)
    requires MergeLimit(text, u, limit).Rebuilt?
    ensures MergeLimit(text, MergeLimit(text, u, limit).url, limit) == MergeLimit(text, u, limit)
  {
    AssignIdempotent(u.query, "limit", limit.value);
  }

  // ------------------------------------------------------------ the forwarded request

  const Methods: seq<string> := ["GET", "POST", "PUT", "DELETE", "PATCH"]

  /** The `method` parameter when it names one of the five methods (in any
      case), else the request's own method, upper-cased, `GET` when empty. */
  function Method(param: Option<string>, requestMethod: string): (r: string)
    ensures ToUpper(param.GetOr("")) in Methods ==> r == ToUpper(param.GetOr(""))
    ensures ToUpper(param.GetOr("")) !in Methods ==> r == ToUpper(Fallback(requestMethod, "GET"))
  {
    var asked := ToUpper(param.GetOr(""));
    if asked in Methods then asked else ToUpper(Fallback(requestMethod, "GET"))
  }

  /** The chosen method is always upper case, and the parameter is read
      without regard to case. */
  lemma MethodFacts(param: string, other: string, requestMethod: string)
    ensures ToUpper(Method(Some(param), requestMethod)) == Method(Some(param), requestMethod)
    ensures ToUpper(param) == ToUpper(other) ==> Method(Some(param), requestMethod) == Method(Some(other), requestMethod)
  {
    UpperIdempotent(param);
    UpperIdempotent(Fallback(requestMethod, "GET"));
  }

  /** Only these methods forward the request body. */
  predicate CarriesBody(verb: string) {
    verb in ["POST", "PUT", "PATCH", "DELETE"]
  }

  /** A header the gateway passes upstream. */
  predicate Forwardable(name: string) {
    var key := ToLower(name);
    key !in HopByHop && key != "host" && key != "x-api-key"
  }

  /** The upstream request headers: the incoming ones minus the hop-by-hop
      set, `host` and the gateway key. */
  function ForwardHeaders(incoming: Pairs): (r: Pairs)
    ensures forall p :: p in r <==> p in incoming && Forwardable(p.0)
    ensures forall n :: Values(r, n) == if Forwardable(n) then Values(incoming, n) else []
  {
    if incoming == [] then []
    else
      var here: Pairs := if Forwardable(incoming[0].0) then [incoming[0]] else [];
      var rest := ForwardHeaders(incoming[1..]);
      forall n ensures Values(here + rest, n) == if Forwardable(n) then Values(incoming, n) else [] {
        ValuesAppend(here, rest, n);
      }
      here + rest
  }

  /** The forwarded request. */
  datatype Forwarded = Forwarded(verb: string, destination: Destination, headers: Pairs, withBody: bool)

  /** The query parameters of `/api/call` and the request's own parts up to
      the upstream call: 400 for a missing or refused target. */
  function Prepare(query: Pairs, requestMethod: string, incoming: Pairs, parse: string -> Option<Url>): (r: Result<Forwarded, string>)
    ensures r.Err? <==> CallUrl(query) == "" || !IsSafeTarget(parse(CallUrl(query)))
    ensures r.Ok? ==>
      && r.value.verb == Method(Get(query, "method"), requestMethod)
      && r.value.headers == ForwardHeaders(incoming)
      && (r.value.withBody <==> CarriesBody(r.value.verb))
      && r.value.destination == MergeLimit(CallUrl(query), parse(CallUrl(query)).value, Get(query, "limit"))
  {
    var callUrl := CallUrl(query);
    var verb := Method(Get(query, "method"), requestMethod);
    if callUrl == "" then Err("Missing required param: callUrl")
    else if !IsSafeTarget(parse(callUrl)) then Err("Blocked target URL (protocol/host not allowed).")
    else
      var target := MergeLimit(callUrl, parse(callUrl).value, Get(query, "limit"));
      Ok(Forwarded(verb, target, ForwardHeaders(incoming), CarriesBody(verb)))
  }

  /** `callUrl || callURL`, empty when neither is given. */
  function CallUrl(query: Pairs): (r: string)
    ensures r != "" ==> r == Get(query, "callUrl").GetOr("") || r == Get(query, "callURL").GetOr("")
    ensures Get(query, "callUrl").GetOr("") != "" ==> r == Get(query, "callUrl").value
  {
    Fallback(Get(query, "callUrl").GetOr(""), Get(query, "callURL").GetOr(""))
  }

  // ------------------------------------------------------------ fetchWithRetry

  datatype Response = Response(status: int, statusText: string, headers: Pairs, body: string)

  /** One attempt: a response of any status, or a thrown error (a network
      failure or the ten-second abort). */
  datatype Fetched = Got(response: Response) | Thrown(message: string)

  /** What the retry loop ends with and after how many attempts. */
  datatype Tried = Tried(last: Fetched, attempts: nat)

  /** `fetchWithRetry` from attempt `i` on, with `retries` retries left. */
  function Retrying(outcome: nat -> Fetched, retries: int, i: nat): (r: Tried)
    ensures i < r.attempts <= i + (if retries > 0 then retries else 0) + 1
    ensures r.last == outcome(r.attempts - 1)
    ensures forall j :: i <= j < r.attempts - 1 ==> outcome(j).Thrown?
    ensures r.last.Thrown? ==> r.attempts == i + (if retries > 0 then retries else 0) + 1
    decreases if retries > 0 then retries else 0
  {
    if outcome(i).Got? || retries <= 0 then Tried(outcome(i), i + 1)
    else Retrying(outcome, retries - 1, i + 1)
  }

  /** `fetchWithRetry(url, init, timeoutMs, retries)`: at most `retries + 1`
      attempts, a response of any status ends the loop and is returned as it
      came, and only a thrown error is retried; the last one is rethrown. */
  function FetchWithRetry(outcome: nat -> Fetched, retries: int): (r: Tried)
    ensures 1 <= r.attempts <= (if retries > 0 then retries else 0) + 1
    ensures r.last == outcome(r.attempts - 1)
    ensures forall j :: 0 <= j < r.attempts - 1 ==> outcome(j).Thrown?
    ensures r.last.Thrown? ==> r.attempts == (if retries > 0 then retries else 0) + 1
  {
    Retrying(outcome, retries, 0)
  }

  /** The first response within the allowed attempts is the one returned,
      whatever its status. */
  lemma FirstResponseReturned(outcome: nat -> Fetched, retries: int, j: nat)
    requires j <= (if retries > 0 then retries else 0)
    requires outcome(j).Got? && forall k :: 0 <= k < j ==> outcome(k).Thrown?
    ensures FetchWithRetry(outcome, retries) == Tried(outcome(j), j + 1)
  {
  }

  // ------------------------------------------------------------ onRequest

  datatype Body = NoBody | Failure(error: string) | Relay(statusText: string, content: string)

  datatype Reply = Reply(status: int, headers: Pairs, body: Body)

  /** `json(status, { success: false, error })` */
  function Json(status: int, error: string): (r: Reply)
    ensures r.status == status && r.body == Failure(error)
    ensures Values(r.headers, "content-type") == ["application/json; charset=utf-8"]
  {
    var base := [("content-type", "application/json; charset=utf-8")];
    CorsKeepsShort(base, "content-type");
    assert Values(base, "content-type") == [base[0].1];
    Reply(status, AddCors(base), Failure(error))
  }

  /** `onRequestOptions`: an empty 204 carrying the CORS headers. */
  function Preflight(): (r: Reply)
    ensures r.status == 204 && r.body == NoBody
    ensures forall i :: 0 <= i < |Cors| ==> Values(r.headers, Cors[i].0) == [Cors[i].1]
  {
    Reply(204, AddCors([]), NoBody)
  }

  /** No connection-level header is one of the CORS headers: the former are
      all shorter than twenty characters, the latter all longer. */
  lemma HopByHopNotCors()
    ensures forall n :: n in HopByHop ==> forall i :: 0 <= i < |Cors| ==> n != Cors[i].0
  {
    forall j | 0 <= j < |HopByHop| ensures forall i :: 0 <= i < |Cors| ==> HopByHop[j] != Cors[i].0 {
      ShortNotCors(HopByHop[j]);
    }
  }

  /** Adding the CORS headers leaves a name shorter than twenty characters alone. */
  lemma CorsKeepsShort(ps: Pairs, n: string)
    requires |n| < 20
    ensures Values(AddCors(ps), n) == Values(ps, n)
  {
    ShortNotCors(n);
  }

  /** A name shorter than twenty characters is none of the CORS headers. */
  lemma ShortNotCors(n: string)
    requires |n| < 20
    ensures forall i :: 0 <= i < |Cors| ==> n != Cors[i].0
  {
    CorsNamesLong();
    forall i | 0 <= i < |Cors| ensures n != Cors[i].0 {
      assert i == 0 || i == 1 || i == 2;
    }
  }

  lemma CorsNamesLong()
    ensures |Cors| == 3 && |Cors[0].0| > 20 && |Cors[1].0| > 20 && |Cors[2].0| > 20
  {
  }

  /** The relayed response headers: the upstream ones minus the hop-by-hop
      set, with the CORS headers set over them. */
  function RelayHeaders(upstream: Pairs): (r: Pairs)
    ensures forall n :: n in HopByHop ==> Values(r, n) == []
    ensures forall i :: 0 <= i < |Cors| ==> Values(r, Cors[i].0) == [Cors[i].1]
    ensures forall n :: n !in HopByHop && (forall i :: 0 <= i < |Cors| ==> n != Cors[i].0) ==>
              Values(r, n) == Values(upstream, n)
  {
    var kept := DropAll(upstream, HopByHop);
    var r := AddCors(kept);
    HopByHopNotCors();
    r
  }

  /** `onRequest`: the key check, the target checks, the upstream call with
      one retry, then the relayed response or a 500 carrying the error. */
  function Handle(required: string, query: Pairs, requestMethod: string, incoming: Pairs,
                  parse: string -> Option<Url>, fetch: Forwarded -> nat -> Fetched): (r: Reply)
    ensures r.status == 401 && r.body.Failure? <==> !Gate.Admits(required, Get(incoming, "x-api-key"))
    ensures r.status == 400 && r.body.Failure? <==>
              Gate.Admits(required, Get(incoming, "x-api-key")) && Prepare(query, requestMethod, incoming, parse).Err?
    ensures r.body.Relay? <==>
              && Gate.Admits(required, Get(incoming, "x-api-key"))
              && Prepare(query, requestMethod, incoming, parse).Ok?
              && Call(fetch(Prepare(query, requestMethod, incoming, parse).value)).body.Relay?
  {
    if !Gate.Admits(required, Get(incoming, "x-api-key")) then Json(401, "Unauthorized: invalid x-api-key.")
    else
      match Prepare(query, requestMethod, incoming, parse)
      case Err(e) => Json(400, e)
      case Ok(req) => Call(fetch(req))
  }

  /** The upstream call with one retry: the first response is relayed with
      its status, status text and body, its headers cleaned and the CORS
      headers added; when both attempts throw, a 500 carries the last error. */
  function Call(outcome: nat -> Fetched): (r: Reply)
    ensures r.body.Failure? <==> outcome(0).Thrown? && outcome(1).Thrown?
    ensures r.body.Failure? ==> r == Json(500, outcome(1).message)
    ensures !r.body.Failure? ==>
      var j := if outcome(0).Got? then 0 else 1;
      r == Reply(outcome(j).response.status, RelayHeaders(outcome(j).response.headers),
                 Relay(outcome(j).response.statusText, outcome(j).response.body))
  {
    var tried := FetchWithRetry(outcome, 1);
    match tried.last
    case Thrown(message) => Json(500, message)
    case Got(res) => Reply(res.status, RelayHeaders(res.headers), Relay(res.statusText, res.body))
  }

  /** A refused request is answered without calling the upstream: the answer
      is the same whatever the upstream would have done. */
  lemma RefusedWithoutUpstream(required: string, query: Pairs, requestMethod: string, incoming: Pairs,
                               parse: string -> Option<Url>, f: Forwarded -> nat -> Fetched, g: Forwarded -> nat -> Fetched)
    requires !Gate.Admits(required, Get(incoming, "x-api-key")) || Prepare(query, requestMethod, incoming, parse).Err?
    ensures Handle(required, query, requestMethod, incoming, parse, f) == Handle(required, query, requestMethod, incoming, parse, g)
  {
  }

  /** The gateway key and the host header never go upstream, in any case. */
  lemma ForwardStripsGateway(incoming: Pairs)
    ensures Values(ForwardHeaders(incoming), "x-api-key") == []
    ensures Values(ForwardHeaders(incoming), "host") == []
    ensures forall n :: n in HopByHop ==> Values(ForwardHeaders(incoming), n) == []
  {
    LowerOfLower("x-api-key");
    LowerOfLower("host");
    forall j | 0 <= j < |HopByHop|
      ensures ToLower(HopByHop[j]) == HopByHop[j]
    {
      LowerOfLower(HopByHop[j]);
    }
  }

}
