/** The signed open-positions request of the MEXC contract API: the query
    parameters are rendered into a canonical string (entries without a
    value dropped, keys in ascending order, values URL-encoded, joined with
    `&`), the HMAC-SHA256 signature covers the access key, the request time
    and that string, and the same string becomes the URL's query.

    `localeCompare` is an abstract total preorder on keys, and
    `encodeURIComponent` and the HMAC are parameters; the clock reading is
    an input. */
module Signing {
  import opened Outcome
  import opened Text
  import Js

  const Base: string := "https://contract.mexc.com"
  const Path: string := "/api/v1/private/position/open_positions"

  /** What `localeCompare` has to be for the key sort to be meaningful: a
      total, transitive "not after". */
  ghost predicate Preorder(leq: (string, string) -> bool) {
    && (forall a, b :: leq(a, b) || leq(b, a))
    && (forall a, b, c :: leq(a, b) && leq(b, c) ==> leq(a, c))
  }

  type Entry = (string, Js.Value)

  /** The keys of `es` never go down. */
  predicate Ascending(es: seq<Entry>, leq: (string, string) -> bool) {
    forall i, j :: 0 <= i < j < |es| ==> leq(es[i].0, es[j].0)
  }

  /** `.filter(([, v]) => v !== undefined && v !== null)` */
  function Present(es: seq<Entry>): (r: seq<Entry>)
    ensures forall e :: e in r <==> e in es && !Js.Nullish(e.1)
    ensures |r| <= |es|
  {
    if es == [] then []
    else (if Js.Nullish(es[0].1) then [] else [es[0]]) + Present(es[1..])
  }

  /** One step of an insertion sort: `e` goes before the first entry whose
      key is strictly after its own, so after every entry tied with it. */
  function Insert(e: Entry, es: seq<Entry>, leq: (string, string) -> bool): (r: seq<Entry>)
    requires Preorder(leq)
    ensures multiset(r) == multiset(es) + multiset{e}
    ensures Ascending(es, leq) ==> Ascending(r, leq)
  {
    if es == [] then [e]
    else if !leq(es[0].0, e.0) then
      InFront(e, es, leq);
      [e] + es
    else
      var rest := Insert(e, es[1..], leq);
      assert es == [es[0]] + es[1..];
      HeadStays(e, es, rest, leq);
      [es[0]] + rest
  }

  /** An entry whose key comes before the first key of an ascending list can go in front. */
  lemma InFront(e: Entry, es: seq<Entry>, leq: (string, string) -> bool)
    requires Preorder(leq) && es != [] && !leq(es[0].0, e.0)
    ensures Ascending(es, leq) ==> Ascending([e] + es, leq)
  {
    if Ascending(es, leq) {
      forall j | 0 <= j < |es| ensures leq(e.0, es[j].0) {
        assert leq(e.0, es[0].0);
      }
      AscendingCons(e, es, leq);
    }
  }

  /** The head of an ascending list stays in front of the rest with `e` inserted. */
  lemma HeadStays(e: Entry, es: seq<Entry>, rest: seq<Entry>, leq: (string, string) -> bool)
    requires Preorder(leq) && es != [] && leq(es[0].0, e.0)
    requires multiset(rest) == multiset(es[1..]) + multiset{e}
    requires Ascending(es[1..], leq) ==> Ascending(rest, leq)
    ensures Ascending(es, leq) ==> Ascending([es[0]] + rest, leq)
  {
    if Ascending(es, leq) {
      forall j | 0 <= j < |rest| ensures leq(es[0].0, rest[j].0) {
        assert rest[j] in multiset(rest);
        if rest[j] != e {
          var k :| 0 <= k < |es[1..]| && es[1..][k] == rest[j];
          assert es[k + 1] == rest[j];
        }
      }
      assert Ascending(es[1..], leq) by {
        forall i, j | 0 <= i < j < |es[1..]| ensures leq(es[1..][i].0, es[1..][j].0) {
          assert es[1..][j] == es[j + 1] && es[1..][i] == es[i + 1];
        }
      }
      AscendingCons(es[0], rest, leq);
    }
  }

  lemma AscendingCons(x: Entry, s: seq<Entry>, leq: (string, string) -> bool)
    requires Ascending(s, leq) && forall j :: 0 <= j < |s| ==> leq(x.0, s[j].0)
    ensures Ascending([x] + s, leq)
  {
    var r := [x] + s;
    forall i, j | 0 <= i < j < |r| ensures leq(r[i].0, r[j].0) {
      assert r[j] == s[j - 1];
      if i > 0 {
        assert r[i] == s[i - 1];
      }
    }
  }

  /** Keys neither of which comes after the other. */
  predicate Tied(a: string, b: string, leq: (string, string) -> bool) {
    leq(a, b) && leq(b, a)
  }

  /** The entries of `es` whose key is tied with `k`, in their order in `es`. */
  function Ties(es: seq<Entry>, k: string, leq: (string, string) -> bool): seq<Entry>
    decreases |es|
  {
    if es == [] then []
    else (if Tied(es[0].0, k, leq) then [es[0]] else []) + Ties(es[1..], k, leq)
  }

  lemma {:induction false} TiesSnoc(es: seq<Entry>, e: Entry, k: string, leq: (string, string) -> bool)
    ensures Ties(es + [e], k, leq) == Ties(es, k, leq) + (if Tied(e.0, k, leq) then [e] else [])
    decreases |es|
  {
    var tail := if Tied(e.0, k, leq) then [e] else [];
    if es == [] {
      assert Ties([e], k, leq) == tail + Ties([], k, leq);
    } else {
      var head := if Tied(es[0].0, k, leq) then [es[0]] else [];
      var xs := es + [e];
      assert xs[0] == es[0] && xs[1..] == es[1..] + [e];
      TiesSnoc(es[1..], e, k, leq);
      calc {
        Ties(xs, k, leq);
        head + Ties(es[1..] + [e], k, leq);
        head + (Ties(es[1..], k, leq) + tail);
        (head + Ties(es[1..], k, leq)) + tail;
        Ties(es, k, leq) + tail;
      }
    }
  }

  /** Inserting `e` into an ascending list appends it to its ties. */
  lemma {:induction false} InsertTies(e: Entry, es: seq<Entry>, k: string, leq: (string, string) -> bool)
    requires Preorder(leq) && Ascending(es, leq)
    ensures Ties(Insert(e, es, leq), k, leq) == Ties(es, k, leq) + (if Tied(e.0, k, leq) then [e] else [])
    decreases |es|
  {
    if es == [] {
      assert Ties([e], k, leq) == (if Tied(e.0, k, leq) then [e] else []) + Ties([], k, leq);
    } else if !leq(es[0].0, e.0) {
      TiesInFront(e, es, k, leq);
    } else {
      AscendingTail(es, leq);
      InsertTies(e, es[1..], k, leq);
      assert Insert(e, es, leq) == [es[0]] + Insert(e, es[1..], leq);
      TiesBehind(es[0], es[1..], Insert(e, es[1..], leq), if Tied(e.0, k, leq) then [e] else [], k, leq);
      assert [es[0]] + es[1..] == es;
    }
  }

  lemma TiesInFront(e: Entry, es: seq<Entry>, k: string, leq: (string, string) -> bool)
    requires Preorder(leq) && Ascending(es, leq) && es != [] && !leq(es[0].0, e.0)
    ensures Ties(Insert(e, es, leq), k, leq) == Ties(es, k, leq) + (if Tied(e.0, k, leq) then [e] else [])
  {
    assert Insert(e, es, leq) == [e] + es;
    if Tied(e.0, k, leq) {
      NoTiesAfter(e, es, k, leq);
    }
    TiesCons(e, es, k, leq);
  }

  /** Putting the same entry in front of both sides keeps an appended tie. */
  lemma TiesBehind(x: Entry, xs: seq<Entry>, rest: seq<Entry>, tail: seq<Entry>, k: string, leq: (string, string) -> bool)
    requires Ties(rest, k, leq) == Ties(xs, k, leq) + tail
    ensures Ties([x] + rest, k, leq) == Ties([x] + xs, k, leq) + tail
  {
    TiesCons(x, rest, k, leq);
    TiesCons(x, xs, k, leq);
  }

  lemma TiesCons(x: Entry, xs: seq<Entry>, k: string, leq: (string, string) -> bool)
    ensures Ties([x] + xs, k, leq) == (if Tied(x.0, k, leq) then [x] else []) + Ties(xs, k, leq)
  {
    assert ([x] + xs)[1..] == xs;
  }

  lemma AscendingTail(es: seq<Entry>, leq: (string, string) -> bool)
    requires es != [] && Ascending(es, leq)
    ensures Ascending(es[1..], leq)
  {
    forall i, j | 0 <= i < j < |es[1..]| ensures leq(es[1..][i].0, es[1..][j].0) {
      assert es[1..][j] == es[j + 1] && es[1..][i] == es[i + 1];
    }
  }

  /** When every key of an ascending list is strictly after `e`'s, none is tied with a key tied with `e`. */
  lemma {:induction false} NoTiesAfter(e: Entry, es: seq<Entry>, k: string, leq: (string, string) -> bool)
    requires Preorder(leq) && Ascending(es, leq) && es != [] && !leq(es[0].0, e.0)
    requires Tied(e.0, k, leq)
    ensures Ties(es, k, leq) == []
    decreases |es|
  {
    assert !Tied(es[0].0, k, leq);
    if |es| > 1 {
      AscendingTail(es, leq);
      assert leq(es[0].0, es[1].0);
      NoTiesAfter(e, es[1..], k, leq);
    }
  }

  /** `.sort(([a], [b]) => a.localeCompare(b))`: a permutation in ascending
      key order in which tied entries keep their input order, as the
      language's stable sort does. Each entry is inserted into the sorted
      entries before it. */
  function SortByKey(es: seq<Entry>, leq: (string, string) -> bool): (r: seq<Entry>)
    requires Preorder(leq)
    ensures multiset(r) == multiset(es)
    ensures Ascending(r, leq)
    ensures forall k :: Ties(r, k, leq) == Ties(es, k, leq)
    decreases |es|
  {
    if es == [] then []
    else
      var init := es[..|es| - 1];
      var last := es[|es| - 1];
      assert es == init + [last];
      var sorted := SortByKey(init, leq);
      assert forall k :: Ties(Insert(last, sorted, leq), k, leq) == Ties(es, k, leq) by {
        forall k ensures Ties(Insert(last, sorted, leq), k, leq) == Ties(es, k, leq) {
          InsertTies(last, sorted, k, leq);
          TiesSnoc(init, last, k, leq);
        }
      }
      Insert(last, sorted, leq)
  }

  /** Under a comparison that ties every pair of keys the order is kept. */
  lemma AllTiedKeepsOrder(es: seq<Entry>)
    ensures SortByKey(es, (a: string, b: string) => true) == es
  {
    var leq := (a: string, b: string) => true;
    var r := SortByKey(es, leq);
    assert Ties(r, "", leq) == Ties(es, "", leq);
    AllTied(r, leq);
    AllTied(es, leq);
  }

  lemma {:induction false} AllTied(es: seq<Entry>, leq: (string, string) -> bool)
    requires forall a, b :: leq(a, b)
    ensures Ties(es, "", leq) == es
    decreases |es|
  {
    if es != [] {
      AllTied(es[1..], leq);
    }
  }

  /** `${k}=${encodeURIComponent(String(v)).replace(/\+/g, "%20")}` */
  function Render(e: Entry, encode: string -> string): string {
    e.0 + "=" + ReplaceAll(encode(Js.ToStr(e.1)), '+', "%20")
  }

  function RenderAll(es: seq<Entry>, encode: string -> string): (r: seq<string>)
    ensures |r| == |es|
    ensures forall i :: 0 <= i < |es| ==> r[i] == Render(es[i], encode)
  {
    seq(|es|, i requires 0 <= i < |es| => Render(es[i], encode))
  }

  /** The entries that take part in the signature, in signing order. */
  function Signed(params: seq<Entry>, leq: (string, string) -> bool): (r: seq<Entry>)
    requires Preorder(leq)
    ensures forall e :: e in r <==> e in params && !Js.Nullish(e.1)
    ensures Ascending(r, leq)
    ensures multiset(r) == multiset(Present(params))
  {
    var r := SortByKey(Present(params), leq);
    assert forall e :: e in r <==> e in multiset(r);
    r
  }

  /** `buildRequestParamString(params)`: the rendered signed entries joined
      with `&`. When no rendering holds an `&` of its own, splitting the
      string at `&` gives back the renderings one by one, in signing order. */
  function ParamString(params: seq<Entry>, leq: (string, string) -> bool, encode: string -> string): (r: string)
    requires Preorder(leq)
    ensures Signed(params, leq) == [] ==> r == ""
    ensures |Signed(params, leq)| == 1 ==> r == Render(Signed(params, leq)[0], encode)
    ensures var es := Signed(params, leq);
      es != [] && (forall i :: 0 <= i < |es| ==> '&' !in Render(es[i], encode))
      ==> Split(r, '&') == RenderAll(es, encode)
  {
    var rs := RenderAll(Signed(params, leq), encode);
    if |rs| >= 1 && forall i :: 0 <= i < |rs| ==> '&' !in rs[i] then
      SplitJoin(rs, '&');
      Join(rs, "&")
    else Join(rs, "&")
  }

  /** Every entry renders as `key=...`, so an empty string means no entry was signed. */
  lemma ParamStringEmpty(params: seq<Entry>, leq: (string, string) -> bool, encode: string -> string)
    requires Preorder(leq)
    ensures ParamString(params, leq, encode) == "" <==> Signed(params, leq) == []
  {
    var rs := RenderAll(Signed(params, leq), encode);
    if rs != [] {
      JoinHasFirst(rs, "&");
      assert |rs[0]| > 0;
    }
  }

  /** The HMAC input: `${accessKey}${reqTime}${requestParamString || ""}` */
  function Payload(accessKey: string, reqTime: string, paramString: string): (r: string)
    ensures |r| == |accessKey| + |reqTime| + |paramString|
    ensures r[..|accessKey|] == accessKey
    ensures r[|accessKey|..|accessKey| + |reqTime|] == reqTime
    ensures r[|accessKey| + |reqTime|..] == paramString
  {
    accessKey + reqTime + Fallback(paramString, "")
  }

  /** The request URL: the query is attached only when there is one. */
  function RequestUrl(paramString: string): (r: string)
    ensures paramString == "" ==> r == Base + Path
    ensures paramString != "" ==> r == Base + Path + "?" + paramString
  {
    Base + Path + (if paramString != "" then "?" + paramString else "")
  }

  /** `query.symbol` is set only when the command line names a symbol. */
  function Query(arg: Option<string>): (r: seq<Entry>)
    ensures arg.GetOr("") == "" <==> r == []
    ensures r != [] ==> r == [("symbol", Js.Str(arg.value))]
  {
    if arg.GetOr("") != "" then [("symbol", Js.Str(arg.value))] else []
  }

  datatype Request = Request(url: string, headers: seq<(string, string)>)

  /** The request `main` sends, or `Err` with the exit code 1 when a key is missing. */
  function BuildRequest(accessKey: string, secretKey: string, arg: Option<string>, now: string,
                        leq: (string, string) -> bool, encode: string -> string,
                        hmac: (string, string) -> string): (r: Result<Request, int>)
    requires Preorder(leq)
    ensures r.Err? <==> accessKey == "" || secretKey == ""
    ensures r.Err? ==> r.error == 1
  {
    if accessKey == "" || secretKey == "" then Err(1)
    else
      var ps := ParamString(Query(arg), leq, encode);
      var signature := hmac(secretKey, Payload(accessKey, now, ps));
      Ok(Request(RequestUrl(ps), [("ApiKey", accessKey), ("Request-Time", now),
                                  ("Signature", signature), ("Content-Type", "application/json")]))
  }

  /** Without a symbol the URL has no query and the signature covers only
      the key and the time; with one, both carry `symbol=<encoded>`. */
  lemma BuildRequestFacts(accessKey: string, secretKey: string, arg: Option<string>, now: string,
                          leq: (string, string) -> bool, encode: string -> string,
                          hmac: (string, string) -> string)
    requires Preorder(leq) && accessKey != "" && secretKey != ""
    ensures var r := BuildRequest(accessKey, secretKey, arg, now, leq, encode, hmac).value;
      var ps := if arg.GetOr("") == "" then "" else "symbol=" + ReplaceAll(encode(arg.value), '+', "%20");
      && r.url == RequestUrl(ps)
      && r.headers[2] == ("Signature", hmac(secretKey, accessKey + now + ps))
  {
    QueryString(arg, leq, encode);
  }

  /** The parameter string of the command-line query. */
  lemma QueryString(arg: Option<string>, leq: (string, string) -> bool, encode: string -> string)
    requires Preorder(leq)
    ensures ParamString(Query(arg), leq, encode)
         == if arg.GetOr("") == "" then "" else "symbol=" + ReplaceAll(encode(arg.value), '+', "%20")
  {
    var q := Query(arg);
    if q != [] {
      SignedSingle(q[0], leq);
      assert Js.ToStr(Js.Str(arg.value)) == arg.value;
    } else {
      assert Present(q) == [];
    }
  }

  /** A single entry with a value is signed on its own. */
  lemma SignedSingle(e: Entry, leq: (string, string) -> bool)
    requires Preorder(leq) && !Js.Nullish(e.1)
    ensures Signed([e], leq) == [e]
  {
    assert Present([e]) == [e];
    assert [e][..0] == [];
    assert SortByKey([e], leq) == Insert(e, [], leq);
  }

  /** `data?.success`: the positions when the answer says so; exit code 2
      for an answer without success and 3 when the request throws. */
  function Finish(answer: Result<Js.Value, string>): (r: Result<Js.Value, int>)
    ensures r.Ok? <==> answer.Ok? && Js.Truthy(Js.Get(answer.value, "success"))
    ensures r.Ok? ==> r.value == Js.Get(answer.value, "data")
    ensures r.Err? ==> r.error == (if answer.Err? then 3 else 2)
  {
    match answer
    case Err(_) => Err(3)
    case Ok(data) => if Js.Truthy(Js.Get(data, "success")) then Ok(Js.Get(data, "data")) else Err(2)
  }
}
