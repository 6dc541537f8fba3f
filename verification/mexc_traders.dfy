/** `fetchTraderUIDs` of the MEXC exporter: one ranking request per sort
    order, the trader ids of every ranking that answered, stringified, without
    blanks and without repeats. A ranking whose request failed is `null`. */
module MexcTraders {
  import Js
  import Merge

  /** `ORDER_BYS`: three rankings, and a fourth by followers unless `--noFollowers`. */
  function OrderBys(includeFollowers: bool): (r: seq<string>)
    ensures |r| == (if includeFollowers then 4 else 3)
    ensures r[..3] == ["ROI", "PNL", "WIN_RATE"]
    ensures includeFollowers ==> r[3] == "FOLLOWERS"
  {
    ["ROI", "PNL", "WIN_RATE"] + (if includeFollowers then ["FOLLOWERS"] else [])
  }

  /** The listed traders of every ranking, in order: `data.content` of each. */
  function Flatten(results: seq<Js.Value>): (ts: seq<Js.Value>) {
    Js.Collect(results, "content")
  }

  /** `.map(t => t?.uid).filter(Boolean).map(String)` */
  function UidTexts(ts: seq<Js.Value>): (r: seq<string>)
    decreases |ts|
  {
    if |ts| == 0 then []
    else
      var u := Js.Get(ts[0], "uid");
      (if Js.Truthy(u) then [Js.ToStr(u)] else []) + UidTexts(ts[1..])
  }

  /** `fetchTraderUIDs()` given the parsed rankings, in `ORDER_BYS` order. */
  function TraderUids(results: seq<Js.Value>): seq<string> {
    Merge.Unique(UidTexts(Flatten(results)))
  }

  /** Every listed trader with a truthy `uid` is in the result, under its `String`. */
  lemma {:induction false} UidTextsCover(ts: seq<Js.Value>, i: int)
    requires 0 <= i < |ts| && Js.Truthy(Js.Get(ts[i], "uid"))
    ensures Js.ToStr(Js.Get(ts[i], "uid")) in UidTexts(ts)
    decreases |ts|
  {
    if i > 0 {
      UidTextsCover(ts[1..], i - 1);
    }
  }

  /** Every id in the result is the `String` of a truthy `uid` of some listed trader. */
  lemma {:induction false} UidTextsSound(ts: seq<Js.Value>, s: string)
    requires s in UidTexts(ts)
    ensures exists i :: 0 <= i < |ts| && Js.Truthy(Js.Get(ts[i], "uid")) && Js.ToStr(Js.Get(ts[i], "uid")) == s
    decreases |ts|
  {
    var u := Js.Get(ts[0], "uid");
    if !(Js.Truthy(u) && Js.ToStr(u) == s) {
      UidTextsSound(ts[1..], s);
      var i :| 0 <= i < |ts[1..]| && Js.Truthy(Js.Get(ts[1..][i], "uid")) && Js.ToStr(Js.Get(ts[1..][i], "uid")) == s;
      assert ts[i + 1] == ts[1..][i];
    }
  }

  /** The trader ids: no repeats, and an id is present exactly when some
      answered ranking lists a trader with that truthy `uid`; a failed
      ranking changes nothing. */
  lemma TraderUidsFacts(results: seq<Js.Value>)
    ensures var r := TraderUids(results);
      && (forall p, q :: 0 <= p < q < |r| ==> r[p] != r[q])
      && (forall s :: s in r <==>
            exists i :: 0 <= i < |Flatten(results)| && Js.Truthy(Js.Get(Flatten(results)[i], "uid"))
                     && Js.ToStr(Js.Get(Flatten(results)[i], "uid")) == s)
      && TraderUids(results + [Js.Null]) == r
  {
    var ts := Flatten(results);
    Merge.UniqueFacts(UidTexts(ts));
    forall s ensures s in TraderUids(results) <==>
      exists i :: 0 <= i < |ts| && Js.Truthy(Js.Get(ts[i], "uid")) && Js.ToStr(Js.Get(ts[i], "uid")) == s
    {
      if s in UidTexts(ts) {
        UidTextsSound(ts, s);
      }
      if exists i :: 0 <= i < |ts| && Js.Truthy(Js.Get(ts[i], "uid")) && Js.ToStr(Js.Get(ts[i], "uid")) == s {
        var i :| 0 <= i < |ts| && Js.Truthy(Js.Get(ts[i], "uid")) && Js.ToStr(Js.Get(ts[i], "uid")) == s;
        UidTextsCover(ts, i);
      }
    }
    Js.CollectAppend(results, [Js.Null], "content");
    assert Js.Collect([Js.Null], "content") == [];
    assert ts + [] == ts;
  }
}
