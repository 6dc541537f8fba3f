/** `extractArray` of the order-recommendation endpoint: the list of
    positions or orders out of an upstream response of any of the shapes the
    exchange uses — the array itself, an object wrapping it under `data` or
    `result`, or an object holding it under one of the usual list keys or
    under any key at all. Whatever the input, the answer is an array. */
module Extract {
  import opened Outcome
  import Js

  /** `(resp && (resp.data ?? resp.result ?? resp)) ?? []` */
  function Root(resp: Js.Value): (r: Js.Value)
    ensures Js.Nullish(resp) ==> r == Js.Arr([])
    ensures !Js.Truthy(resp) && !Js.Nullish(resp) ==> r == resp
    ensures Js.Truthy(resp) && !Js.Nullish(Js.Get(resp, "data")) ==> r == Js.Get(resp, "data")
    ensures Js.Truthy(resp) && Js.Nullish(Js.Get(resp, "data")) && !Js.Nullish(Js.Get(resp, "result")) ==>
              r == Js.Get(resp, "result")
    ensures Js.Truthy(resp) && Js.Nullish(Js.Get(resp, "data")) && Js.Nullish(Js.Get(resp, "result")) ==> r == resp
  {
    var inner := if Js.Truthy(resp) then Js.Coalesce(Js.Get(resp, "data"), Js.Coalesce(Js.Get(resp, "result"), resp))
                 else resp;
    Js.Coalesce(inner, Js.Arr([]))
  }

  /** The list keys tried first, in this order. */
  const Candidates: seq<string> := ["positions", "orders", "list", "openOrders", "items", "records", "rows"]

  /** The first of `keys` whose property of `root` is an array. */
  function FirstKeyed(root: Js.Value, keys: seq<string>): (r: Option<nat>)
    ensures r.Some? ==> r.value < |keys| && Js.Get(root, keys[r.value]).Arr?
    ensures r.Some? ==> forall j :: 0 <= j < r.value ==> !Js.Get(root, keys[j]).Arr?
    ensures r.None? ==> forall j :: 0 <= j < |keys| ==> !Js.Get(root, keys[j]).Arr?
  {
    if keys == [] then None
    else if Js.Get(root, keys[0]).Arr? then Some(0)
    else match FirstKeyed(root, keys[1..]) {
      case None => None
      case Some(i) => Some(i + 1)
    }
  }

  /** The first property, in insertion order, whose value is an array. */
  function FirstValued(fields: seq<(string, Js.Value)>, from: nat): (r: Option<nat>)
    requires from <= |fields|
    ensures r.Some? ==> from <= r.value < |fields| && Js.Lookup(fields, fields[r.value].0).Arr?
    ensures r.Some? ==> forall j :: from <= j < r.value ==> !Js.Lookup(fields, fields[j].0).Arr?
    ensures r.None? ==> forall j :: from <= j < |fields| ==> !Js.Lookup(fields, fields[j].0).Arr?
    decreases |fields| - from
  {
    if from == |fields| then None
    else if Js.Lookup(fields, fields[from].0).Arr? then Some(from)
    else FirstValued(fields, from + 1)
  }

  /** `extractArray(resp)` */
  function ExtractArray(resp: Js.Value): (r: Js.Value)
    ensures r.Arr?
    ensures Root(resp).Arr? ==> r == Root(resp)
    ensures !Root(resp).Obj? && !Root(resp).Arr? ==> r == Js.Arr([])
  {
    var root := Root(resp);
    if root.Arr? then root
    else if root.Obj? then
      match FirstKeyed(root, Candidates)
      case Some(i) => Js.Get(root, Candidates[i])
      case None =>
        match FirstValued(root.fields, 0)
        case Some(j) => Js.Lookup(root.fields, root.fields[j].0)
        case None => Js.Arr([])
    else Js.Arr([])
  }

  /** For an object root: the first list key holding an array wins; failing
      that, the first property holding one; failing that, the empty array.
      Any array found is returned itself, not a copy. */
  lemma ObjectRoot(resp: Js.Value)
    requires Root(resp).Obj?
    ensures var root := Root(resp);
      var r := ExtractArray(resp);
      && (forall i :: (0 <= i < |Candidates| && Js.Get(root, Candidates[i]).Arr?
                       && (forall j :: 0 <= j < i ==> !Js.Get(root, Candidates[j]).Arr?)) ==>
                    r == Js.Get(root, Candidates[i]))
      && ((forall i :: 0 <= i < |Candidates| ==> !Js.Get(root, Candidates[i]).Arr?) ==>
            forall p :: (0 <= p < |root.fields| && Js.Lookup(root.fields, root.fields[p].0).Arr?
                         && (forall q :: 0 <= q < p ==> !Js.Lookup(root.fields, root.fields[q].0).Arr?)) ==>
                      r == Js.Lookup(root.fields, root.fields[p].0))
      && ((forall p :: 0 <= p < |root.fields| ==> !Js.Lookup(root.fields, root.fields[p].0).Arr?) ==> r == Js.Arr([]))
  {
    ObjectRootKeys(resp);
    ObjectRootFields(resp);
    ObjectRootEmpty(resp);
  }

  lemma ObjectRootKeys(resp: Js.Value)
    requires Root(resp).Obj?
    ensures var root := Root(resp);
      forall i :: (0 <= i < |Candidates| && Js.Get(root, Candidates[i]).Arr?
                   && (forall j :: 0 <= j < i ==> !Js.Get(root, Candidates[j]).Arr?)) ==>
                ExtractArray(resp) == Js.Get(root, Candidates[i])
  {
  }

  lemma ObjectRootFields(resp: Js.Value)
    requires Root(resp).Obj?
    ensures var root := Root(resp);
      (forall i :: 0 <= i < |Candidates| ==> !Js.Get(root, Candidates[i]).Arr?) ==>
        forall p :: (0 <= p < |root.fields| && Js.Lookup(root.fields, root.fields[p].0).Arr?
                     && (forall q :: 0 <= q < p ==> !Js.Lookup(root.fields, root.fields[q].0).Arr?)) ==>
                  ExtractArray(resp) == Js.Lookup(root.fields, root.fields[p].0)
  {
  }

  lemma ObjectRootEmpty(resp: Js.Value)
    requires Root(resp).Obj?
    ensures var root := Root(resp);
      (forall p :: 0 <= p < |root.fields| ==> !Js.Lookup(root.fields, root.fields[p].0).Arr?) ==> ExtractArray(resp) == Js.Arr([])
  {
    var root := Root(resp);
    if forall p :: 0 <= p < |root.fields| ==> !Js.Lookup(root.fields, root.fields[p].0).Arr? {
      forall i | 0 <= i < |Candidates|
        ensures !Js.Get(root, Candidates[i]).Arr?
      {
        ArrayIsField(root.fields, Candidates[i]);
      }
    }
  }

  /** A property that holds an array is one of the object's fields. */
  lemma ArrayIsField(fields: seq<(string, Js.Value)>, k: string)
    ensures Js.Lookup(fields, k).Arr? ==> exists p :: 0 <= p < |fields| && fields[p].0 == k
  {
    Js.LookupMissing(fields, k);
  }

  /** The list keys are tried in their own order, not the object's: an
      object holding `rows` and then `positions` answers with `positions`. */
  lemma PositionsBeforeRows(a: seq<Js.Value>, b: seq<Js.Value>)
    ensures ExtractArray(Js.Obj([("rows", Js.Arr(a)), ("positions", Js.Arr(b))])) == Js.Arr(b)
  {
    var o := Js.Obj([("rows", Js.Arr(a)), ("positions", Js.Arr(b))]);
    assert "rows"[0] != "data"[0] && |"positions"| != |"data"|;
    assert |"rows"| != |"result"| && |"positions"| != |"result"|;
    Js.LookupMissing(o.fields, "data");
    Js.LookupMissing(o.fields, "result");
    assert Root(o) == o;
    assert Js.Get(o, "positions") == Js.Arr(b);
  }
}
