/** `normalizeOrder` of the MEXC exporter and the rows it appends.

    Each collected record becomes one CSV row over `CSV_HEADERS`: the side
    and margin-mode codes are named, underscores leave the symbol, the ROI
    and notional are derived, and every other column is the record's own
    property with `""` for `null`/`undefined`. `toFixed(2)` is a parameter. */
module MexcRows {
  import opened Outcome
  import opened Text
  import Js
  import Csv
  import MexcWalker
  import Arith

  /** `CSV_HEADERS` */
  const Headers: seq<string> := [
    "uid", "orderId", "symbol", "side", "leverage", "marginMode", "amount", "openAvgPrice",
    "closeAvgPrice", "margin", "released", "roiPct", "notional", "fee", "followers", "copyFollowers",
    "traderNickName", "positionId", "openTime", "closeTime", "id", "pageTime", "closeCategory",
    "stopLossRatio", "takeProfitRatio", "holdFee", "positionFee", "externalOid"]

  /** `o.k ?? ""` */
  function Field(o: Js.Value, k: string): Js.Value {
    Js.Coalesce(Js.Get(o, k), Js.Str(""))
  }

  /** `o.positionType === 1 ? "long" : o.positionType === 2 ? "short" : o.positionType` */
  function Side(code: Js.Value): Js.Value {
    if Js.StrictEq(code, Js.Num(1.0)) then Js.Str("long")
    else if Js.StrictEq(code, Js.Num(2.0)) then Js.Str("short")
    else code
  }

  /** `o.openType === 1 ? "isolated" : o.openType === 2 ? "cross" : o.openType` */
  function MarginMode(code: Js.Value): Js.Value {
    if Js.StrictEq(code, Js.Num(1.0)) then Js.Str("isolated")
    else if Js.StrictEq(code, Js.Num(2.0)) then Js.Str("cross")
    else code
  }

  /** `o.symbol ? String(o.symbol).replace(/_/g, "") : ""` */
  function Symbol(v: Js.Value): string {
    if Js.Truthy(v) then RemoveAll(Js.ToStr(v), '_') else ""
  }

  /** `o.margin && Number(o.margin) !== 0 ? ((Number(o.released || 0) / Number(o.margin)) * 100).toFixed(2) : ""`;
      a NaN operand renders as `"NaN"`. */
  function RoiPct(o: Js.Value, fixed2: real -> string): Js.Value {
    Roi(Js.Get(o, "margin"), Js.Get(o, "released"), fixed2)
  }

  function Roi(margin: Js.Value, released: Js.Value, fixed2: real -> string): Js.Value {
    var m := Js.ToNumber(margin);
    var rel := Js.ToNumber(Js.Or(released, Js.Num(0.0)));
    if !Js.Truthy(margin) || m == Some(0.0) then Js.Str("")
    else if m.None? || rel.None? then Js.Str("NaN")
    else Js.Str(fixed2(RoiValue(rel.value, m.value)))
  }

  /** `(released / margin) * 100` */
  function RoiValue(released: real, margin: real): real
    requires margin != 0.0
  {
    released / margin * 100.0
  }

  /** `Number(o.amount || 0) * Number(o.openAvgPrice || 0) || ""`; a NaN product is falsy. */
  function Notional(o: Js.Value): Js.Value {
    Product(Js.Get(o, "amount"), Js.Get(o, "openAvgPrice"))
  }

  function Product(amount: Js.Value, price: Js.Value): Js.Value {
    NumProduct(Js.ToNumber(Js.Or(amount, Js.Num(0.0))), Js.ToNumber(Js.Or(price, Js.Num(0.0))))
  }

  /** `a * p || ""` on two converted numbers, NaN standing as `None`. */
  function NumProduct(a: Option<real>, p: Option<real>): Js.Value {
    if a.Some? && p.Some? && a.value * p.value != 0.0 then Js.Num(a.value * p.value) else Js.Str("")
  }

  /** The columns computed from the record rather than copied from it. */
  predicate Derived(i: int) {
    i == 0 || i == 2 || i == 3 || i == 5 || i == 11 || i == 12
  }

  /** The value of column `Headers[i]`: the six derived columns, and
      otherwise the record's property of the header's name, `""` in place of
      `null`/`undefined`. */
  function Cell(o: Js.Value, fixed2: real -> string, i: int): Js.Value
    requires 0 <= i < |Headers|
  {
    if i == 0 then Field(o, "traderUid")
    else if i == 2 then Js.Str(Symbol(Js.Get(o, "symbol")))
    else if i == 3 then Side(Js.Get(o, "positionType"))
    else if i == 5 then MarginMode(Js.Get(o, "openType"))
    else if i == 11 then RoiPct(o, fixed2)
    else if i == 12 then Notional(o)
    else Field(o, Headers[i])
  }

  /** The column values of `normalizeOrder(o)`, in `Headers` order: every
      column that is not derived is the record's own property of that name. */
  function Values(o: Js.Value, fixed2: real -> string): (vs: seq<Js.Value>)
    ensures |vs| == |Headers|
    ensures forall i :: 0 <= i < |Headers| && !Derived(i) ==> vs[i] == Js.Coalesce(Js.Get(o, Headers[i]), Js.Str(""))
  {
    seq(|Headers|, i requires 0 <= i < |Headers| => Cell(o, fixed2, i))
  }

  /** `normalizeOrder(o)` */
  function NormalizeOrder(o: Js.Value, fixed2: real -> string): Js.Value {
    Js.Record(Headers, Values(o, fixed2))
  }

  lemma HeadersDistinct()
    ensures Js.DistinctKeys(Headers)
  {
    HeadersApart();
    Js.DistinctByEnds(Headers);
  }

  lemma HeadersApart()
    ensures forall i, j :: 0 <= i < j < |Headers| ==> Js.Apart(Headers[i], Headers[j])
  {
  }

  /** Every column of a row reads back the value computed for it. */
  lemma Column(o: Js.Value, fixed2: real -> string, i: int)
    requires 0 <= i < |Headers|
    ensures Js.Get(NormalizeOrder(o, fixed2), Headers[i]) == Values(o, fixed2)[i]
  {
    HeadersDistinct();
    Js.RecordGet(Headers, Values(o, fixed2), i);
  }

  /** Column `i`, read under its name. */
  lemma Named(o: Js.Value, fixed2: real -> string, i: int)
    requires 0 <= i < |Headers|
    ensures Js.Get(NormalizeOrder(o, fixed2), Headers[i]) == Cell(o, fixed2, i)
  {
    Column(o, fixed2, i);
  }

  /** The names of the derived columns. */
  lemma DerivedNames()
    ensures Headers[0] == "uid" && Headers[2] == "symbol" && Headers[3] == "side"
    ensures Headers[5] == "marginMode" && Headers[11] == "roiPct" && Headers[12] == "notional"
  {
  }

  /** The derived columns of a row hold what is computed for them, and the
      `uid` column is the record's `traderUid`, not the uid the walk tagged
      it with. */
  lemma DerivedColumns(o: Js.Value, fixed2: real -> string)
    ensures var row := NormalizeOrder(o, fixed2);
      && Js.Get(row, "uid") == Js.Coalesce(Js.Get(o, "traderUid"), Js.Str(""))
      && Js.Get(row, "symbol") == Js.Str(Symbol(Js.Get(o, "symbol")))
      && Js.Get(row, "side") == Side(Js.Get(o, "positionType"))
      && Js.Get(row, "marginMode") == MarginMode(Js.Get(o, "openType"))
      && Js.Get(row, "roiPct") == RoiPct(o, fixed2)
      && Js.Get(row, "notional") == Notional(o)
  {
    NamedColumns(o, fixed2);
    CodedColumns(o, fixed2);
    FigureColumns(o, fixed2);
  }

  lemma NamedColumns(o: Js.Value, fixed2: real -> string)
    ensures var row := NormalizeOrder(o, fixed2);
      && Js.Get(row, "uid") == Js.Coalesce(Js.Get(o, "traderUid"), Js.Str(""))
      && Js.Get(row, "symbol") == Js.Str(Symbol(Js.Get(o, "symbol")))
  {
    DerivedNames();
    Named(o, fixed2, 0);
    Named(o, fixed2, 2);
  }

  lemma CodedColumns(o: Js.Value, fixed2: real -> string)
    ensures var row := NormalizeOrder(o, fixed2);
      && Js.Get(row, "side") == Side(Js.Get(o, "positionType"))
      && Js.Get(row, "marginMode") == MarginMode(Js.Get(o, "openType"))
  {
    DerivedNames();
    Named(o, fixed2, 3);
    Named(o, fixed2, 5);
  }

  lemma FigureColumns(o: Js.Value, fixed2: real -> string)
    ensures var row := NormalizeOrder(o, fixed2);
      && Js.Get(row, "roiPct") == RoiPct(o, fixed2)
      && Js.Get(row, "notional") == Notional(o)
  {
    DerivedNames();
    Named(o, fixed2, 11);
    Named(o, fixed2, 12);
  }

  /** The codes 1 and 2 (numbers, not strings) are named; any other code passes through. */
  lemma CodesNamed(code: Js.Value)
    ensures code == Js.Num(1.0) ==> Side(code) == Js.Str("long") && MarginMode(code) == Js.Str("isolated")
    ensures code == Js.Num(2.0) ==> Side(code) == Js.Str("short") && MarginMode(code) == Js.Str("cross")
    ensures code != Js.Num(1.0) && code != Js.Num(2.0) ==> Side(code) == code && MarginMode(code) == code
  {
  }

  /** The symbol column has no underscore and keeps every other character of the symbol's text. */
  lemma SymbolFacts(v: Js.Value)
    ensures '_' !in Symbol(v)
    ensures Js.Truthy(v) ==> forall c :: c != '_' ==> multiset(Symbol(v))[c] == multiset(Js.ToStr(v))[c]
    ensures !Js.Truthy(v) ==> Symbol(v) == ""
  {
  }

  /** `roiPct` is empty when the margin is falsy or zero, `"NaN"` when the
      margin is not a number, and otherwise the formatted percentage
      `released / margin`, a falsy `released` counting as 0. */
  lemma RoiPctFacts(o: Js.Value, fixed2: real -> string)
    ensures var margin := Js.Get(o, "margin");
      var m := Js.ToNumber(margin);
      var rel := Js.Get(o, "released");
      var r := RoiPct(o, fixed2);
      if !Js.Truthy(margin) || m == Some(0.0) then r == Js.Str("")
      else if m.None? then r == Js.Str("NaN")
      else if !Js.Truthy(rel) then r == Js.Str(fixed2(0.0))
      else if Js.ToNumber(rel).None? then r == Js.Str("NaN")
      else r == Js.Str(fixed2(RoiValue(Js.ToNumber(rel).value, m.value)))
  {
    RoiFacts(Js.Get(o, "margin"), Js.Get(o, "released"), fixed2);
  }

  lemma RoiFacts(margin: Js.Value, rel: Js.Value, fixed2: real -> string)
    ensures var m := Js.ToNumber(margin);
      var r := Roi(margin, rel, fixed2);
      if !Js.Truthy(margin) || m == Some(0.0) then r == Js.Str("")
      else if m.None? then r == Js.Str("NaN")
      else if !Js.Truthy(rel) then r == Js.Str(fixed2(0.0))
      else if Js.ToNumber(rel).None? then r == Js.Str("NaN")
      else r == Js.Str(fixed2(RoiValue(Js.ToNumber(rel).value, m.value)))
  {
    FalsyIsZero(rel);
  }

  /** `notional` is empty, or the non-zero product of amount and open price. */
  lemma NotionalFacts(o: Js.Value)
    ensures var n := Notional(o);
      var a := Js.ToNumber(Js.Get(o, "amount"));
      var p := Js.ToNumber(Js.Get(o, "openAvgPrice"));
      n == Js.Str("") || (n.Num? && n.x != 0.0 && a.Some? && p.Some? && n.x == a.value * p.value)
  {
    ProductFacts(Js.Get(o, "amount"), Js.Get(o, "openAvgPrice"));
  }

  lemma ProductFacts(amount: Js.Value, price: Js.Value)
    ensures IsProduct(Product(amount, price), Js.ToNumber(amount), Js.ToNumber(price))
  {
    var an := Js.ToNumber(Js.Or(amount, Js.Num(0.0)));
    var pn := Js.ToNumber(Js.Or(price, Js.Num(0.0)));
    NumProductFacts(an, pn);
    var n := NumProduct(an, pn);
    assert Product(amount, price) == n;
    if n.Num? {
      OrZeroNonZero(amount, an.value);
      OrZeroNonZero(price, pn.value);
      assert Js.ToNumber(amount) == an && Js.ToNumber(price) == pn;
    }
  }

  /** `n` is empty, or the non-zero product of two converted numbers. */
  predicate IsProduct(n: Js.Value, a: Option<real>, p: Option<real>) {
    n == Js.Str("") || (n.Num? && n.x != 0.0 && a.Some? && p.Some? && n.x == a.value * p.value)
  }

  lemma NumProductFacts(a: Option<real>, p: Option<real>)
    ensures IsProduct(NumProduct(a, p), a, p)
    ensures NumProduct(a, p).Num? ==> a.Some? && p.Some? && a.value != 0.0 && p.value != 0.0
  {
    if a.Some? && p.Some? {
      Arith.ZeroFactor(a.value, p.value);
    }
  }

  /** A non-zero `Number(v || 0)` is `Number(v)`. */
  lemma OrZeroNonZero(v: Js.Value, x: real)
    requires Js.ToNumber(Js.Or(v, Js.Num(0.0))) == Some(x) && x != 0.0
    ensures Js.ToNumber(v) == Some(x)
  {
    FalsyIsZero(v);
  }

  /** `Number(v || 0)`: a falsy `v` counts as 0, a truthy one as itself. */
  lemma FalsyIsZero(v: Js.Value)
    ensures !Js.Truthy(v) ==> Js.ToNumber(Js.Or(v, Js.Num(0.0))) == Some(0.0)
    ensures Js.Truthy(v) ==> Js.ToNumber(Js.Or(v, Js.Num(0.0))) == Js.ToNumber(v)
  {
  }

  /** The records of every trader in turn; a trader whose walk threw adds
      nothing. The worker pool interleaves traders; here they run in order. */
  function Orders(uids: seq<string>, limit: int, ups: string -> MexcWalker.Upstream, fuel: nat): (os: seq<Js.Value>)
    decreases |uids|
  {
    if |uids| == 0 then []
    else MexcWalker.FetchAll(uids[0], limit, ups(uids[0]), fuel).rows + Orders(uids[1..], limit, ups, fuel)
  }

  /** The text appended to the output file. */
  function Export(uids: seq<string>, limit: int, ups: string -> MexcWalker.Upstream, fuel: nat, fixed2: real -> string): string {
    var orders := Orders(uids, limit, ups, fuel);
    Csv.Body(seq(|orders|, i requires 0 <= i < |orders| => NormalizeOrder(orders[i], fixed2)), Headers)
  }

  /** The appended text reads back as one row per collected record, each
      holding the texts of that record's normalised columns. */
  lemma ExportRoundTrip(uids: seq<string>, limit: int, ups: string -> MexcWalker.Upstream, fuel: nat, fixed2: real -> string)
    requires |Orders(uids, limit, ups, fuel)| >= 1
    ensures var orders := Orders(uids, limit, ups, fuel);
      Csv.Parse(Export(uids, limit, ups, fuel, fixed2))
      == seq(|orders|, i requires 0 <= i < |orders| => Csv.Texts(NormalizeOrder(orders[i], fixed2), Headers))
  {
    var orders := Orders(uids, limit, ups, fuel);
    var rows := seq(|orders|, i requires 0 <= i < |orders| => NormalizeOrder(orders[i], fixed2));
    Csv.BodyRoundTrip(rows, Headers);
  }
}
