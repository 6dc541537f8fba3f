/** The JavaScript values the scripts read out of upstream JSON, and the few
    language operations they apply to them: truthiness, `||`, `??`, `===`,
    `>`, `Number()`, `String()`, property access and object spread.

    Numbers are exact reals. `Number()` parses plain decimal literals (no
    exponent, hex or `Infinity`); a result of `None` stands for NaN or an
    infinity. Objects keep their properties in insertion order with distinct
    keys, the way a parsed JSON object or an object literal does. */
module Js {
  import opened Outcome
  import opened Text

  datatype Value =
    | Undefined
    | Null
    | Bool(b: bool)
    | Num(x: real)
    | Str(s: string)
    | Arr(items: seq<Value>)
    | Obj(fields: seq<(string, Value)>)

  /** `v == null` */
  predicate Nullish(v: Value) {
    v.Undefined? || v.Null?
  }

  predicate Truthy(v: Value) {
    match v
    case Undefined => false
    case Null => false
    case Bool(b) => b
    case Num(x) => x != 0.0
    case Str(s) => s != ""
    case Arr(_) => true
    case Obj(_) => true
  }

  /** `a || b` */
  function Or(a: Value, b: Value): Value {
    if Truthy(a) then a else b
  }

  /** `a ?? b` */
  function Coalesce(a: Value, b: Value): Value {
    if Nullish(a) then b else a
  }

  predicate IsPrimitive(v: Value) {
    !v.Arr? && !v.Obj?
  }

  /** `a === b`; two distinct arrays or objects are never identical. */
  predicate StrictEq(a: Value, b: Value) {
    IsPrimitive(a) && a == b
  }

  // ---------------------------------------------------------------- objects

  /** The value of property `k`, or `undefined`; with a repeated key the last
      one counts, as in `JSON.parse`. */
  function Lookup(fields: seq<(string, Value)>, k: string): Value
    decreases |fields|
  {
    if |fields| == 0 then Undefined
    else if fields[|fields| - 1].0 == k then fields[|fields| - 1].1
    else Lookup(fields[..|fields| - 1], k)
  }

  predicate HasKey(fields: seq<(string, Value)>, k: string) {
    exists i :: 0 <= i < |fields| && fields[i].0 == k
  }

  lemma HasKeySnoc(fs: seq<(string, Value)>, last: (string, Value), k: string)
    ensures HasKey(fs + [last], k) <==> HasKey(fs, k) || last.0 == k
  {
    if HasKey(fs, k) {
      var i :| 0 <= i < |fs| && fs[i].0 == k;
      assert (fs + [last])[i].0 == k;
    }
    if last.0 == k {
      assert (fs + [last])[|fs|].0 == k;
    }
    if HasKey(fs + [last], k) && last.0 != k {
      var i :| 0 <= i < |fs| + 1 && (fs + [last])[i].0 == k;
      assert fs[i].0 == k;
    }
  }

  lemma {:induction false} LookupMissing(fields: seq<(string, Value)>, k: string)
    ensures !HasKey(fields, k) ==> Lookup(fields, k) == Undefined
    decreases |fields|
  {
    if |fields| > 0 && !HasKey(fields, k) {
      var init := fields[..|fields| - 1];
      HasKeySnoc(init, fields[|fields| - 1], k);
      assert fields == init + [fields[|fields| - 1]];
      LookupMissing(init, k);
    }
  }

  /** `v?.k`: reading a property of anything but an object gives `undefined`. */
  function Get(v: Value, k: string): Value {
    if v.Obj? then Lookup(v.fields, k) else Undefined
  }

  function FieldsOf(v: Value): seq<(string, Value)> {
    if v.Obj? then v.fields else []
  }

  /** Assignment `o[k] = v`: overwrite in place when present, append otherwise. */
  function SetField(fields: seq<(string, Value)>, k: string, v: Value): (r: seq<(string, Value)>)
    ensures Lookup(r, k) == v
    ensures forall k' :: k' != k ==> Lookup(r, k') == Lookup(fields, k')
  {
    if HasKey(fields, k) then
      ReplaceKey(fields, k, v)
    else
      assert (fields + [(k, v)])[..|fields|] == fields;
      fields + [(k, v)]
  }

  function ReplaceKey(fields: seq<(string, Value)>, k: string, v: Value): (r: seq<(string, Value)>)
    ensures HasKey(fields, k) ==> Lookup(r, k) == v
    ensures forall k' :: k' != k ==> Lookup(r, k') == Lookup(fields, k')
    decreases |fields|
  {
    if |fields| == 0 then []
    else
      var init := fields[..|fields| - 1];
      var last := fields[|fields| - 1];
      var r := ReplaceKey(init, k, v) + [if last.0 == k then (k, v) else last];
      assert r[..|r| - 1] == ReplaceKey(init, k, v);
      assert fields == init + [last];
      HasKeySnoc(init, last, k);
      r
  }

  /** `{ ...base, ...o }` for an object source; any other source adds nothing
      here, although JavaScript copies a string's or an array's indices. */
  function Spread(base: seq<(string, Value)>, o: Value): (r: seq<(string, Value)>)
    ensures forall k :: Lookup(r, k) == (if HasKey(FieldsOf(o), k) then Lookup(FieldsOf(o), k) else Lookup(base, k))
  {
    SpreadFields(base, FieldsOf(o))
  }

  function SpreadFields(base: seq<(string, Value)>, fs: seq<(string, Value)>): (r: seq<(string, Value)>)
    ensures forall k :: Lookup(r, k) == (if HasKey(fs, k) then Lookup(fs, k) else Lookup(base, k))
    decreases |fs|
  {
    if |fs| == 0 then base
    else
      var init := fs[..|fs| - 1];
      var last := fs[|fs| - 1];
      var r := SpreadFields(base, init);
      var out := SetField(r, last.0, last.1);
      assert fs == init + [last];
      assert forall k :: HasKey(fs, k) <==> HasKey(init, k) || last.0 == k by {
        forall k ensures HasKey(fs, k) <==> HasKey(init, k) || last.0 == k {
          HasKeySnoc(init, last, k);
        }
      }
      out
  }

  /** `{ ...o, k: v }`: a copy of `o` whose `k` is `v`; a non-object `o`
      contributes no other property, as in `Spread`. */
  function With(o: Value, k: string, v: Value): (r: Value)
    ensures r.Obj?
    ensures Get(r, k) == v
    ensures forall k' :: k' != k ==> Get(r, k') == Get(o, k')
  {
    Obj(SetField(FieldsOf(o), k, v))
  }

  /** An object literal `{ k0: v0, k1: v1, ... }`. */
  function Record(keys: seq<string>, vals: seq<Value>): (o: Value)
    requires |keys| == |vals|
    ensures o.Obj? && |o.fields| == |keys|
    ensures forall i :: 0 <= i < |keys| ==> o.fields[i] == (keys[i], vals[i])
  {
    Obj(seq(|keys|, i requires 0 <= i < |keys| => (keys[i], vals[i])))
  }

  /** No key is listed twice. */
  predicate DistinctKeys(keys: seq<string>) {
    forall i, j :: 0 <= i < j < |keys| ==> keys[i] != keys[j]
  }

  /** Two keys told apart by their length or by their first or last character. */
  predicate Apart(a: string, b: string) {
    |a| != |b| || (a != [] && b != [] && (a[0] != b[0] || a[|a| - 1] != b[|b| - 1]))
  }

  /** A list of keys pairwise told apart that way lists no key twice. */
  lemma DistinctByEnds(keys: seq<string>)
    requires forall i, j :: 0 <= i < j < |keys| ==> Apart(keys[i], keys[j])
    ensures DistinctKeys(keys)
  {
  }

  lemma {:induction false} LookupAt(fields: seq<(string, Value)>, i: int)
    requires 0 <= i < |fields|
    requires forall j :: i < j < |fields| ==> fields[j].0 != fields[i].0
    ensures Lookup(fields, fields[i].0) == fields[i].1
    decreases |fields|
  {
    if i < |fields| - 1 {
      LookupAt(fields[..|fields| - 1], i);
    }
  }

  /** Reading a property of an object literal with distinct keys gives its value. */
  lemma RecordGet(keys: seq<string>, vals: seq<Value>, i: int)
    requires |keys| == |vals| && DistinctKeys(keys) && 0 <= i < |keys|
    ensures Get(Record(keys, vals), keys[i]) == vals[i]
  {
    LookupAt(Record(keys, vals).fields, i);
  }

  /** What `xs.flatMap(r => (v ? v : []))` takes from one callback value `v`:
      an array's elements, any other truthy value as one element, nothing otherwise. */
  function Spilled(v: Value): (r: seq<Value>)
    ensures !Truthy(v) ==> r == []
    ensures v.Arr? ==> r == v.items
    ensures Truthy(v) && !v.Arr? ==> r == [v]
  {
    if !Truthy(v) then [] else if v.Arr? then v.items else [v]
  }

  /** `results.flatMap(r => (r?.data?.[field] ? r.data[field] : []))` */
  function Collect(results: seq<Value>, field: string): seq<Value>
    decreases |results|
  {
    if |results| == 0 then [] else Spilled(Get(Get(results[0], "data"), field)) + Collect(results[1..], field)
  }

  lemma {:induction false} CollectAppend(a: seq<Value>, b: seq<Value>, field: string)
    ensures Collect(a + b, field) == Collect(a, field) + Collect(b, field)
    decreases |a|
  {
    if |a| == 0 {
      assert a + b == b;
    } else {
      assert (a + b)[1..] == a[1..] + b;
      CollectAppend(a[1..], b, field);
    }
  }

  // ---------------------------------------------------------------- Number()

  predicate AllDigits(s: string) {
    forall i :: 0 <= i < |s| ==> IsDigit(s[i])
  }

  function Digit(c: char): nat
    requires IsDigit(c)
  {
    c as int - '0' as int
  }

  /** The digits after a decimal point, up to the end: `.d1d2...` is `(d1 + .d2...) / 10`. */
  function ScanFraction(t: string): (r: Option<real>)
    ensures r.Some? ==> 0.0 <= r.value <= 1.0
    decreases |t|
  {
    if |t| == 0 then Some(0.0)
    else if !IsDigit(t[0]) then None
    else
      match ScanFraction(t[1..])
      case None => None
      case Some(f) => Some((Digit(t[0]) as real + f) / 10.0)
  }

  /** The integer digits of a literal read left to right into `acc`, then an
      optional point and fraction; `seen` records whether a digit came before. */
  function ScanInteger(t: string, acc: nat, seen: bool): (r: Option<real>)
    ensures r.Some? ==> r.value >= 0.0
    decreases |t|
  {
    if |t| == 0 then (if seen then Some(acc as real) else None)
    else if IsDigit(t[0]) then ScanInteger(t[1..], 10 * acc + Digit(t[0]), true)
    else if t[0] != '.' || (!seen && |t| == 1) then None
    else
      match ScanFraction(t[1..])
      case None => None
      case Some(f) => Some(acc as real + f)
  }

  /** An unsigned decimal literal: digits, optionally a point and more digits, at least one digit. */
  function ParseUnsigned(t: string): (r: Option<real>)
    ensures r.Some? ==> r.value >= 0.0
  {
    ScanInteger(t, 0, false)
  }

  /** `Number(s)` on an already trimmed string: empty is 0, otherwise a signed decimal literal. */
  function ParseNumber(t: string): Option<real> {
    if t == "" then Some(0.0)
    else
      var body := if t[0] == '-' || t[0] == '+' then t[1..] else t;
      match ParseUnsigned(body)
      case None => None
      case Some(x) => Some(if t[0] == '-' then -x else x)
  }

  /** `Number(v)` when the result is finite; `None` for NaN and the infinities.
      An array converts through its comma-joined text: the empty array is 0,
      a one-item array is the number of its item's text (where `null` and
      `undefined` join as the empty text), and a longer one holds a comma
      and is NaN. */
  function ToNumber(v: Value): Option<real> {
    match v
    case Undefined => None
    case Null => Some(0.0)
    case Bool(b) => Some(if b then 1.0 else 0.0)
    case Num(x) => Some(x)
    case Str(s) => ParseNumber(Trim(s))
    case Arr(items) => ArrayNumber(items)
    case Obj(_) => None
  }

  /** `Number` of an array with these items. */
  function ArrayNumber(items: seq<Value>): Option<real>
    decreases items
  {
    if |items| == 0 then Some(0.0)
    else if |items| > 1 then None
    else if items[0].Undefined? then Some(0.0)
    else if items[0].Bool? then None
    else ToNumber(items[0])
  }

  /** How many leading items `xs.slice(0, end)` keeps of `len` for a finite
      `end`: the number truncated toward zero, counted back from the end
      when negative, and clamped to the list. A non-negative `end` keeps no
      more than `end` items and stops short only at the end of the list; a
      negative one drops at least `-end` items, fewer than `-end + 1`, unless
      nothing is left. */
  function SliceEnd(len: nat, end: real): (k: nat)
    ensures k <= len
    ensures end >= 0.0 ==> k as real <= end && (k == len || end < k as real + 1.0)
    ensures end < 0.0 ==> (len - k) as real <= -end + 1.0 && (k == 0 || (len - k) as real <= -end < (len - k) as real + 1.0)
  {
    if end >= 0.0 then
      var n := end.Floor;
      if n < len then n else len
    else
      var n := (-end).Floor;
      if n < len then len - n else 0
  }

  /** `Number.isFinite(Number(v)) ? Number(v) : 0`, the `n`/`safeNum` helper of the endpoints. */
  function SafeNum(v: Value): real {
    ToNumber(v).GetOr(0.0)
  }

  lemma NatTextParses(n: nat)
    ensures ToNumber(Str(NatToString(n))) == Some(n as real)
  {
    var t := NatToString(n);
    DigitsTrimmed(t);
    TrimOfTrimmed(t);
    assert ToNumber(Str(t)) == ParseNumber(t);
    DigitsParse(t);
    DigitsRoundTrip(n);
    assert DigitsValue(t) == n;
  }

  lemma DigitsParse(t: string)
    requires |t| > 0 && AllDigits(t)
    ensures ParseNumber(t) == Some(DigitsValue(t) as real)
  {
    assert IsDigit(t[0]);
    ScanDigits(t, 0, false);
  }

  function Pow10(n: nat): (r: nat)
    ensures r >= 1
  {
    if n == 0 then 1 else 10 * Pow10(n - 1)
  }

  /** The digits `d t` are worth `d` times a power of ten plus `t`. */
  lemma {:induction false} DigitsValueCons(t: string)
    requires |t| > 0 && AllDigits(t)
    ensures DigitsValue(t) == Digit(t[0]) * Pow10(|t| - 1) + DigitsValue(t[1..])
    decreases |t|
  {
    assert IsDigit(t[0]);
    if |t| > 1 {
      var init := t[..|t| - 1];
      assert AllDigits(init) by {
        forall i | 0 <= i < |init| ensures IsDigit(init[i]) {
          assert init[i] == t[i];
        }
      }
      DigitsValueCons(init);
      assert init[1..] == t[1..][..|t[1..]| - 1];
      assert t[1..][|t[1..]| - 1] == t[|t| - 1];
      ShiftLeft(Digit(t[0]), Pow10(|t| - 2), DigitsValue(init[1..]));
    }
  }

  /** Shifting `a * q + c` one decimal place. */
  lemma ShiftLeft(a: int, q: int, c: int)
    ensures 10 * (a * q + c) == a * (10 * q) + 10 * c
  {
  }

  /** Pushing a digit `d` under the accumulator `acc` before `q` more places. */
  lemma ShiftIn(acc: int, d: int, q: int)
    ensures (10 * acc + d) * q == acc * (10 * q) + d * q
  {
  }

  /** Scanning an all-digit text shifts the accumulator past it and adds the digits' value. */
  lemma {:induction false} ScanDigits(t: string, acc: nat, seen: bool)
    requires AllDigits(t) && (seen || |t| > 0)
    ensures ScanInteger(t, acc, seen) == Some((acc * Pow10(|t|) + DigitsValue(t)) as real)
    decreases |t|
  {
    if |t| > 0 {
      assert IsDigit(t[0]);
      assert AllDigits(t[1..]) by {
        forall i | 0 <= i < |t[1..]| ensures IsDigit(t[1..][i]) {
          assert t[1..][i] == t[i + 1];
        }
      }
      ScanDigits(t[1..], 10 * acc + Digit(t[0]), true);
      DigitsValueCons(t);
      ShiftIn(acc, Digit(t[0]), Pow10(|t| - 1));
    }
  }

  lemma DigitsTrimmed(t: string)
    requires |t| > 0 && AllDigits(t)
    ensures IsTrimmed(t)
  {
    assert IsDigit(t[0]) && IsDigit(t[|t| - 1]);
  }

  // ---------------------------------------------------------------- String()

  /** Up to `k` decimal digits of a fraction in [0, 1), stopping once it is exhausted. */
  function FracDigits(f: real, k: nat): string
    requires 0.0 <= f < 1.0
    decreases k
  {
    if k == 0 || f == 0.0 then ""
    else
      var d := (f * 10.0).Floor;
      assert 0 <= d < 10;
      [DigitChar(d)] + FracDigits(f * 10.0 - d as real, k - 1)
  }

  /** Rendering of a number: integers exactly; fractions by their decimal
      expansion cut after 20 digits (shortest round-trip rendering of doubles
      and exponent notation are not modelled). */
  function NumText(x: real): string {
    if x < 0.0 then "-" + NonNegText(-x) else NonNegText(x)
  }

  function NonNegText(x: real): string
    requires x >= 0.0
  {
    var ip := x.Floor;
    var f := x - ip as real;
    if f == 0.0 then NatToString(ip) else NatToString(ip) + "." + FracDigits(f, 20)
  }

  /** `String(v)`. */
  function ToStr(v: Value): string {
    match v
    case Undefined => "undefined"
    case Null => "null"
    case Bool(b) => if b then "true" else "false"
    case Num(x) => NumText(x)
    case Str(s) => s
    case Arr(items) => Join(ItemTexts(items), ",")
    case Obj(_) => "[object Object]"
  }

  /** Array elements as `Array.prototype.join` renders them: nullish ones as empty. */
  function ItemTexts(items: seq<Value>): seq<string>
    decreases items
  {
    if |items| == 0 then []
    else [if Nullish(items[0]) then "" else ToStr(items[0])] + ItemTexts(items[1..])
  }

  lemma StrOfNat(n: nat)
    ensures ToStr(Num(n as real)) == NatToString(n)
  {
  }

  // ---------------------------------------------------------------- comparison

  /** `ToPrimitive(v, number)`: an array or plain object has no primitive
      `valueOf`, so it becomes its `String(v)` text; primitives stay. */
  function ToPrimitive(v: Value): (r: Value)
    ensures !r.Arr? && !r.Obj?
    ensures (v.Arr? || v.Obj?) ==> r == Str(ToStr(v))
    ensures !v.Arr? && !v.Obj? ==> r == v
  {
    if v.Arr? || v.Obj? then Str(ToStr(v)) else v
  }

  /** `a > b`: both operands are made primitive first; two strings then
      compare by `LexLess`, anything else numerically (NaN never compares). */
  predicate Greater(a: Value, b: Value) {
    var pa := ToPrimitive(a);
    var pb := ToPrimitive(b);
    if pa.Str? && pb.Str? then LexLess(pb.s, pa.s)
    else ToNumber(pa).Some? && ToNumber(pb).Some? && ToNumber(pa).value > ToNumber(pb).value
  }

  /** Two strings compare as text, never as numbers (`"10" > "9"` is false). */
  lemma GreaterOnStrings(x: string, y: string)
    ensures Greater(Str(x), Str(y)) <==> LexLess(y, x)
  {
  }

  /** A string against an array compares with the array's joined text. */
  lemma GreaterStrArr(x: string, items: seq<Value>)
    ensures Greater(Str(x), Arr(items)) <==> LexLess(Join(ItemTexts(items), ","), x)
    ensures Greater(Arr(items), Str(x)) <==> LexLess(x, Join(ItemTexts(items), ","))
  {
  }

  /** An array or object operand is compared exactly as its `String()` text would be. */
  lemma GreaterAsText(a: Value, b: Value)
    requires a.Arr? || a.Obj?
    ensures Greater(a, b) <==> Greater(Str(ToStr(a)), b)
    ensures Greater(b, a) <==> Greater(b, Str(ToStr(a)))
  {
  }

  lemma GreaterOnNumbers(x: real, y: real)
    ensures Greater(Num(x), Num(y)) <==> x > y
  {
  }

  lemma GreaterIrreflexive(a: Value)
    ensures !Greater(a, a)
  {
    var pa := ToPrimitive(a);
    if pa.Str? {
      LexIrreflexive(pa.s);
    }
  }
}
