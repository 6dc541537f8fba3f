/** String helpers with the meaning JavaScript gives them: `split`, `join`,
    `trim`, `toUpperCase`, `replace` with a one-character pattern, the default
    string order used by `Array.prototype.sort`, and decimal rendering of
    integers. Strings are sequences of Unicode characters (code points),
    where JavaScript counts and compares UTF-16 code units. */
module Text {

  // ---------------------------------------------------------------- characters

  /** The characters `String.prototype.trim` removes (WhiteSpace and LineTerminator). */
  predicate IsSpace(c: char) {
    || c == ' ' || c == '\t' || c == '\n' || c == '\r' || c == '\U{B}' || c == '\U{C}'
    || c == '\U{A0}' || c == '\U{1680}' || ('\U{2000}' <= c <= '\U{200A}')
    || c == '\U{2028}' || c == '\U{2029}' || c == '\U{202F}' || c == '\U{205F}'
    || c == '\U{3000}' || c == '\U{FEFF}'
  }

  predicate IsDigit(c: char) {
    '0' <= c <= '9'
  }

  function UpperChar(c: char): char {
    if 'a' <= c <= 'z' then (c as int - 32) as char else c
  }

  function LowerChar(c: char): char {
    if 'A' <= c <= 'Z' then (c as int + 32) as char else c
  }

  /** `toUpperCase` on the ASCII letters; every other character is kept. */
  function ToUpper(s: string): (r: string)
    ensures |r| == |s|
    ensures forall i :: 0 <= i < |s| ==> r[i] == UpperChar(s[i])
  {
    seq(|s|, i requires 0 <= i < |s| => UpperChar(s[i]))
  }

  /** `toLowerCase` on the ASCII letters; every other character is kept. */
  function ToLower(s: string): (r: string)
    ensures |r| == |s|
    ensures forall i :: 0 <= i < |s| ==> r[i] == LowerChar(s[i])
  {
    seq(|s|, i requires 0 <= i < |s| => LowerChar(s[i]))
  }

  /** Lower-casing a text without capital letters leaves it as it is. */
  lemma LowerOfLower(s: string)
    requires forall i :: 0 <= i < |s| ==> !('A' <= s[i] <= 'Z')
    ensures ToLower(s) == s
  {
  }

  lemma UpperIdempotent(s: string)
    ensures ToUpper(ToUpper(s)) == ToUpper(s)
  {
  }

  predicate StartsWith(s: string, prefix: string) {
    |prefix| <= |s| && s[..|prefix|] == prefix
  }

  predicate EndsWith(s: string, suffix: string) {
    |suffix| <= |s| && s[|s| - |suffix|..] == suffix
  }

  // ---------------------------------------------------------------- trim

  function TrimStart(s: string): (r: string)
    ensures |r| <= |s| && r == s[|s| - |r|..]
    ensures forall i :: 0 <= i < |s| - |r| ==> IsSpace(s[i])
    ensures r == [] || !IsSpace(r[0])
  {
    if |s| > 0 && IsSpace(s[0]) then
      var r := TrimStart(s[1..]);
      assert forall i :: 1 <= i < |s| - |r| ==> s[i] == s[1..][i - 1];
      r
    else s
  }

  function TrimEnd(s: string): (r: string)
    ensures |r| <= |s| && r == s[..|r|]
    ensures forall i :: |r| <= i < |s| ==> IsSpace(s[i])
    ensures r == [] || !IsSpace(r[|r| - 1])
  {
    if |s| > 0 && IsSpace(s[|s| - 1]) then
      var r := TrimEnd(s[..|s| - 1]);
      assert forall i :: |r| <= i < |s| - 1 ==> s[i] == s[..|s| - 1][i];
      r
    else s
  }

  /** `String.prototype.trim`: the longest infix with no surrounding white space. */
  function Trim(s: string): (r: string)
    ensures r == [] || (!IsSpace(r[0]) && !IsSpace(r[|r| - 1]))
    ensures |s| - |TrimStart(s)| + |r| <= |s|
    ensures r == s[|s| - |TrimStart(s)|..|s| - |TrimStart(s)| + |r|]
  {
    var a := TrimStart(s);
    var b := TrimEnd(a);
    SliceOfSuffix(s, |s| - |a|, |b|);
    b
  }

  /** Trimming a string that starts with a non-space keeps every character up
      to its `n`-th when that one is not white space either. */
  lemma TrimKeepsPrefix(s: string, n: nat)
    requires 0 < n <= |s| && !IsSpace(s[0]) && !IsSpace(s[n - 1])
    ensures n <= |Trim(s)| <= |s| && Trim(s)[..n] == s[..n]
  {
    assert TrimStart(s) == s;
    var r := TrimEnd(s);
    assert Trim(s) == r;
    assert |r| >= n;
  }

  /** Trimming keeps a head that neither starts nor ends with white space. */
  lemma TrimHead(head: string, rest: string)
    requires head != [] && !IsSpace(head[0]) && !IsSpace(head[|head| - 1])
    ensures |head| <= |Trim(head + rest)| <= |head| + |rest|
    ensures Trim(head + rest)[..|head|] == head
  {
    assert (head + rest)[0] == head[0] && (head + rest)[|head| - 1] == head[|head| - 1];
    TrimKeepsPrefix(head + rest, |head|);
    assert (head + rest)[..|head|] == head;
  }

  lemma SliceOfSuffix(s: string, k: nat, n: nat)
    requires k + n <= |s|
    ensures s[k..][..n] == s[k..k + n]
  {
  }

  predicate IsTrimmed(s: string) {
    s == [] || (!IsSpace(s[0]) && !IsSpace(s[|s| - 1]))
  }

  lemma TrimOfTrimmed(s: string)
    requires IsTrimmed(s)
    ensures Trim(s) == s
  {
  }

  // ---------------------------------------------------------------- split / join

  /** Position of the first `c` in `s`. */
  function IndexOf(s: string, c: char): (i: nat)
    requires c in s
    ensures i < |s| && s[i] == c && c !in s[..i]
  {
    if s[0] == c then 0 else 1 + IndexOf(s[1..], c)
  }

  /** `s.split(sep)` for a one-character separator: never empty, and no piece holds `sep`. */
  function Split(s: string, sep: char): (parts: seq<string>)
    ensures |parts| >= 1
    ensures forall i :: 0 <= i < |parts| ==> sep !in parts[i]
    decreases |s|
  {
    if sep !in s then [s]
    else
      var i := IndexOf(s, sep);
      [s[..i]] + Split(s[i + 1..], sep)
  }

  /** `parts.join(sep)`. */
  function Join(parts: seq<string>, sep: string): string {
    if |parts| == 0 then ""
    else if |parts| == 1 then parts[0]
    else parts[0] + sep + Join(parts[1..], sep)
  }

  /** Joining two non-empty lists one after the other is joining their concatenation. */
  lemma {:induction false} JoinAppend(xs: seq<string>, ys: seq<string>, sep: string)
    requires |xs| > 0 && |ys| > 0
    ensures Join(xs + ys, sep) == Join(xs, sep) + sep + Join(ys, sep)
    decreases |xs|
  {
    if |xs| == 1 {
      assert (xs + ys)[1..] == ys;
    } else {
      assert (xs + ys)[1..] == xs[1..] + ys;
      JoinAppend(xs[1..], ys, sep);
    }
  }

  lemma {:induction false} JoinSplit(s: string, sep: char)
    ensures Join(Split(s, sep), [sep]) == s
    decreases |s|
  {
    if sep in s {
      var i := IndexOf(s, sep);
      var rest := Split(s[i + 1..], sep);
      var parts := [s[..i]] + rest;
      assert Split(s, sep) == parts;
      assert parts[0] == s[..i] && parts[1..] == rest && |parts| > 1;
      assert Join(parts, [sep]) == s[..i] + [sep] + Join(rest, [sep]);
      JoinSplit(s[i + 1..], sep);
      assert s == s[..i] + [sep] + s[i + 1..];
    }
  }

  lemma {:induction false} SplitJoin(parts: seq<string>, sep: char)
    requires |parts| >= 1
    requires forall i :: 0 <= i < |parts| ==> sep !in parts[i]
    ensures Split(Join(parts, [sep]), sep) == parts
  {
    if |parts| > 1 {
      var rest := Join(parts[1..], [sep]);
      var s := parts[0] + [sep] + rest;
      SplitJoin(parts[1..], sep);
      assert s[|parts[0]|] == sep;
      assert sep !in s[..|parts[0]|] by { assert s[..|parts[0]|] == parts[0]; }
      IndexOfFirst(s, sep, |parts[0]|);
      assert s[..|parts[0]|] == parts[0];
      assert s[|parts[0]| + 1..] == rest;
    }
  }

  lemma IndexOfFirst(s: string, c: char, i: nat)
    requires i < |s| && s[i] == c && c !in s[..i]
    ensures IndexOf(s, c) == i
  {
  }

  /** Drops the empty strings, keeping order (`.filter(Boolean)` on strings). */
  function NonEmpty(xs: seq<string>): (r: seq<string>)
    ensures forall i :: 0 <= i < |r| ==> r[i] != []
    ensures forall x :: x in r <==> x in xs && x != []
  {
    if |xs| == 0 then []
    else if xs[0] == [] then NonEmpty(xs[1..])
    else [xs[0]] + NonEmpty(xs[1..])
  }

  function TrimAll(xs: seq<string>): (r: seq<string>)
    ensures |r| == |xs|
    ensures forall i :: 0 <= i < |xs| ==> r[i] == Trim(xs[i])
  {
    seq(|xs|, i requires 0 <= i < |xs| => Trim(xs[i]))
  }

  /** `s.split(",").map(x => x.trim()).filter(Boolean)`, the list idiom every
      entry point uses for its uid and symbol parameters. */
  function CommaList(s: string): (r: seq<string>)
    ensures forall i :: 0 <= i < |r| ==> r[i] != [] && IsTrimmed(r[i]) && ',' !in r[i]
  {
    var parts := Split(s, ',');
    var trimmed := TrimAll(parts);
    TrimmedPieces(parts);
    var r := NonEmpty(trimmed);
    assert forall i :: 0 <= i < |r| ==> r[i] in trimmed;
    r
  }

  lemma TrimmedPieces(parts: seq<string>)
    requires forall i :: 0 <= i < |parts| ==> ',' !in parts[i]
    ensures forall x :: x in TrimAll(parts) ==> IsTrimmed(x) && ',' !in x
  {
    var trimmed := TrimAll(parts);
    forall x | x in trimmed ensures IsTrimmed(x) && ',' !in x {
      var i :| 0 <= i < |trimmed| && trimmed[i] == x;
    }
  }

  /** Items a comma list can hold: non-empty, trimmed, comma-free. */
  predicate PlainItems(xs: seq<string>) {
    forall i :: 0 <= i < |xs| ==> xs[i] != [] && IsTrimmed(xs[i]) && ',' !in xs[i]
  }

  lemma PlainItemsAppend(xs: seq<string>, ys: seq<string>)
    requires PlainItems(xs) && PlainItems(ys)
    ensures PlainItems(xs + ys)
  {
    forall i | 0 <= i < |xs + ys|
      ensures (xs + ys)[i] != [] && IsTrimmed((xs + ys)[i]) && ',' !in (xs + ys)[i]
    {
      if i >= |xs| {
        assert (xs + ys)[i] == ys[i - |xs|];
      }
    }
  }

  /** A list of non-empty, trimmed, comma-free items survives a join/parse round trip. */
  lemma CommaListJoin(xs: seq<string>)
    requires forall i :: 0 <= i < |xs| ==> xs[i] != [] && IsTrimmed(xs[i]) && ',' !in xs[i]
    ensures |xs| > 0 ==> CommaList(Join(xs, ",")) == xs
  {
    if |xs| > 0 {
      SplitJoin(xs, ',');
      var trimmed := TrimAll(xs);
      assert trimmed == xs by {
        forall i | 0 <= i < |xs| ensures trimmed[i] == xs[i] {
          TrimOfTrimmed(xs[i]);
        }
      }
      NonEmptyKeeps(xs);
    }
  }

  /** `value || fallback` for a text value. */
  function Fallback(value: string, fallback: string): (r: string)
    ensures value != "" ==> r == value
    ensures value == "" ==> r == fallback
  {
    if value != "" then value else fallback
  }

  /** A non-empty list written comma-separated in place of a fallback is read back as it is. */
  lemma CommaListGiven(xs: seq<string>, fallback: string)
    requires |xs| > 0
    requires forall i :: 0 <= i < |xs| ==> xs[i] != [] && IsTrimmed(xs[i]) && ',' !in xs[i]
    ensures CommaList(Fallback(Join(xs, ","), fallback)) == xs
  {
    JoinHasFirst(xs, ",");
    CommaListJoin(xs);
  }

  lemma JoinHasFirst(xs: seq<string>, sep: string)
    requires |xs| > 0
    ensures |Join(xs, sep)| >= |xs[0]|
  {
  }

  lemma {:induction false} NonEmptyKeeps(xs: seq<string>)
    requires forall i :: 0 <= i < |xs| ==> xs[i] != []
    ensures NonEmpty(xs) == xs
  {
    if |xs| > 0 {
      NonEmptyKeeps(xs[1..]);
    }
  }

  // ---------------------------------------------------------------- replace

  /** `s.replace(c, w)` with a one-character string pattern: only the first match. */
  function ReplaceFirst(s: string, c: char, w: string): (r: string)
    ensures c !in s ==> r == s
    ensures c in s ==> r == s[..IndexOf(s, c)] + w + s[IndexOf(s, c) + 1..]
  {
    if c in s then s[..IndexOf(s, c)] + w + s[IndexOf(s, c) + 1..] else s
  }

  /** `s.replace(/c/g, w)`. */
  function ReplaceAll(s: string, c: char, w: string): (r: string)
    ensures c !in w ==> c !in r
    ensures c !in s ==> r == s
  {
    if |s| == 0 then ""
    else (if s[0] == c then w else [s[0]]) + ReplaceAll(s[1..], c, w)
  }

  /** `s.replace(/c/g, "")`. */
  function RemoveAll(s: string, c: char): (r: string)
    ensures c !in r
    ensures |r| <= |s|
    ensures forall d :: d != c ==> multiset(r)[d] == multiset(s)[d]
  {
    if |s| == 0 then ""
    else
      var rest := RemoveAll(s[1..], c);
      assert s == [s[0]] + s[1..];
      if s[0] == c then rest else [s[0]] + rest
  }

  // ---------------------------------------------------------------- numbers

  function DigitChar(d: nat): char
    requires d < 10
  {
    ('0' as int + d) as char
  }

  /** Decimal rendering of a natural number, no leading zeros. */
  function NatToString(n: nat): (r: string)
    ensures |r| >= 1
    ensures forall i :: 0 <= i < |r| ==> IsDigit(r[i])
    ensures n > 0 ==> r[0] != '0'
  {
    if n < 10 then [DigitChar(n)] else NatToString(n / 10) + [DigitChar(n % 10)]
  }

  /** Decimal rendering of an integer, with a leading `-` when negative. */
  function IntToString(i: int): (r: string)
    ensures |r| >= 1
  {
    if i < 0 then "-" + NatToString(-i) else NatToString(i)
  }

  /** Value of a non-empty run of decimal digits. */
  function DigitsValue(s: string): nat
    requires forall i :: 0 <= i < |s| ==> IsDigit(s[i])
  {
    if |s| == 0 then 0
    else
      assert IsDigit(s[|s| - 1]);
      10 * DigitsValue(s[..|s| - 1]) + (s[|s| - 1] as int - '0' as int)
  }

  lemma {:induction false} DigitsRoundTrip(n: nat)
    ensures DigitsValue(NatToString(n)) == n
  {
    if n >= 10 {
      DigitsRoundTrip(n / 10);
      var s := NatToString(n);
      assert s[..|s| - 1] == NatToString(n / 10);
    }
  }

  // ---------------------------------------------------------------- order

  /** The default string order of `Array.prototype.sort`, lexicographic by
      code point. JavaScript compares UTF-16 code units, which orders a
      character beyond U+FFFF below one in U+E000..U+FFFF; elsewhere the two
      orders agree. */
  predicate LexLess(a: string, b: string)
    decreases |a|
  {
    if |a| == 0 then |b| > 0
    else if |b| == 0 then false
    else if a[0] != b[0] then a[0] < b[0]
    else LexLess(a[1..], b[1..])
  }

  predicate LexLeq(a: string, b: string) {
    a == b || LexLess(a, b)
  }

  lemma {:induction false} LexIrreflexive(a: string)
    ensures !LexLess(a, a)
  {
    if |a| > 0 {
      LexIrreflexive(a[1..]);
    }
  }

  lemma {:induction false} LexTrichotomy(a: string, b: string)
    ensures LexLess(a, b) || a == b || LexLess(b, a)
  {
    if |a| > 0 && |b| > 0 && a[0] == b[0] {
      LexTrichotomy(a[1..], b[1..]);
      if a[1..] == b[1..] {
        assert a == [a[0]] + a[1..] && b == [b[0]] + b[1..];
      }
    }
  }

  lemma {:induction false} LexAsymmetric(a: string, b: string)
    ensures !(LexLess(a, b) && LexLess(b, a))
  {
    if |a| > 0 && |b| > 0 && a[0] == b[0] {
      LexAsymmetric(a[1..], b[1..]);
    }
  }

  lemma {:induction false} LexTransitive(a: string, b: string, c: string)
    requires LexLess(a, b) && LexLess(b, c)
    ensures LexLess(a, c)
  {
    if |a| > 0 && |b| > 0 && |c| > 0 && a[0] == b[0] && b[0] == c[0] {
      LexTransitive(a[1..], b[1..], c[1..]);
    }
  }

  lemma LexLeqTotal(a: string, b: string)
    ensures LexLeq(a, b) || LexLeq(b, a)
  {
    LexTrichotomy(a, b);
  }

  lemma LexLeqAntisymmetric(a: string, b: string)
    requires LexLeq(a, b) && LexLeq(b, a)
    ensures a == b
  {
    LexAsymmetric(a, b);
  }

  lemma LexLeqTransitive(a: string, b: string, c: string)
    requires LexLeq(a, b) && LexLeq(b, c)
    ensures LexLeq(a, c)
  {
    if a != b && b != c {
      LexTransitive(a, b, c);
    }
  }

  // ---------------------------------------------------------------- sort

  predicate Sorted(xs: seq<string>) {
    forall i, j :: 0 <= i < j < |xs| ==> LexLeq(xs[i], xs[j])
  }

  function Insert(x: string, xs: seq<string>): (r: seq<string>)
    requires Sorted(xs)
    ensures Sorted(r)
    ensures multiset(r) == multiset(xs) + multiset{x}
  {
    if |xs| == 0 then [x]
    else if LexLeq(x, xs[0]) then
      forall j | 0 <= j < |xs| ensures LexLeq(x, xs[j]) {
        LexLeqTransitive(x, xs[0], xs[j]);
      }
      SortedCons(x, xs);
      [x] + xs
    else
      LexLeqTotal(x, xs[0]);
      var rest := Insert(x, xs[1..]);
      assert xs == [xs[0]] + xs[1..];
      HeadStaysSorted(x, xs, rest);
      [xs[0]] + rest
  }

  /** The head of a sorted list stays first when `x`, not before it, joins the rest. */
  lemma HeadStaysSorted(x: string, xs: seq<string>, rest: seq<string>)
    requires Sorted(xs) && xs != [] && LexLeq(xs[0], x) && Sorted(rest)
    requires multiset(rest) == multiset(xs[1..]) + multiset{x}
    ensures Sorted([xs[0]] + rest)
  {
    forall j | 0 <= j < |rest| ensures LexLeq(xs[0], rest[j]) {
      assert rest[j] in multiset(rest);
      if rest[j] != x {
        var k :| 0 <= k < |xs[1..]| && xs[1..][k] == rest[j];
        assert xs[k + 1] == rest[j];
      }
    }
    SortedCons(xs[0], rest);
  }

  lemma SortedCons(x: string, s: seq<string>)
    requires Sorted(s) && forall j :: 0 <= j < |s| ==> LexLeq(x, s[j])
    ensures Sorted([x] + s)
  {
    var r := [x] + s;
    forall i, j | 0 <= i < j < |r| ensures LexLeq(r[i], r[j]) {
      assert r[j] == s[j - 1];
      if i > 0 {
        assert r[i] == s[i - 1];
      }
    }
  }

  /** `arr.slice().sort()` on strings: the sorted permutation of `xs`. */
  function SortStrings(xs: seq<string>): (r: seq<string>)
    ensures Sorted(r)
    ensures multiset(r) == multiset(xs)
  {
    if |xs| == 0 then []
    else
      assert xs == [xs[0]] + xs[1..];
      Insert(xs[0], SortStrings(xs[1..]))
  }

  /** Two sorted lists with the same elements are the same list. */
  lemma {:induction false} SortedUnique(a: seq<string>, b: seq<string>)
    requires Sorted(a) && Sorted(b) && multiset(a) == multiset(b)
    ensures a == b
  {
    if |a| > 0 {
      assert |b| == |multiset(b)| == |multiset(a)| == |a|;
      SortedHeads(a, b);
      SortedTail(a);
      SortedTail(b);
      assert a == [a[0]] + a[1..] && b == [b[0]] + b[1..];
      assert multiset(a[1..]) == multiset(a) - multiset{a[0]};
      assert multiset(b[1..]) == multiset(b) - multiset{b[0]};
      SortedUnique(a[1..], b[1..]);
    }
  }

  lemma SortedTail(a: seq<string>)
    requires Sorted(a) && |a| > 0
    ensures Sorted(a[1..])
  {
    forall i, j | 0 <= i < j < |a[1..]| ensures LexLeq(a[1..][i], a[1..][j]) {
      assert a[1..][i] == a[i + 1] && a[1..][j] == a[j + 1];
    }
  }

  lemma SortedHeads(a: seq<string>, b: seq<string>)
    requires Sorted(a) && Sorted(b) && multiset(a) == multiset(b) && |a| > 0 && |b| > 0
    ensures a[0] == b[0]
  {
    assert a[0] in multiset(b);
    assert b[0] in multiset(a);
    var i :| 0 <= i < |b| && b[i] == a[0];
    var j :| 0 <= j < |a| && a[j] == b[0];
    assert LexLeq(b[0], b[i]) by {
      if i > 0 {
        assert LexLeq(b[0], b[i]);
      }
    }
    assert LexLeq(a[0], a[j]) by {
      if j > 0 {
        assert LexLeq(a[0], a[j]);
      }
    }
    LexLeqAntisymmetric(a[0], b[0]);
  }

  /** Sorting forgets the order of its input. */
  lemma SortIgnoresOrder(a: seq<string>, b: seq<string>)
    requires multiset(a) == multiset(b)
    ensures SortStrings(a) == SortStrings(b)
  {
    SortedUnique(SortStrings(a), SortStrings(b));
  }
}
