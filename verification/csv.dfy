/** The CSV writer the exporters share: `esc`, the row line, the appended
    body and `toCSV`.

    A field is written as-is unless its text holds a double quote, a comma
    or a line feed; then it is wrapped in double quotes with every inner
    quote doubled, as section 2 of RFC 4180 lays out. The module also holds
    a reader for that format, and the round trip from written rows back to
    their field texts is proved through it. */
module Csv {
  import opened Text
  import Js

  /** The text `esc` starts from: `""` for `null`/`undefined`, `String(v)` otherwise. */
  function FieldText(v: Js.Value): string {
    if Js.Nullish(v) then "" else Js.ToStr(v)
  }

  /** `/[",\n]/.test(s)` */
  predicate NeedsQuotes(s: string) {
    '"' in s || ',' in s || '\n' in s
  }

  /** `s.replace(/"/g, '""')` */
  function Doubled(s: string): string {
    ReplaceAll(s, '"', "\"\"")
  }

  function EscText(s: string): (e: string)
    ensures !NeedsQuotes(s) ==> e == s
    ensures NeedsQuotes(s) ==> |e| >= 2 && e[0] == '"' && e[|e| - 1] == '"'
  {
    if NeedsQuotes(s) then "\"" + Doubled(s) + "\"" else s
  }

  /** `esc(v)` */
  function Esc(v: Js.Value): string {
    EscText(FieldText(v))
  }

  /** `headers.map(h => esc(r[h])).join(",")` */
  function Line(row: Js.Value, headers: seq<string>): string {
    Join(Cells(row, headers), ",")
  }

  function Cells(row: Js.Value, headers: seq<string>): (cells: seq<string>)
    ensures |cells| == |headers|
    ensures forall j :: 0 <= j < |headers| ==> cells[j] == EscText(FieldText(Js.Get(row, headers[j])))
  {
    seq(|headers|, j requires 0 <= j < |headers| => Esc(Js.Get(row, headers[j])))
  }

  function Lines(rows: seq<Js.Value>, headers: seq<string>): (lines: seq<string>)
    ensures |lines| == |rows|
    ensures forall i :: 0 <= i < |rows| ==> lines[i] == Line(rows[i], headers)
  {
    seq(|rows|, i requires 0 <= i < |rows| => Line(rows[i], headers))
  }

  /** `rows.map(r => headers.map(h => esc(r[h])).join(",")).join("\n") + "\n"`, the
      text every exporter appends to its file. */
  function Body(rows: seq<Js.Value>, headers: seq<string>): string {
    Join(Lines(rows, headers), "\n") + "\n"
  }

  /** `toCSV(rows, headers)`: the header line, then one line per row, then a final line feed. */
  function ToCsv(rows: seq<Js.Value>, headers: seq<string>): string {
    Join([Join(headers, ",")] + Lines(rows, headers), "\n") + "\n"
  }

  /** The field texts a reader recovers from a written row. */
  function Texts(row: Js.Value, headers: seq<string>): (ts: seq<string>)
    ensures |ts| == |headers|
  {
    seq(|headers|, j requires 0 <= j < |headers| => FieldText(Js.Get(row, headers[j])))
  }

  // ---------------------------------------------------------------- reading

  /** The rest of a quoted field after its opening quote: a doubled quote
      stands for one quote, a lone quote closes the field. */
  function ReadQuoted(s: string): (r: (string, string))
    ensures |r.1| < |s| || s == ""
    decreases |s|
  {
    if |s| == 0 then ("", "")
    else if s[0] == '"' then
      if |s| > 1 && s[1] == '"' then
        var (c, rest) := ReadQuoted(s[2..]);
        ("\"" + c, rest)
      else ("", s[1..])
    else
      var (c, rest) := ReadQuoted(s[1..]);
      ([s[0]] + c, rest)
  }

  /** An unquoted field: everything up to the next comma or line feed. */
  function ReadPlain(s: string): (r: (string, string))
    ensures |r.1| <= |s|
    ensures |r.1| == |s| ==> r.1 == s
    decreases |s|
  {
    if |s| == 0 || s[0] == ',' || s[0] == '\n' then ("", s)
    else
      var (c, rest) := ReadPlain(s[1..]);
      ([s[0]] + c, rest)
  }

  function ReadField(s: string): (r: (string, string))
    ensures |r.1| <= |s|
    ensures |r.1| == |s| ==> r.1 == s
  {
    if |s| > 0 && s[0] == '"' then ReadQuoted(s[1..]) else ReadPlain(s)
  }

  /** The fields of one record and what follows its line feed. */
  function ReadRecord(s: string): (r: (seq<string>, string))
    ensures |s| > 0 ==> |r.1| < |s|
    ensures |r.1| <= |s|
    decreases |s|
  {
    var (f, rest) := ReadField(s);
    if |rest| > 0 && rest[0] == ',' then
      var (fs, after) := ReadRecord(rest[1..]);
      ([f] + fs, after)
    else if |rest| > 0 && rest[0] == '\n' then ([f], rest[1..])
    else ([f], rest)
  }

  /** A whole document, record by record. */
  function Parse(s: string): seq<seq<string>>
    decreases |s|
  {
    if |s| == 0 then []
    else
      var (fs, rest) := ReadRecord(s);
      [fs] + Parse(rest)
  }

  // ---------------------------------------------------------------- round trip

  /** A field boundary: end of text, a comma or a line feed. */
  predicate AtBoundary(rest: string) {
    rest == "" || rest[0] == ',' || rest[0] == '\n'
  }

  lemma {:induction false} QuotedRoundTrip(t: string, rest: string)
    requires AtBoundary(rest)
    ensures ReadQuoted(Doubled(t) + "\"" + rest) == (t, rest)
    decreases |t|
  {
    if |t| == 0 {
      assert Doubled(t) + "\"" + rest == "\"" + rest;
      assert ("\"" + rest)[1..] == rest;
    } else {
      QuotedRoundTrip(t[1..], rest);
      QuotedStep(t, rest);
    }
  }

  /** One character of the text: a doubled quote or any other character is
      read back as itself. */
  lemma QuotedStep(t: string, rest: string)
    requires t != [] && ReadQuoted(Doubled(t[1..]) + "\"" + rest) == (t[1..], rest)
    ensures ReadQuoted(Doubled(t) + "\"" + rest) == (t, rest)
  {
    var d := Doubled(t[1..]) + "\"" + rest;
    if t[0] == '"' {
      assert Doubled(t) + "\"" + rest == "\"\"" + d;
      ReadDoubledQuote(d);
      assert "\"" + t[1..] == t;
    } else {
      assert Doubled(t) + "\"" + rest == [t[0]] + d;
      ReadOther(t[0], d);
      assert [t[0]] + t[1..] == t;
    }
  }

  lemma ReadDoubledQuote(d: string)
    ensures ReadQuoted("\"\"" + d) == ("\"" + ReadQuoted(d).0, ReadQuoted(d).1)
  {
    var s := "\"\"" + d;
    assert s[0] == '"' && s[1] == '"' && s[2..] == d;
  }

  lemma ReadOther(x: char, d: string)
    requires x != '"'
    ensures ReadQuoted([x] + d) == ([x] + ReadQuoted(d).0, ReadQuoted(d).1)
  {
    assert ([x] + d)[1..] == d;
  }

  lemma {:induction false} PlainRoundTrip(t: string, rest: string)
    requires ',' !in t && '\n' !in t && AtBoundary(rest)
    ensures ReadPlain(t + rest) == (t, rest)
    decreases |t|
  {
    if |t| == 0 {
      assert t + rest == rest;
    } else {
      assert t[0] in t;
      assert (t + rest)[1..] == t[1..] + rest;
      assert forall c :: c in t[1..] ==> c in t;
      PlainRoundTrip(t[1..], rest);
      assert [t[0]] + t[1..] == t;
    }
  }

  lemma QuotedField(t: string, rest: string)
    requires AtBoundary(rest) && NeedsQuotes(t)
    ensures ReadField(EscText(t) + rest) == (t, rest)
  {
    var s := "\"" + (Doubled(t) + "\"" + rest);
    assert EscText(t) + rest == s;
    assert s[1..] == Doubled(t) + "\"" + rest;
    QuotedRoundTrip(t, rest);
  }

  lemma PlainField(t: string, rest: string)
    requires AtBoundary(rest) && !NeedsQuotes(t)
    ensures ReadField(EscText(t) + rest) == (t, rest)
  {
    PlainRoundTrip(t, rest);
    if |t| > 0 {
      assert t[0] in t;
      assert (t + rest)[0] == t[0];
    }
  }

  /** Reading a written field gives back its text and stops at the boundary after it. */
  lemma FieldRoundTrip(t: string, rest: string)
    requires AtBoundary(rest)
    ensures ReadField(EscText(t) + rest) == (t, rest)
  {
    if NeedsQuotes(t) {
      QuotedField(t, rest);
    } else {
      PlainField(t, rest);
    }
  }

  /** Written fields joined by commas and closed by a line feed read back as
      the same texts. */
  lemma {:induction false} RecordRoundTrip(ts: seq<string>, rest: string)
    requires |ts| >= 1
    ensures ReadRecord(Join(EscAll(ts), ",") + "\n" + rest) == (ts, rest)
    decreases |ts|
  {
    var s := Join(EscAll(ts), ",") + "\n" + rest;
    if |ts| == 1 {
      assert Join(EscAll(ts), ",") == EscText(ts[0]);
      assert s == EscText(ts[0]) + ("\n" + rest);
      FieldRoundTrip(ts[0], "\n" + rest);
      assert ("\n" + rest)[1..] == rest;
      assert ts == [ts[0]];
    } else {
      var tail := Join(EscAll(ts[1..]), ",") + "\n" + rest;
      assert EscAll(ts)[1..] == EscAll(ts[1..]);
      assert s == EscText(ts[0]) + ("," + tail);
      FieldRoundTrip(ts[0], "," + tail);
      assert ("," + tail)[1..] == tail;
      RecordRoundTrip(ts[1..], rest);
      assert [ts[0]] + ts[1..] == ts;
    }
  }

  function EscAll(ts: seq<string>): (es: seq<string>)
    ensures |es| == |ts|
    ensures forall j :: 0 <= j < |ts| ==> es[j] == EscText(ts[j])
  {
    seq(|ts|, j requires 0 <= j < |ts| => EscText(ts[j]))
  }

  /** Every line followed by its own line feed. */
  function Terminated(lines: seq<string>): string
    decreases |lines|
  {
    if |lines| == 0 then "" else lines[0] + "\n" + Terminated(lines[1..])
  }

  lemma {:induction false} JoinTerminated(lines: seq<string>)
    requires |lines| >= 1
    ensures Join(lines, "\n") + "\n" == Terminated(lines)
    decreases |lines|
  {
    if |lines| > 1 {
      JoinTerminated(lines[1..]);
      assert Terminated(lines[1..][1..]) == Terminated(lines[2..]);
    }
  }

  /** Reading back terminated records, each given as its field texts. */
  lemma {:induction false} ParseTerminated(rows: seq<seq<string>>)
    requires forall i :: 0 <= i < |rows| ==> |rows[i]| >= 1
    ensures Parse(Terminated(seq(|rows|, i requires 0 <= i < |rows| => Join(EscAll(rows[i]), ",")))) == rows
    decreases |rows|
  {
    var lines := seq(|rows|, i requires 0 <= i < |rows| => Join(EscAll(rows[i]), ","));
    if |rows| > 0 {
      var tailLines := seq(|rows| - 1, i requires 0 <= i < |rows| - 1 => Join(EscAll(rows[1..][i]), ","));
      assert lines[1..] == tailLines;
      RecordRoundTrip(rows[0], Terminated(tailLines));
      ParseTerminated(rows[1..]);
      assert [rows[0]] + rows[1..] == rows;
    }
  }

  /** Lines, each the written fields of one record, joined and terminated by
      line feeds read back as those records. */
  lemma LinesRoundTrip(lines: seq<string>, texts: seq<seq<string>>)
    requires |lines| == |texts| >= 1
    requires forall i :: 0 <= i < |texts| ==> |texts[i]| >= 1 && lines[i] == Join(EscAll(texts[i]), ",")
    ensures Parse(Join(lines, "\n") + "\n") == texts
  {
    assert lines == seq(|texts|, i requires 0 <= i < |texts| => Join(EscAll(texts[i]), ","));
    JoinTerminated(lines);
    ParseTerminated(texts);
  }

  /** The appended body reads back, row by row, as the texts of every header's value. */
  lemma BodyRoundTrip(rows: seq<Js.Value>, headers: seq<string>)
    requires |rows| >= 1 && |headers| >= 1
    ensures Parse(Body(rows, headers)) == seq(|rows|, i requires 0 <= i < |rows| => Texts(rows[i], headers))
  {
    var texts := seq(|rows|, i requires 0 <= i < |rows| => Texts(rows[i], headers));
    var lines := Lines(rows, headers);
    forall i | 0 <= i < |rows| ensures lines[i] == Join(EscAll(texts[i]), ",") {
      assert Cells(rows[i], headers) == EscAll(texts[i]);
    }
    LinesRoundTrip(lines, texts);
  }

  /** With plain header names, `toCSV` reads back as the header row followed by the rows' texts. */
  lemma ToCsvRoundTrip(rows: seq<Js.Value>, headers: seq<string>)
    requires |headers| >= 1
    requires forall j :: 0 <= j < |headers| ==> !NeedsQuotes(headers[j])
    ensures Parse(ToCsv(rows, headers)) == [headers] + seq(|rows|, i requires 0 <= i < |rows| => Texts(rows[i], headers))
  {
    var body := seq(|rows|, i requires 0 <= i < |rows| => Texts(rows[i], headers));
    var texts := [headers] + body;
    var lines := [Join(headers, ",")] + Lines(rows, headers);
    assert EscAll(headers) == headers;
    forall i | 0 <= i < |texts| ensures |texts[i]| >= 1 && lines[i] == Join(EscAll(texts[i]), ",") {
      if i > 0 {
        assert texts[i] == Texts(rows[i - 1], headers);
        assert Cells(rows[i - 1], headers) == EscAll(texts[i]);
      }
    }
    LinesRoundTrip(lines, texts);
  }
}
