/** The CSV export's field escaping and line assembly, with a quote-aware
    reader that recovers the fields from the text. */
module Csv {
  import opened Results

  /** The characters that force a field to be quoted: `/[",\n]/`. */
  predicate Special(c: char) {
    c == '"' || c == ',' || c == '\n'
  }

  predicate NeedsQuotes(s: string) {
    exists i :: 0 <= i < |s| && Special(s[i])
  }

  predicate HasQuote(s: string) {
    exists i :: 0 <= i < |s| && s[i] == '"'
  }

  /** `s.replace(/"/g, '""')`: every quote doubled. */
  function DoubleQuotes(s: string): (r: string)
    ensures |r| >= |s|
    ensures !HasQuote(s) ==> r == s
  {
    if |s| == 0 then ""
    else
      assert !HasQuote(s) ==> !HasQuote(s[1..]) by {
        if HasQuote(s[1..]) {
          var i :| 0 <= i < |s[1..]| && s[1..][i] == '"';
          assert s[i + 1] == '"';
        }
      }
      (if s[0] == '"' then "\"\"" else [s[0]]) + DoubleQuotes(s[1..])
  }

  /** The inverse of `DoubleQuotes`: every doubled quote read as one. */
  function UndoubleQuotes(t: string): string {
    if |t| == 0 then ""
    else if |t| >= 2 && t[0] == '"' && t[1] == '"' then "\"" + UndoubleQuotes(t[2..])
    else [t[0]] + UndoubleQuotes(t[1..])
  }

  lemma {:induction false} UndoubleDouble(s: string)
    ensures UndoubleQuotes(DoubleQuotes(s)) == s
  {
    if |s| > 0 {
      UndoubleDouble(s[1..]);
      var d := DoubleQuotes(s[1..]);
      if s[0] == '"' {
        assert DoubleQuotes(s) == "\"\"" + d;
        assert ("\"\"" + d)[2..] == d;
      } else {
        assert DoubleQuotes(s) == [s[0]] + d;
        assert ([s[0]] + d)[1..] == d;
      }
    }
  }

  /** `esc`: null becomes the empty field; a value with a quote, comma or
      newline is wrapped in quotes with its quotes doubled; any other value
      is written as it is. */
  function Esc(val: Option<string>): (r: string)
    ensures val.None? ==> r == ""
    ensures val.Some? && !NeedsQuotes(val.value) ==> r == val.value
    ensures val.Some? && NeedsQuotes(val.value) ==>
      |r| >= |val.value| + 2 && r[0] == '"' && r[|r| - 1] == '"'
  {
    match val
    case None => ""
    case Some(s) => if NeedsQuotes(s) then "\"" + DoubleQuotes(s) + "\"" else s
  }

  /** Reading one escaped field back: strip the outer quotes and un-double. */
  function Unescape(field: string): string {
    if |field| >= 2 && field[0] == '"' && field[|field| - 1] == '"'
    then UndoubleQuotes(field[1..|field| - 1])
    else field
  }

  /** Escaping loses nothing: the value is recovered from its field. */
  lemma EscRoundTrip(s: string)
    ensures Unescape(Esc(Some(s))) == s
  {
    if NeedsQuotes(s) {
      var r := Esc(Some(s));
      assert r[1..|r| - 1] == DoubleQuotes(s);
      UndoubleDouble(s);
    } else if |s| >= 2 && s[0] == '"' {
      assert Special(s[0]);
    }
  }

  /** `parts.join(sep)`. */
  function Join(parts: seq<string>, sep: char): string {
    if |parts| == 0 then ""
    else if |parts| == 1 then parts[0]
    else parts[0] + [sep] + Join(parts[1..], sep)
  }

  function EscapeAll(fields: seq<Option<string>>): (r: seq<string>)
    ensures |r| == |fields|
    ensures forall i :: 0 <= i < |fields| ==> r[i] == Esc(fields[i])
  {
    seq(|fields|, i requires 0 <= i < |fields| => Esc(fields[i]))
  }

  /** One CSV line: every field escaped, joined with commas. */
  function Line(fields: seq<Option<string>>): string {
    Join(EscapeAll(fields), ',')
  }

  function LinesOf(records: seq<seq<Option<string>>>): (r: seq<string>)
    ensures |r| == |records|
    ensures forall k :: 0 <= k < |records| ==> r[k] == Line(records[k])
  {
    seq(|records|, k requires 0 <= k < |records| => Line(records[k]))
  }

  function TextsOf(records: seq<seq<Option<string>>>): (r: seq<seq<string>>)
    ensures |r| == |records|
    ensures forall k :: 0 <= k < |records| ==> r[k] == Texts(records[k])
  {
    seq(|records|, k requires 0 <= k < |records| => Texts(records[k]))
  }

  /** The header names as fields. */
  function Present(names: seq<string>): (fields: seq<Option<string>>)
    ensures |fields| == |names|
    ensures forall i :: 0 <= i < |names| ==> fields[i] == Some(names[i])
  {
    seq(|names|, i requires 0 <= i < |names| => Some(names[i]))
  }

  /** The exported text: the header line, then one line per row, joined
      with newlines. */
  function Document(headers: seq<string>, rows: seq<seq<Option<string>>>): string {
    Join(LinesOf([Present(headers)] + rows), '\n')
  }

  /** What a reader sees of a field: null reads as the empty string. */
  function Texts(fields: seq<Option<string>>): (r: seq<string>)
    ensures |r| == |fields|
    ensures forall i :: 0 <= i < |fields| ==> r[i] == fields[i].GetOr("")
  {
    seq(|fields|, i requires 0 <= i < |fields| => fields[i].GetOr(""))
  }

  // ---------------------------------------------------------------- reader

  /** The body of a quoted field, after its opening quote: up to the first
      quote that is not doubled. Returns the text and what follows the
      closing quote. */
  function ParseQuoted(t: string): (r: (string, string))
    ensures |r.1| <= |t|
  {
    if |t| == 0 then ("", "")
    else if t[0] == '"' then
      if |t| >= 2 && t[1] == '"' then
        var (c, rest) := ParseQuoted(t[2..]);
        ("\"" + c, rest)
      else ("", t[1..])
    else
      var (c, rest) := ParseQuoted(t[1..]);
      ([t[0]] + c, rest)
  }

  /** An unquoted field: up to the next comma or newline. */
  function ParseBare(t: string): (r: (string, string))
    ensures |r.1| <= |t|
  {
    if |t| == 0 || t[0] == ',' || t[0] == '\n' then ("", t)
    else
      var (c, rest) := ParseBare(t[1..]);
      ([t[0]] + c, rest)
  }

  function ParseField(t: string): (r: (string, string))
    ensures |r.1| <= |t|
  {
    if |t| > 0 && t[0] == '"' then ParseQuoted(t[1..]) else ParseBare(t)
  }

  /** The fields of one record, up to a newline outside quotes. */
  function ParseRecord(t: string): (r: (seq<string>, string))
    ensures |r.1| <= |t|
    decreases |t|
  {
    var (f, rest) := ParseField(t);
    if |rest| > 0 && rest[0] == ',' then
      var (fs, rest') := ParseRecord(rest[1..]);
      ([f] + fs, rest')
    else ([f], rest)
  }

  /** All records of a text. */
  function ParseRecords(t: string): seq<seq<string>>
    decreases |t|
  {
    var (fs, rest) := ParseRecord(t);
    if |rest| > 0 && rest[0] == '\n' then [fs] + ParseRecords(rest[1..]) else [fs]
  }

  // ---------------------------------------------------------- round trips

  /** What may follow a field: nothing, or a separator. */
  predicate FieldEnd(rest: string) {
    rest == "" || rest[0] == ',' || rest[0] == '\n'
  }

  lemma {:induction false} QuotedRoundTrip(s: string, rest: string)
    requires rest == "" || rest[0] != '"'
    ensures ParseQuoted(DoubleQuotes(s) + "\"" + rest) == (s, rest)
    decreases |s|
  {
    var t := DoubleQuotes(s) + "\"" + rest;
    if |s| == 0 {
      assert t == "\"" + rest;
      assert t[1..] == rest;
    } else {
      var t' := DoubleQuotes(s[1..]) + "\"" + rest;
      QuotedRoundTrip(s[1..], rest);
      if s[0] == '"' {
        assert t == "\"\"" + t';
        QuotedStep(t', "\"\"", s[1..], rest);
        assert "\"" + s[1..] == s;
      } else {
        assert t == [s[0]] + t';
        QuotedStep(t', [s[0]], s[1..], rest);
        assert [s[0]] + s[1..] == s;
      }
    }
  }

  /** One step of the quoted reader over a doubled quote or a plain character. */
  lemma QuotedStep(t': string, head: string, body: string, rest: string)
    requires head == "\"\"" || (|head| == 1 && head[0] != '"')
    requires ParseQuoted(t') == (body, rest)
    ensures ParseQuoted(head + t') == ((if |head| == 2 then "\"" else head) + body, rest)
  {
    var t := head + t';
    if |head| == 2 {
      assert t[2..] == t';
    } else {
      assert t[0] == head[0] && head == [head[0]];
      assert t[1..] == t';
    }
  }

  lemma {:induction false} BareRoundTrip(s: string, rest: string)
    requires !NeedsQuotes(s) && FieldEnd(rest)
    ensures ParseBare(s + rest) == (s, rest)
    decreases |s|
  {
    if |s| == 0 {
      assert s + rest == rest;
    } else {
      assert !Special(s[0]);
      assert !NeedsQuotes(s[1..]);
      BareRoundTrip(s[1..], rest);
      assert (s + rest)[1..] == s[1..] + rest;
      assert s == [s[0]] + s[1..];
    }
  }

  /** An escaped field, followed by a separator or the end, reads back as
      its value. */
  lemma FieldRoundTrip(val: Option<string>, rest: string)
    requires FieldEnd(rest)
    ensures ParseField(Esc(val) + rest) == (val.GetOr(""), rest)
  {
    match val
    case None =>
      assert Esc(val) + rest == rest;
    case Some(s) =>
      if NeedsQuotes(s) {
        var t := Esc(val) + rest;
        assert t[1..] == DoubleQuotes(s) + "\"" + rest;
        QuotedRoundTrip(s, rest);
      } else {
        if |s| > 0 {
          assert !Special(s[0]);
        }
        BareRoundTrip(s, rest);
      }
  }

  lemma JoinCons(parts: seq<string>, sep: char)
    requires |parts| >= 2
    ensures Join(parts, sep) == parts[0] + [sep] + Join(parts[1..], sep)
  {
  }

  /** A line of at least one field, followed by a newline or the end,
      reads back as its fields. */
  lemma {:induction false} LineRoundTrip(fields: seq<Option<string>>, rest: string)
    requires |fields| >= 1
    requires rest == "" || rest[0] == '\n'
    ensures ParseRecord(Line(fields) + rest) == (Texts(fields), rest)
    decreases |fields|
  {
    var escaped := EscapeAll(fields);
    if |fields| == 1 {
      assert Line(fields) == Esc(fields[0]);
      FieldRoundTrip(fields[0], rest);
      assert Texts(fields) == [fields[0].GetOr("")];
    } else {
      var tail := fields[1..];
      var tailRest := Line(tail) + rest;
      assert escaped[1..] == EscapeAll(tail);
      JoinCons(escaped, ',');
      assert Line(fields) + rest == Esc(fields[0]) + ("," + tailRest);
      FieldRoundTrip(fields[0], "," + tailRest);
      assert ("," + tailRest)[1..] == tailRest;
      LineRoundTrip(tail, rest);
      assert Texts(fields) == [fields[0].GetOr("")] + Texts(tail);
    }
  }

  /** Newline-joined lines, each of at least one field, read back as their
      records. */
  lemma {:induction false} LinesRoundTrip(records: seq<seq<Option<string>>>)
    requires |records| >= 1
    requires forall k :: 0 <= k < |records| ==> |records[k]| >= 1
    ensures ParseRecords(Join(LinesOf(records), '\n')) == TextsOf(records)
    decreases |records|
  {
    var lines := LinesOf(records);
    if |records| == 1 {
      assert Join(lines, '\n') == Line(records[0]) + "";
      LineRoundTrip(records[0], "");
      assert TextsOf(records) == [Texts(records[0])];
    } else {
      var tail := records[1..];
      assert lines[1..] == LinesOf(tail);
      JoinCons(lines, '\n');
      var after := "\n" + Join(LinesOf(tail), '\n');
      assert Join(lines, '\n') == Line(records[0]) + after;
      LineRoundTrip(records[0], after);
      assert after[1..] == Join(LinesOf(tail), '\n');
      LinesRoundTrip(tail);
      assert TextsOf(records) == [Texts(records[0])] + TextsOf(tail);
    }
  }

  /** The exported text reads back as the header names followed by the rows,
      null fields as empty strings. */
  lemma DocumentRoundTrip(headers: seq<string>, rows: seq<seq<Option<string>>>)
    requires |headers| >= 1
    requires forall k :: 0 <= k < |rows| ==> |rows[k]| >= 1
    ensures ParseRecords(Document(headers, rows)) == [headers] + TextsOf(rows)
  {
    var records := [Present(headers)] + rows;
    assert forall k :: 0 <= k < |records| ==> |records[k]| >= 1;
    LinesRoundTrip(records);
    assert Texts(Present(headers)) == headers;
    assert TextsOf(records) == [headers] + TextsOf(rows);
  }
}
