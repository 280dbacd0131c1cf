/** Decimal numbers as std::to_string writes them, and a growing std::string. */
module Strings {
  import opened Types
  import opened Text

  class StringBuffer {
    var text: string

    constructor ()
      ensures text == ""
    {
      text := "";
    }

    /** operator+= */
    method Add(s: string)
      modifies this
      ensures text == old(text) + s
    {
      text := text + s;
    }
  }

  function NatText(n: nat): (s: string)
    ensures s != "" && AllDigits(s)
  {
    if n < 10 then [DigitChar(n)] else NatText(n / 10) + [DigitChar(n % 10)]
  }

  /** std::to_string */
  function IntText(n: int): (s: string)
    ensures s != "" && (IsDigit(s[0]) || s[0] == '-')
    ensures forall i :: 0 <= i < |s| ==> IsDigit(s[i]) || s[i] == '-'
  {
    if n < 0 then "-" + NatText(-n) else NatText(n)
  }

  function ReadInt(s: string): Option<int> {
    if s != "" && AllDigits(s) then Some(ReadNat(s))
    else if |s| > 1 && s[0] == '-' && AllDigits(s[1..]) then
      var n: int := ReadNat(s[1..]);
      Some(-n)
    else None
  }

  /** A zero in front of other digits. */
  predicate LeadingZero(s: string) {
    if s != "" && s[0] == '-' then |s| > 2 && s[1] == '0' else |s| > 1 && s[0] == '0'
  }

  lemma {:induction false} NatTextStart(n: nat)
    ensures NatText(n)[0] == '0' <==> n == 0
  {
    if n >= 10 { NatTextStart(n / 10); }
  }

  lemma NoLeadingZero(n: int)
    ensures !LeadingZero(IntText(n))
  {
    if n < 0 { NatTextStart(-n); } else { NatTextStart(n); }
  }

  lemma {:induction false} ReadNatText(n: nat)
    ensures ReadNat(NatText(n)) == n
  {
    var s := NatText(n);
    if n >= 10 {
      ReadNatText(n / 10);
      assert s[..|s| - 1] == NatText(n / 10);
    } else {
      assert s[..|s| - 1] == "";
    }
  }

  lemma ReadIntText(n: int)
    ensures ReadInt(IntText(n)) == Some(n)
  {
    if n < 0 {
      ReadNatText(-n);
      assert IntText(n)[1..] == NatText(-n);
      assert !IsDigit(IntText(n)[0]);
    } else {
      ReadNatText(n);
    }
  }
}

/** CSV records as csv_escape writes fields, and a reader after section 2 of RFC 4180 with LF line ends. */
module Csv {
  import opened Types
  import opened Strings

  type Fields = seq<string>

  predicate Special(ch: char) { ch == ',' || ch == '"' || ch == '\n' || ch == '\r' }

  predicate NeedsQuotes(s: string) { s == "" || exists i :: 0 <= i < |s| && Special(s[i]) }

  /** The field with every double quote doubled. */
  function Doubled(s: string): string {
    if s == "" then "" else Doubled(s[..|s| - 1]) + (if s[|s| - 1] == '"' then "\"\"" else [s[|s| - 1]])
  }

  function Escape(s: string): string {
    if NeedsQuotes(s) then "\"" + Doubled(s) + "\"" else s
  }

  /** A field is quoted exactly if it is empty or holds a comma, a quote or a line break; otherwise it is bare. */
  lemma QuotedExactly(s: string)
    ensures var quoted := s == "" || ',' in s || '"' in s || '\n' in s || '\r' in s;
      && (Escape(s) != "" && Escape(s)[0] == '"' <==> quoted)
      && (!quoted ==> Escape(s) == s)
  {
    var quoted := s == "" || ',' in s || '"' in s || '\n' in s || '\r' in s;
    if i :| 0 <= i < |s| && Special(s[i]) {
      assert s[i] in s;
    }
    assert quoted ==> NeedsQuotes(s);
  }

  lemma NextDoubled(s: string, i: nat, start: string)
    requires i < |s|
    ensures start + Doubled(s[..i]) + (if s[i] == '"' then "\"\"" else [s[i]]) == start + Doubled(s[..i + 1])
  {
    assert s[..i + 1][..i] == s[..i];
  }

  method CsvEscape(buf: StringBuffer, s: string)
    modifies buf
    ensures buf.text == old(buf.text) + Escape(s)
  {
    if s != "" && !(exists i :: 0 <= i < |s| && Special(s[i])) {
      buf.Add(s);
      return;
    }
    buf.Add("\"");
    ghost var start := buf.text;
    DoubleQuotes(buf, s);
    buf.Add("\"");
    assert start + Doubled(s) + "\"" == old(buf.text) + ("\"" + Doubled(s) + "\"");
  }

  /** The loop over the characters. */
  method DoubleQuotes(buf: StringBuffer, s: string)
    modifies buf
    ensures buf.text == old(buf.text) + Doubled(s)
  {
    ghost var start := buf.text;
    assert start + Doubled(s[..0]) == start;
    for i := 0 to |s|
      invariant buf.text == start + Doubled(s[..i])
    {
      NextDoubled(s, i, start);
      if s[i] == '"' {
        buf.Add("\"\"");
      } else {
        buf.Add([s[i]]);
      }
    }
    assert s[..|s|] == s;
  }

  // ---- printing ----

  function PrintFields(r: Fields): string
    requires r != []
  {
    if |r| == 1 then Escape(r[0]) else Escape(r[0]) + ("," + PrintFields(r[1..]))
  }

  function PrintRecord(r: Fields): string
    requires r != []
  {
    PrintFields(r) + "\n"
  }

  predicate Records(rs: seq<Fields>) { forall i :: 0 <= i < |rs| ==> rs[i] != [] }

  function Print(rs: seq<Fields>): string
    requires Records(rs)
  {
    if rs == [] then "" else Print(rs[..|rs| - 1]) + PrintRecord(rs[|rs| - 1])
  }

  lemma PrintSnoc(rs: seq<Fields>, r: Fields)
    requires Records(rs) && r != []
    ensures Records(rs + [r]) && Print(rs + [r]) == Print(rs) + PrintRecord(r)
  {
  }

  lemma {:induction false} PrintConcat(a: seq<Fields>, b: seq<Fields>)
    requires Records(a) && Records(b)
    ensures Print(a + b) == Print(a) + Print(b)
  {
    hide PrintRecord;
    if b == [] {
      assert a + b == a;
    } else {
      PrintConcat(a, b[..|b| - 1]);
      assert (a + b)[..|a + b| - 1] == a + b[..|b| - 1];
    }
  }

  // ---- reading ----

  /** Inside quotes: up to the quote that is not doubled. */
  function ReadQuoted(s: string): Option<(string, string)> {
    if s == "" then None
    else if s[0] != '"' then
      match ReadQuoted(s[1..])
      case None => None
      case Some((field, rest)) => Some(([s[0]] + field, rest))
    else if |s| > 1 && s[1] == '"' then
      match ReadQuoted(s[2..])
      case None => None
      case Some((field, rest)) => Some((['"'] + field, rest))
    else Some(("", s[1..]))
  }

  function ReadBare(s: string): (string, string) {
    if s == "" || Special(s[0]) then ("", s)
    else var (field, rest) := ReadBare(s[1..]); ([s[0]] + field, rest)
  }

  function ReadField(s: string): Option<(string, string)> {
    if s != "" && s[0] == '"' then ReadQuoted(s[1..]) else Some(ReadBare(s))
  }

  lemma {:induction false} QuotedShorter(s: string)
    ensures ReadQuoted(s).Some? ==> |ReadQuoted(s).value.1| < |s|
  {
    if s == "" {
    } else {
      if s[0] != '"' { QuotedShorter(s[1..]); } else if |s| > 1 && s[1] == '"' { QuotedShorter(s[2..]); }
    }
  }

  lemma {:induction false} BareNoLonger(s: string)
    ensures |ReadBare(s).1| <= |s|
  {
    if s != "" && !Special(s[0]) { BareNoLonger(s[1..]); }
  }

  lemma FieldNoLonger(s: string)
    ensures ReadField(s).Some? ==> |ReadField(s).value.1| <= |s|
  {
    if s != "" { QuotedShorter(s[1..]); }
    BareNoLonger(s);
  }

  /** One line: fields separated by commas, ended by a line feed. */
  function ReadRecord(s: string): (result: Option<(Fields, string)>)
    ensures result.Some? ==> |result.value.1| < |s| && result.value.0 != []
    decreases |s|
  {
    FieldNoLonger(s);
    ReadRecordFrom(s, ReadField(s))
  }

  function ReadRecordFrom(s: string, field: Option<(string, string)>): (result: Option<(Fields, string)>)
    requires field.Some? ==> |field.value.1| <= |s|
    ensures result.Some? ==> |result.value.1| < |s| && result.value.0 != []
    decreases |s|, 0
  {
    match field
    case None => None
    case Some((f, rest)) =>
      if rest == "" then None
      else if rest[0] == '\n' then Some(([f], rest[1..]))
      else if rest[0] == ',' then
        match ReadRecord(rest[1..])
        case None => None
        case Some((fs, rest')) => Some(([f] + fs, rest'))
      else None
  }

  function Read(s: string): Option<seq<Fields>>
    decreases |s|
  {
    if s == "" then Some([])
    else match ReadRecord(s)
      case None => None
      case Some((r, rest)) =>
        match Read(rest)
        case None => None
        case Some(rs) => Some([r] + rs)
  }

  // ---- reading inverts printing ----

  lemma {:induction false} DoubledCons(s: string)
    requires s != ""
    ensures Doubled(s) == (if s[0] == '"' then "\"\"" else [s[0]]) + Doubled(s[1..])
  {
    if |s| > 1 {
      DoubledCons(s[..|s| - 1]);
      assert s[..|s| - 1][1..] == s[1..][..|s| - 2];
    } else {
      assert s[..0] == "" && s[1..] == "";
    }
  }

  lemma ReadQuotedStep(ch: char, tail: string)
    requires ReadQuoted(tail).Some?
    ensures var (field, rest) := ReadQuoted(tail).value;
      ReadQuoted((if ch == '"' then "\"\"" else [ch]) + tail) == Some(([ch] + field, rest))
  {
  }

  lemma Associative(a: string, b: string, c: string)
    ensures a + b + c == a + (b + c)
  {
  }

  lemma {:induction false} ReadDoubled(s: string, rest: string)
    requires rest == "" || rest[0] != '"'
    ensures ReadQuoted(Doubled(s) + ("\"" + rest)) == Some((s, rest))
  {
    if s == "" {
      assert Doubled(s) + ("\"" + rest) == "\"" + rest;
      assert ("\"" + rest)[1..] == rest;
    } else {
      DoubledCons(s);
      ReadDoubled(s[1..], rest);
      hide ReadQuoted;
      hide Doubled;
      var tail := Doubled(s[1..]) + ("\"" + rest);
      ReadQuotedStep(s[0], tail);
      var first := if s[0] == '"' then "\"\"" else [s[0]];
      Associative(first, Doubled(s[1..]), "\"" + rest);
      assert s == [s[0]] + s[1..];
    }
  }

  lemma {:induction false} ReadUnquoted(s: string, rest: string)
    requires forall i :: 0 <= i < |s| ==> !Special(s[i])
    requires rest != "" && Special(rest[0])
    ensures ReadBare(s + rest) == (s, rest)
  {
    if s == "" {
      assert s + rest == rest;
    } else {
      ReadUnquoted(s[1..], rest);
      assert s == [s[0]] + s[1..];
      assert (s + rest)[1..] == s[1..] + rest;
    }
  }

  /** A field that is written before a comma or line end is read back, whatever characters it holds. */
  lemma ReadEscaped(s: string, rest: string)
    requires rest != "" && (rest[0] == ',' || rest[0] == '\n')
    ensures ReadField(Escape(s) + rest) == Some((s, rest))
  {
    if NeedsQuotes(s) {
      ReadDoubled(s, rest);
      assert Escape(s) + rest == "\"" + (Doubled(s) + ("\"" + rest));
      assert ("\"" + (Doubled(s) + ("\"" + rest)))[1..] == Doubled(s) + ("\"" + rest);
    } else {
      assert forall i :: 0 <= i < |s| ==> !Special(s[i]);
      ReadUnquoted(s, rest);
      assert (s + rest)[0] == s[0];
    }
  }

  lemma {:induction false} ReadPrintedRecord(r: Fields, rest: string)
    requires r != []
    ensures ReadRecord(PrintRecord(r) + rest) == Some((r, rest))
    decreases |r|
  {
    hide ReadField;
    hide Escape;
    var s := PrintRecord(r) + rest;
    if |r| == 1 {
      ReadEscaped(r[0], "\n" + rest);
      assert s == Escape(r[0]) + ("\n" + rest);
      assert ("\n" + rest)[1..] == rest;
      assert r == [r[0]];
    } else {
      var tail := PrintRecord(r[1..]) + rest;
      ReadEscaped(r[0], "," + tail);
      assert s == Escape(r[0]) + ("," + tail);
      assert ("," + tail)[1..] == tail;
      ReadPrintedRecord(r[1..], rest);
      hide PrintRecord;
      assert r == [r[0]] + r[1..];
    }
  }

  lemma {:induction false} PrintCons(rs: seq<Fields>)
    requires rs != [] && Records(rs)
    ensures Print(rs) == PrintRecord(rs[0]) + Print(rs[1..])
  {
    assert rs == [rs[0]] + rs[1..];
    PrintConcat([rs[0]], rs[1..]);
    PrintSnoc([], rs[0]);
    assert [] + [rs[0]] == [rs[0]];
    assert Print([]) + PrintRecord(rs[0]) == PrintRecord(rs[0]);
  }

  /** Every table of records with any field contents is read back exactly. */
  lemma {:induction false} ReadInvertsPrint(rs: seq<Fields>)
    requires Records(rs)
    ensures Read(Print(rs)) == Some(rs)
  {
    if rs == [] {
    } else {
      PrintCons(rs);
      ReadPrintedRecord(rs[0], Print(rs[1..]));
      ReadInvertsPrint(rs[1..]);
      assert rs == [rs[0]] + rs[1..];
    }
  }

  /** Text without special characters is its own CSV form. */
  lemma EscapePlain(s: string)
    requires s != "" && forall i :: 0 <= i < |s| ==> !Special(s[i])
    ensures Escape(s) == s
  {
  }

  lemma {:induction false} PrintFieldsSnoc(r: Fields, f: string)
    requires r != []
    ensures PrintFields(r + [f]) == PrintFields(r) + ("," + Escape(f))
  {
    hide Escape;
    if |r| == 1 {
      assert (r + [f])[1..] == [f];
    } else {
      PrintFieldsSnoc(r[1..], f);
      assert (r + [f])[1..] == r[1..] + [f];
    }
  }
}
