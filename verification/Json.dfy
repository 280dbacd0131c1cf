/**
 JSON text as the exporter writes it, and a reader for RFC 8259: objects, arrays, integers, literals,
 and the strings of its section 7. A strict reader refuses raw control characters inside strings, as that
 section demands; a lenient one accepts them.
 */
module Json {
  import opened Types
  import opened Text
  import opened Strings
  import Hex

  datatype Value =
    | Str(s: string)
    | Num(n: int)
    | Bool(b: bool)
    | Null
    | Arr(items: seq<Value>)
    | Obj(members: seq<Member>)

  datatype Member = Member(key: string, value: Value)

  // ---- printing ----

  function EscapeChar(ch: char): (e: string)
    ensures e != ""
  {
    match ch
    case '"' => "\\\""
    case '\\' => "\\\\"
    case '\n' => "\\n"
    case '\r' => "\\r"
    case '\t' => "\\t"
    case _ => [ch]
  }

  /** json_escape */
  function Escape(s: string): string {
    if s == "" then "" else Escape(s[..|s| - 1]) + EscapeChar(s[|s| - 1])
  }

  method JsonEscape(buf: StringBuffer, s: string)
    modifies buf
    ensures buf.text == old(buf.text) + Escape(s)
  {
    for i := 0 to |s|
      invariant buf.text == old(buf.text) + Escape(s[..i])
    {
      assert s[..i + 1][..i] == s[..i];
      match s[i]
      case '"' => buf.Add("\\\"");
      case '\\' => buf.Add("\\\\");
      case '\n' => buf.Add("\\n");
      case '\r' => buf.Add("\\r");
      case '\t' => buf.Add("\\t");
      case _ => buf.Add([s[i]]);
    }
    assert s[..|s|] == s;
  }

  function Quoted(s: string): string { "\"" + (Escape(s) + "\"") }

  /** The parts with a comma between any two. */
  function Join(parts: seq<string>): string {
    if parts == [] then ""
    else if |parts| == 1 then parts[0]
    else parts[0] + ("," + Join(parts[1..]))
  }

  function Show(v: Value): string {
    match v
    case Str(s) => Quoted(s)
    case Num(n) => IntText(n)
    case Bool(b) => if b then "true" else "false"
    case Null => "null"
    case Arr(items) => "[" + (Join(ShowAll(items)) + "]")
    case Obj(members) => "{" + (Join(ShowMembers(members)) + "}")
  }

  function ShowAll(items: seq<Value>): (parts: seq<string>)
    ensures |parts| == |items|
  {
    if items == [] then [] else [Show(items[0])] + ShowAll(items[1..])
  }

  function ShowMembers(members: seq<Member>): (parts: seq<string>)
    ensures |parts| == |members|
  {
    if members == [] then []
    else
      [Quoted(members[0].key) + (":" + Show(members[0].value))] + ShowMembers(members[1..])
  }

  // ---- reading ----

  predicate IsSpace(ch: char) { ch == ' ' || ch == '\t' || ch == '\n' || ch == '\r' }

  function Skip(s: string): (r: string)
    ensures |r| <= |s|
  {
    if s != "" && IsSpace(s[0]) then Skip(s[1..]) else s
  }

  /** The four digits of a \u escape; a surrogate stands for no character by itself. */
  function ReadHex(s: string): Option<char>
    requires |s| == 4
  {
    match (Hex.HexVal(s[0]), Hex.HexVal(s[1]), Hex.HexVal(s[2]), Hex.HexVal(s[3]))
    case (Some(a), Some(b), Some(c), Some(d)) =>
      var n := ((a * 16 + b) * 16 + c) * 16 + d;
      if n < 0xD800 || 0xE000 <= n < 0x10000 then Some(n as char) else None
    case _ => None
  }

  /** The character after a backslash, and how many characters the escape takes. */
  function ReadEscape(s: string): (r: Option<(char, nat)>)
    ensures r.Some? ==> 2 <= r.value.1 <= |s|
  {
    if |s| < 2 || s[0] != '\\' then None
    else match s[1]
      case '"' => Some(('"', 2))
      case '\\' => Some(('\\', 2))
      case '/' => Some(('/', 2))
      case 'b' => Some((8 as char, 2))
      case 'f' => Some((12 as char, 2))
      case 'n' => Some(('\n', 2))
      case 'r' => Some(('\r', 2))
      case 't' => Some(('\t', 2))
      case 'u' =>
        (if |s| < 6 then None
         else match ReadHex(s[2..6])
           case None => None
           case Some(ch) => Some((ch, 6)))
      case _ => None
  }

  /** The characters of a string up to its closing quote. */
  function ReadString(s: string, strict: bool): (r: Option<(string, string)>)
    ensures r.Some? ==> |r.value.1| < |s|
  {
    if s == "" then None
    else if s[0] == '"' then Some(("", s[1..]))
    else if s[0] == '\\' then
      match ReadEscape(s)
      case None => None
      case Some((ch, n)) =>
        match ReadString(s[n..], strict)
        case None => None
        case Some((t, rest)) => Some(([ch] + t, rest))
    else if strict && s[0] < ' ' then None
    else
      match ReadString(s[1..], strict)
      case None => None
      case Some((t, rest)) => Some(([s[0]] + t, rest))
  }

  predicate IsNumberChar(ch: char) { IsDigit(ch) || ch == '-' }

  function NumberPrefix(s: string): (n: nat)
    ensures n <= |s|
  {
    if s == "" || !IsNumberChar(s[0]) then 0 else 1 + NumberPrefix(s[1..])
  }

  function ReadNumber(s: string): (r: Option<(Value, string)>)
    ensures r.Some? ==> |r.value.1| < |s|
  {
    var n := NumberPrefix(s);
    if n == 0 || LeadingZero(s[..n]) then None
    else match ReadInt(s[..n])
      case None => None
      case Some(k) => Some((Num(k), s[n..]))
  }

  function ReadWord(s: string, word: string, v: Value): (r: Option<(Value, string)>)
    requires word != ""
    ensures r.Some? ==> |r.value.1| < |s|
  {
    if word <= s then Some((v, s[|word|..])) else None
  }

  function ReadValue(input: string, strict: bool): (r: Option<(Value, string)>)
    ensures r.Some? ==> |r.value.1| < |input|
    decreases |input|, 0
  {
    var s := Skip(input);
    if s == "" then None
    else match s[0]
      case '"' =>
        (match ReadString(s[1..], strict)
         case None => None
         case Some((t, rest)) => Some((Str(t), rest)))
      case '[' =>
        if Skip(s[1..]) != "" && Skip(s[1..])[0] == ']' then Some((Arr([]), Skip(s[1..])[1..]))
        else
          (match ReadItems(s[1..], strict)
           case None => None
           case Some((items, rest)) => Some((Arr(items), rest)))
      case '{' =>
        if Skip(s[1..]) != "" && Skip(s[1..])[0] == '}' then Some((Obj([]), Skip(s[1..])[1..]))
        else
          (match ReadMembers(s[1..], strict)
           case None => None
           case Some((members, rest)) => Some((Obj(members), rest)))
      case 't' => ReadWord(s, "true", Bool(true))
      case 'f' => ReadWord(s, "false", Bool(false))
      case 'n' => ReadWord(s, "null", Null)
      case _ => ReadNumber(s)
  }

  function ReadItems(s: string, strict: bool): (r: Option<(seq<Value>, string)>)
    ensures r.Some? ==> |r.value.1| < |s|
    decreases |s|, 1
  {
    match ReadValue(s, strict)
    case None => None
    case Some((v, after)) =>
      var rest := Skip(after);
      if rest == "" then None
      else if rest[0] == ']' then Some(([v], rest[1..]))
      else if rest[0] == ',' then
        match ReadItems(rest[1..], strict)
        case None => None
        case Some((vs, rest')) => Some(([v] + vs, rest'))
      else None
  }

  function ReadMembers(input: string, strict: bool): (r: Option<(seq<Member>, string)>)
    ensures r.Some? ==> |r.value.1| < |input|
    decreases |input|, 1
  {
    var s := Skip(input);
    if s == "" || s[0] != '"' then None
    else match ReadString(s[1..], strict)
      case None => None
      case Some((key, after)) =>
        var colon := Skip(after);
        if colon == "" || colon[0] != ':' then None
        else match ReadValue(colon[1..], strict)
          case None => None
          case Some((v, after')) =>
            var rest := Skip(after');
            if rest == "" then None
            else if rest[0] == '}' then Some(([Member(key, v)], rest[1..]))
            else if rest[0] == ',' then
              match ReadMembers(rest[1..], strict)
              case None => None
              case Some((ms, rest')) => Some(([Member(key, v)] + ms, rest'))
            else None
  }

  /** A whole document. */
  function Read(s: string, strict: bool): Option<Value> {
    match ReadValue(s, strict)
    case None => None
    case Some((v, rest)) => if Skip(rest) == "" then Some(v) else None
  }

  // ---- reading inverts printing ----

  /** Without control characters other than those that the printer escapes. */
  predicate Clean(s: string) { forall i :: 0 <= i < |s| ==> s[i] >= ' ' || s[i] in {'\n', '\r', '\t'} }

  /** Every key and every string of the value is clean. */
  predicate CleanValue(v: Value) {
    match v
    case Str(s) => Clean(s)
    case Arr(items) => CleanItems(items)
    case Obj(members) => CleanMembers(members)
    case _ => true
  }

  predicate CleanItems(items: seq<Value>) { forall i :: 0 <= i < |items| ==> CleanValue(items[i]) }

  predicate CleanMembers(members: seq<Member>) {
    forall i :: 0 <= i < |members| ==> Clean(members[i].key) && CleanValue(members[i].value)
  }

  /** What reading gives: the thing and what is left, unless the reader refuses it. */
  function Given<T>(accepted: bool, x: T, rest: string): Option<(T, string)> {
    if accepted then Some((x, rest)) else None
  }

  lemma {:induction false} EscapeCons(s: string)
    requires s != ""
    ensures Escape(s) == EscapeChar(s[0]) + Escape(s[1..])
  {
    if |s| > 1 {
      EscapeCons(s[..|s| - 1]);
      assert s[..|s| - 1][1..] == s[1..][..|s| - 2];
    } else {
      assert s[..0] == "" && s[1..] == "";
    }
  }

  lemma ReadEscapedChar(ch: char, tail: string)
    ensures var s := EscapeChar(ch) + tail;
      && s != "" && s[0] != '"'
      && (s[0] == '\\' ==> ReadEscape(s) == Some((ch, 2)) && s[2..] == tail && Clean([ch]))
      && (s[0] != '\\' ==> s[0] == ch && s[1..] == tail && (Clean([ch]) <==> ch >= ' '))
  {
  }

  lemma ReadStringStep(ch: char, tail: string, t: string, rest: string, strict: bool, accepted: bool)
    requires ReadString(tail, strict) == Given(accepted, t, rest)
    ensures ReadString(EscapeChar(ch) + tail, strict) == Given(accepted && (strict ==> Clean([ch])), [ch] + t, rest)
  {
    hide EscapeChar;
    hide ReadEscape;
    hide Clean;
    ReadEscapedChar(ch, tail);
  }

  /**
   Escaped text holds no bare closing quote, and reads back as the original; a strict reader refuses it
   exactly when the original has a control character that is not escaped.
   */
  lemma {:induction false} ReadEscaped(s: string, rest: string, strict: bool)
    ensures ReadString(Escape(s) + ("\"" + rest), strict) == Given(strict ==> Clean(s), s, rest)
  {
    hide EscapeChar;
    hide ReadEscape;
    var text := Escape(s) + ("\"" + rest);
    if s == "" {
      assert text == "\"" + rest;
    } else {
      EscapeCons(s);
      ReadEscaped(s[1..], rest, strict);
      hide ReadString;
      var tail := Escape(s[1..]) + ("\"" + rest);
      assert text == EscapeChar(s[0]) + tail;
      ReadStringStep(s[0], tail, s[1..], rest, strict, strict ==> Clean(s[1..]));
      assert s == [s[0]] + s[1..];
      assert Clean(s) <==> Clean([s[0]]) && Clean(s[1..]);
    }
  }

  lemma {:induction false} NumberPrefixIs(s: string, rest: string)
    requires forall i :: 0 <= i < |s| ==> IsNumberChar(s[i])
    requires rest == "" || !IsNumberChar(rest[0])
    ensures NumberPrefix(s + rest) == |s|
  {
    if s == "" {
      assert s + rest == rest;
    } else {
      assert (s + rest)[1..] == s[1..] + rest;
      NumberPrefixIs(s[1..], rest);
    }
  }

  /** What may follow a value inside a document. */
  predicate Follows(rest: string) { rest == "" || rest[0] in {',', ']', '}'} }

  lemma ReadPrintedNumber(n: int, rest: string, strict: bool)
    requires Follows(rest)
    ensures ReadValue(IntText(n) + rest, strict) == Some((Num(n), rest))
  {
    var s := IntText(n) + rest;
    NumberPrefixIs(IntText(n), rest);
    ReadIntText(n);
    NoLeadingZero(n);
    assert s[..|IntText(n)|] == IntText(n) && s[|IntText(n)|..] == rest;
    assert s[0] == IntText(n)[0];
    assert Skip(s) == s;
  }

  lemma ReadPrintedWord(word: string, v: Value, rest: string, strict: bool)
    requires || (word == "true" && v == Bool(true))
             || (word == "false" && v == Bool(false))
             || (word == "null" && v == Null)
    ensures ReadValue(word + rest, strict) == Some((v, rest))
  {
  }

  /** A value that begins with a quote is a string. */
  lemma ReadStringValue(text: string, s: string, rest: string, strict: bool, accepted: bool)
    requires text != "" && text[0] == '"' && ReadString(text[1..], strict) == Given(accepted, s, rest)
    ensures ReadValue(text, strict) == Given(accepted, Str(s), rest)
  {
    hide ReadString;
    hide ReadWord;
    hide ReadItems;
    hide ReadMembers;
    hide ReadNumber;
    assert Skip(text) == text;
  }

  lemma ReadPrintedString(s: string, rest: string, strict: bool)
    ensures ReadValue(Quoted(s) + rest, strict) == Given(strict ==> Clean(s), Str(s), rest)
  {
    hide ReadValue;
    hide Escape;
    hide Clean;
    ReadEscaped(s, rest, strict);
    hide ReadString;
    var text := Quoted(s) + rest;
    assert text[1..] == Escape(s) + ("\"" + rest);
    ReadStringValue(text, s, rest, strict, strict ==> Clean(s));
  }

  lemma JoinStart(v: Value, items: seq<Value>)
    requires items != []
    ensures var s := Join(ShowAll(items));
      s != "" && !IsSpace(s[0]) && s[0] != ']' && s[0] != '}'
  {
  }

  /** Every value is read back from its text, in front of anything that may follow a value, if it is not refused. */
  lemma {:induction false} ReadShown(v: Value, rest: string, strict: bool)
    requires Follows(rest)
    ensures ReadValue(Show(v) + rest, strict) == Given(strict ==> CleanValue(v), v, rest)
    decreases v
  {
    hide ReadValue;
    hide ReadItems;
    hide ReadMembers;
    hide Quoted;
    hide Join;
    hide ShowAll;
    hide ShowMembers;
    hide Clean;
    hide CleanItems;
    hide CleanMembers;
    match v
    case Str(s) => ReadPrintedString(s, rest, strict);
    case Num(n) => ReadPrintedNumber(n, rest, strict);
    case Bool(b) => ReadPrintedWord(if b then "true" else "false", v, rest, strict);
    case Null => ReadPrintedWord("null", v, rest, strict);
    case Arr(items) =>
      if items == [] {
        ReadBrackets("[", "]", v, rest, strict);
      } else {
        ReadShownItems(items, rest, strict);
        JoinStart(v, items);
        ReadOpenBracket(Join(ShowAll(items)) + ("]" + rest), items, rest, strict, strict ==> CleanItems(items));
        assert Show(v) + rest == "[" + (Join(ShowAll(items)) + ("]" + rest));
      }
    case Obj(members) =>
      if members == [] {
        ReadBrackets("{", "}", v, rest, strict);
      } else {
        ReadShownMembers(members, rest, strict);
        ReadOpenBrace(Join(ShowMembers(members)) + ("}" + rest), members, rest, strict,
                      strict ==> CleanMembers(members));
        assert Show(v) + rest == "{" + (Join(ShowMembers(members)) + ("}" + rest));
      }
  }

  lemma ReadBrackets(open: string, close: string, v: Value, rest: string, strict: bool)
    requires (open == "[" && close == "]" && v == Arr([])) || (open == "{" && close == "}" && v == Obj([]))
    ensures Show(v) == open + close && CleanValue(v)
    ensures ReadValue(open + close + rest, strict) == Some((v, rest))
  {
  }

  lemma ReadOpenBracket(s: string, items: seq<Value>, rest: string, strict: bool, accepted: bool)
    requires s != "" && !IsSpace(s[0]) && s[0] != ']' && ReadItems(s, strict) == Given(accepted, items, rest)
    ensures ReadValue("[" + s, strict) == Given(accepted, Arr(items), rest)
  {
  }

  lemma ReadOpenBrace(s: string, members: seq<Member>, rest: string, strict: bool, accepted: bool)
    requires s != "" && s[0] == '"' && ReadMembers(s, strict) == Given(accepted, members, rest)
    ensures ReadValue("{" + s, strict) == Given(accepted, Obj(members), rest)
  {
  }

  lemma Regroup(first: string, others: string, close: string)
    ensures (first + ("," + others)) + close == first + ("," + (others + close))
  {
  }

  lemma JoinSplits(parts: seq<string>, close: string)
    requires parts != []
    ensures |parts| == 1 ==> Join(parts) + close == parts[0] + close
    ensures |parts| > 1 ==> Join(parts) + close == parts[0] + ("," + (Join(parts[1..]) + close))
  {
    if |parts| > 1 {
      var others := Join(parts[1..]);
      assert Join(parts) == parts[0] + ("," + others);
      Regroup(parts[0], others, close);
    }
  }

  lemma ReadLastItem(v: Value, s: string, rest: string, strict: bool, accepted: bool)
    requires ReadValue(s, strict) == Given(accepted, v, "]" + rest)
    ensures ReadItems(s, strict) == Given(accepted, [v], rest)
  {
  }

  lemma ReadNextItem(v: Value, s: string, tail: string, vs: seq<Value>, rest: string, strict: bool,
                     first: bool, others: bool)
    requires ReadValue(s, strict) == Given(first, v, "," + tail) && ReadItems(tail, strict) == Given(others, vs, rest)
    ensures ReadItems(s, strict) == Given(first && others, [v] + vs, rest)
  {
  }

  lemma {:induction false} ReadShownItems(items: seq<Value>, rest: string, strict: bool)
    requires items != []
    ensures ReadItems(Join(ShowAll(items)) + ("]" + rest), strict) == Given(strict ==> CleanItems(items), items, rest)
    decreases items
  {
    hide ReadValue;
    hide ReadItems;
    hide Show;
    hide Join;
    hide CleanValue;
    JoinSplits(ShowAll(items), "]" + rest);
    var s := Join(ShowAll(items)) + ("]" + rest);
    var v := items[0];
    if |items| == 1 {
      ReadShown(v, "]" + rest, strict);
      ReadLastItem(v, s, rest, strict, strict ==> CleanValue(v));
      assert items == [v];
    } else {
      var tail := Join(ShowAll(items[1..])) + ("]" + rest);
      ReadShown(v, "," + tail, strict);
      ReadShownItems(items[1..], rest, strict);
      ReadNextItem(v, s, tail, items[1..], rest, strict, strict ==> CleanValue(v), strict ==> CleanItems(items[1..]));
      assert items == [v] + items[1..];
    }
  }

  /** A member, its colon and its value, before what follows. */
  lemma ReadKeyValue(m: Member, after: string, strict: bool)
    ensures var s := Quoted(m.key) + (":" + (Show(m.value) + after));
      && s != "" && s[0] == '"' && Skip(s) == s
      && ReadString(s[1..], strict) == Given(strict ==> Clean(m.key), m.key, ":" + (Show(m.value) + after))
      && Skip(":" + (Show(m.value) + after)) == ":" + (Show(m.value) + after)
      && (":" + (Show(m.value) + after))[1..] == Show(m.value) + after
  {
    hide Show;
    hide Escape;
    hide Clean;
    var text := ":" + (Show(m.value) + after);
    ReadEscaped(m.key, text, strict);
    hide ReadString;
    var s := Quoted(m.key) + text;
    assert s[1..] == Escape(m.key) + ("\"" + text);
  }

  lemma MemberSplits(key: string, value: string, after: string)
    ensures (Quoted(key) + (":" + value)) + after == Quoted(key) + (":" + (value + after))
  {
  }

  predicate CleanMember(m: Member) { Clean(m.key) && CleanValue(m.value) }

  lemma ReadLastMember(m: Member, s: string, rest: string, strict: bool)
    requires ReadValue(Show(m.value) + ("}" + rest), strict) ==
             Given(strict ==> CleanValue(m.value), m.value, "}" + rest)
    requires s == Quoted(m.key) + (":" + (Show(m.value) + ("}" + rest)))
    ensures s != "" && s[0] == '"' && ReadMembers(s, strict) == Given(strict ==> CleanMember(m), [m], rest)
  {
    ReadKeyValue(m, "}" + rest, strict);
    hide ReadValue;
    hide ReadString;
    hide Show;
    hide Escape;
    hide Clean;
    hide CleanValue;
    assert ("}" + rest)[1..] == rest;
  }

  /** A key, a colon and a value before a comma: the members go on. */
  lemma ReadMembersStep(s: string, m: Member, after: string, tail: string, ms: seq<Member>, rest: string,
                        strict: bool, key: bool, value: bool, others: bool)
    requires s != "" && s[0] == '"' && ReadString(s[1..], strict) == Given(key, m.key, after)
    requires after != "" && after[0] == ':' && ReadValue(after[1..], strict) == Given(value, m.value, "," + tail)
    requires ReadMembers(tail, strict) == Given(others, ms, rest)
    ensures ReadMembers(s, strict) == Given(key && value && others, [m] + ms, rest)
  {
    hide ReadValue;
    hide ReadString;
    assert ("," + tail)[1..] == tail;
    assert Skip(s) == s && Skip(after) == after && Skip("," + tail) == "," + tail;
  }

  lemma ReadNextMember(m: Member, s: string, tail: string, ms: seq<Member>, rest: string, strict: bool, others: bool)
    requires ReadValue(Show(m.value) + ("," + tail), strict) ==
             Given(strict ==> CleanValue(m.value), m.value, "," + tail)
    requires s == Quoted(m.key) + (":" + (Show(m.value) + ("," + tail)))
    requires ReadMembers(tail, strict) == Given(others, ms, rest)
    ensures s != "" && s[0] == '"'
    ensures ReadMembers(s, strict) == Given((strict ==> CleanMember(m)) && others, [m] + ms, rest)
  {
    hide ReadValue;
    hide ReadString;
    hide ReadMembers;
    hide Show;
    hide Escape;
    hide Clean;
    hide CleanValue;
    ReadKeyValue(m, "," + tail, strict);
    ReadMembersStep(s, m, ":" + (Show(m.value) + ("," + tail)), tail, ms, rest,
                    strict, strict ==> Clean(m.key), strict ==> CleanValue(m.value), others);
  }

  lemma CleanCons(members: seq<Member>)
    requires members != []
    ensures CleanMembers(members) <==> CleanMember(members[0]) && CleanMembers(members[1..])
  {
    hide Clean;
    hide CleanValue;
    assert members == [members[0]] + members[1..];
  }

  lemma {:induction false} ReadShownMembers(members: seq<Member>, rest: string, strict: bool)
    requires members != []
    ensures var s := Join(ShowMembers(members)) + ("}" + rest);
      && s != "" && s[0] == '"'
      && ReadMembers(s, strict) == Given(strict ==> CleanMembers(members), members, rest)
    decreases members
  {
    hide ReadValue;
    hide ReadMembers;
    hide Show;
    hide Quoted;
    hide Join;
    JoinSplits(ShowMembers(members), "}" + rest);
    CleanCons(members);
    assert members[1..] == [] ==> CleanMembers(members[1..]);
    hide CleanMembers;
    var s := Join(ShowMembers(members)) + ("}" + rest);
    var m := members[0];
    if |members| == 1 {
      ReadShown(m.value, "}" + rest, strict);
      MemberSplits(m.key, Show(m.value), "}" + rest);
      ReadLastMember(m, s, rest, strict);
      assert members == [m];
    } else {
      var tail := Join(ShowMembers(members[1..])) + ("}" + rest);
      ReadShown(m.value, "," + tail, strict);
      MemberSplits(m.key, Show(m.value), "," + tail);
      ReadShownMembers(members[1..], rest, strict);
      ReadNextMember(m, s, tail, members[1..], rest, strict, strict ==> CleanMembers(members[1..]));
      assert members == [m] + members[1..];
    }
  }

  /**
   Reading a whole document inverts printing it: for every value with the lenient reader, and with the
   strict one exactly for those without other control characters than \n, \r and \t; others it refuses.
   */
  lemma ReadInvertsShow(v: Value)
    ensures Read(Show(v), false) == Some(v)
    ensures Read(Show(v), true) == if CleanValue(v) then Some(v) else None
  {
    hide ReadValue;
    hide CleanValue;
    ReadShown(v, "", false);
    ReadShown(v, "", true);
    assert Show(v) + "" == Show(v);
  }

  // ---- building the text left to right ----

  /** Text that needs no escape. */
  predicate PlainText(s: string) { forall i :: 0 <= i < |s| ==> EscapeChar(s[i]) == [s[i]] }

  lemma {:induction false} EscapePlain(s: string)
    requires PlainText(s)
    ensures Escape(s) == s
  {
    hide EscapeChar;
    if s == "" {
    } else {
      EscapePlain(s[..|s| - 1]);
      assert s == s[..|s| - 1] + [s[|s| - 1]];
    }
  }

  lemma {:induction false} JoinSnoc(parts: seq<string>, part: string)
    requires parts != []
    ensures Join(parts + [part]) == Join(parts) + ("," + part)
  {
    if |parts| == 1 {
      assert (parts + [part])[1..] == [part];
    } else {
      JoinSnoc(parts[1..], part);
      assert (parts + [part])[1..] == parts[1..] + [part];
    }
  }

  /** One more part, with a comma unless it is the first. */
  lemma NextPart(parts: seq<string>, n: nat, start: string)
    requires n < |parts|
    ensures start + Join(parts[..n]) + (if n > 0 then "," else "") + parts[n] == start + Join(parts[..n + 1])
  {
    assert parts[..n + 1] == parts[..n] + [parts[n]];
    if n > 0 {
      JoinSnoc(parts[..n], parts[n]);
    } else {
      assert Join(parts[..0]) == "" && parts[..1] == [parts[0]];
    }
  }

  lemma {:induction false} ShowAllAt(items: seq<Value>, i: nat)
    requires i < |items|
    ensures ShowAll(items)[i] == Show(items[i])
  {
    hide Show;
    if i == 0 {
    } else {
      ShowAllAt(items[1..], i - 1);
    }
  }

  /** "key":value */
  function MemberText(m: Member): string { Quoted(m.key) + (":" + Show(m.value)) }

  lemma ShowObject(members: seq<Member>)
    ensures Show(Obj(members)) == "{" + (Join(ShowMembers(members)) + "}")
  {
  }

  lemma ShowArray(items: seq<Value>)
    ensures Show(Arr(items)) == "[" + (Join(ShowAll(items)) + "]")
  {
  }

  lemma {:induction false} ShowMembersAt(members: seq<Member>, i: nat)
    requires i < |members|
    ensures ShowMembers(members)[i] == MemberText(members[i])
  {
    hide Show;
    hide Quoted;
    if i == 0 {
    } else {
      ShowMembersAt(members[1..], i - 1);
    }
  }
}
