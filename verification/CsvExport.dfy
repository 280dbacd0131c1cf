/** The CSV form of an export: three sections, printed row by row, and a reader for them. */
module CsvExport {
  import opened Types
  import opened Strings
  import opened ExportData
  import Csv

  // ---- what is printed ----

  const USERS_MARK := ["=== users ==="]
  const SECRETS_MARK := ["=== secrets ==="]
  const KEKS_MARK := ["=== kek_metadata ==="]
  const USERS_HEAD := ["username", "created_at"]
  const SECRETS_HEAD := ["user", "name", "size", "has_pub", "description", "updated_at"]
  const KEKS_HEAD := ["user", "expires_at", "version"]
  const SECRETS_LINE := "user,name,size,has_pub," + "description,updated_at\n"

  function UserRecord(u: UserLine, i: nat, redact: bool): Csv.Fields {
    [if redact then Anonymous(i) else u.username, u.createdAt]
  }

  function SecretRecord(s: SecretLine, redact: bool): Csv.Fields {
    [if redact then "redacted" else s.username, s.name, IntText(s.size), BoolText(s.hasPub), s.description, s.updatedAt]
  }

  function KekRecord(k: KekLine, redact: bool): Csv.Fields {
    [if redact then "redacted" else k.username, k.expiresAt, IntText(k.version)]
  }

  function UserRecords(users: seq<UserLine>, redact: bool): (rs: seq<Csv.Fields>)
    ensures Csv.Records(rs)
  {
    seq(|users|, i requires 0 <= i < |users| => UserRecord(users[i], i, redact))
  }

  function SecretRecords(secrets: seq<SecretLine>, redact: bool): (rs: seq<Csv.Fields>)
    ensures Csv.Records(rs)
  {
    seq(|secrets|, i requires 0 <= i < |secrets| => SecretRecord(secrets[i], redact))
  }

  function KekRecords(keks: seq<KekLine>, redact: bool): (rs: seq<Csv.Fields>)
    ensures Csv.Records(rs)
  {
    seq(|keks|, i requires 0 <= i < |keks| => KekRecord(keks[i], redact))
  }

  function Section(mark: Csv.Fields, head: Csv.Fields, rows: seq<Csv.Fields>): (rs: seq<Csv.Fields>)
    requires mark != [] && head != [] && Csv.Records(rows)
    ensures Csv.Records(rs)
  {
    [mark, head] + rows
  }

  function CsvDocument(d: Document, redact: bool): (rs: seq<Csv.Fields>)
    ensures Csv.Records(rs)
  {
    Section(USERS_MARK, USERS_HEAD, UserRecords(d.users, redact))
    + (Section(SECRETS_MARK, SECRETS_HEAD, SecretRecords(d.secrets, redact))
       + Section(KEKS_MARK, KEKS_HEAD, KekRecords(d.keks, redact)))
  }

  // ---- the printers ----

  /** Text that is its own CSV form. */
  predicate Plain(s: string) { s != "" && forall i :: 0 <= i < |s| ==> !Csv.Special(s[i]) }

  lemma NumbersArePlain(i: nat, n: int, b: bool)
    ensures Plain(Anonymous(i)) && Plain(IntText(n)) && Plain(BoolText(b)) && Plain("redacted")
  {
  }

  /** The first n fields of the record have been appended. */
  ghost predicate Printed(text: string, start: string, r: Csv.Fields, n: nat)
    requires 0 < n <= |r|
  {
    text == start + Csv.PrintFields(r[..n])
  }

  method AddFirst(buf: StringBuffer, ghost r: Csv.Fields, field: string, raw: bool)
    requires r != [] && r[0] == field && (raw ==> Plain(field))
    modifies buf
    ensures Printed(buf.text, old(buf.text), r, 1)
  {
    if raw { Csv.EscapePlain(field); }
    hide Csv.Escape;
    if raw { buf.Add(field); } else { Csv.CsvEscape(buf, field); }
    assert Csv.PrintFields(r[..1]) == Csv.Escape(r[0]);
  }

  /** A comma and the next field. */
  method AddNext(buf: StringBuffer, ghost start: string, ghost r: Csv.Fields, ghost n: nat, field: string, raw: bool)
    requires 0 < n < |r| && r[n] == field && (raw ==> Plain(field))
    requires Printed(buf.text, start, r, n)
    modifies buf
    ensures Printed(buf.text, start, r, n + 1)
  {
    if raw { Csv.EscapePlain(field); }
    hide Csv.Escape;
    Csv.PrintFieldsSnoc(r[..n], field);
    hide Csv.PrintFields;
    assert r[..n + 1] == r[..n] + [field];
    buf.Add(",");
    if raw { buf.Add(field); } else { Csv.CsvEscape(buf, field); }
  }

  lemma LineEnd(text: string, start: string, r: Csv.Fields)
    requires r != [] && Printed(text, start, r, |r|)
    ensures text + "\n" == start + Csv.PrintRecord(r)
  {
    assert r[..|r|] == r;
    hide Csv.PrintFields;
  }

  method EmitCsvUser(buf: StringBuffer, u: UserLine, i: nat, redact: bool)
    modifies buf
    ensures buf.text == old(buf.text) + Csv.PrintRecord(UserRecord(u, i, redact))
  {
    NumbersArePlain(i, 0, true);
    hide Printed;
    hide Plain;
    hide Csv.PrintRecord;
    ghost var r := UserRecord(u, i, redact);
    ghost var start := buf.text;
    AddFirst(buf, r, if redact then "user_" + IntText(i + 1) else u.username, redact);
    AddNext(buf, start, r, 1, u.createdAt, false);
    LineEnd(buf.text, start, r);
    buf.Add("\n");
  }

  method EmitCsvSecret(buf: StringBuffer, s: SecretLine, redact: bool)
    modifies buf
    ensures buf.text == old(buf.text) + Csv.PrintRecord(SecretRecord(s, redact))
  {
    NumbersArePlain(0, s.size, s.hasPub);
    hide Printed;
    hide Plain;
    hide Csv.PrintRecord;
    ghost var r := SecretRecord(s, redact);
    ghost var start := buf.text;
    AddFirst(buf, r, if redact then "redacted" else s.username, redact);
    AddNext(buf, start, r, 1, s.name, false);
    AddNext(buf, start, r, 2, IntText(s.size), true);
    AddNext(buf, start, r, 3, if s.hasPub then "true" else "false", true);
    AddNext(buf, start, r, 4, s.description, false);
    AddNext(buf, start, r, 5, s.updatedAt, false);
    LineEnd(buf.text, start, r);
    buf.Add("\n");
  }

  method EmitCsvKek(buf: StringBuffer, k: KekLine, redact: bool)
    modifies buf
    ensures buf.text == old(buf.text) + Csv.PrintRecord(KekRecord(k, redact))
  {
    NumbersArePlain(0, k.version, true);
    hide Printed;
    hide Plain;
    hide Csv.PrintRecord;
    ghost var r := KekRecord(k, redact);
    ghost var start := buf.text;
    AddFirst(buf, r, if redact then "redacted" else k.username, redact);
    AddNext(buf, start, r, 1, k.expiresAt, false);
    AddNext(buf, start, r, 2, IntText(k.version), true);
    LineEnd(buf.text, start, r);
    buf.Add("\n");
  }

  lemma NextRecord(rs: seq<Csv.Fields>, i: nat, start: string)
    requires Csv.Records(rs) && i < |rs|
    ensures start + Csv.Print(rs[..i]) + Csv.PrintRecord(rs[i]) == start + Csv.Print(rs[..i + 1])
  {
    hide Csv.PrintRecord;
    Csv.PrintSnoc(rs[..i], rs[i]);
    assert rs[..i + 1] == rs[..i] + [rs[i]];
  }

  lemma EmptyPrint()
    ensures Csv.Print([]) == ""
  {
  }

  method EmitCsvUsers(buf: StringBuffer, users: seq<UserLine>, redact: bool)
    modifies buf
    ensures buf.text == old(buf.text) + "username,created_at\n" + Csv.Print(UserRecords(users, redact))
  {
    hide Csv.PrintRecord;
    hide Csv.Print;
    buf.Add("username,created_at\n");
    ghost var start := buf.text;
    ghost var rs := UserRecords(users, redact);
    assert Csv.Print(rs[..0]) == "" by { EmptyPrint(); }
    for i := 0 to |users|
      invariant buf.text == start + Csv.Print(rs[..i])
    {
      EmitCsvUser(buf, users[i], i, redact);
      NextRecord(rs, i, start);
    }
    assert rs[..|users|] == rs;
  }

  method EmitCsvSecrets(buf: StringBuffer, secrets: seq<SecretLine>, redact: bool)
    modifies buf
    ensures buf.text == old(buf.text) + SECRETS_LINE + Csv.Print(SecretRecords(secrets, redact))
  {
    hide Csv.PrintRecord;
    hide Csv.Print;
    buf.Add(SECRETS_LINE);
    ghost var start := buf.text;
    ghost var rs := SecretRecords(secrets, redact);
    assert Csv.Print(rs[..0]) == "" by { EmptyPrint(); }
    for i := 0 to |secrets|
      invariant buf.text == start + Csv.Print(rs[..i])
    {
      EmitCsvSecret(buf, secrets[i], redact);
      NextRecord(rs, i, start);
    }
    assert rs[..|secrets|] == rs;
  }

  method EmitCsvKeks(buf: StringBuffer, keks: seq<KekLine>, redact: bool)
    modifies buf
    ensures buf.text == old(buf.text) + "user,expires_at,version\n" + Csv.Print(KekRecords(keks, redact))
  {
    hide Csv.PrintRecord;
    hide Csv.Print;
    buf.Add("user,expires_at,version\n");
    ghost var start := buf.text;
    ghost var rs := KekRecords(keks, redact);
    assert Csv.Print(rs[..0]) == "" by { EmptyPrint(); }
    for i := 0 to |keks|
      invariant buf.text == start + Csv.Print(rs[..i])
    {
      EmitCsvKek(buf, keks[i], redact);
      NextRecord(rs, i, start);
    }
    assert rs[..|keks|] == rs;
  }

  // ---- the fixed lines ----

  lemma SectionText(mark: Csv.Fields, head: Csv.Fields, rows: seq<Csv.Fields>)
    requires mark != [] && head != [] && Csv.Records(rows)
    ensures Csv.Print(Section(mark, head, rows)) == Csv.PrintRecord(mark) + Csv.PrintRecord(head) + Csv.Print(rows)
  {
    hide Csv.PrintRecord;
    Csv.PrintConcat([mark, head], rows);
    EmptyPrint();
    Csv.PrintSnoc([], mark);
    Csv.PrintSnoc([mark], head);
    assert [] + [mark] == [mark] && [mark] + [head] == [mark, head];
    assert "" + Csv.PrintRecord(mark) == Csv.PrintRecord(mark);
  }

  /** A plain field before a printed record. */
  lemma ConsField(a: string, r: Csv.Fields, rest: string)
    requires Plain(a) && r != [] && Csv.PrintRecord(r) == rest
    ensures Csv.PrintRecord([a] + r) == a + ("," + rest)
  {
  }

  lemma MarkTexts()
    ensures Csv.PrintRecord(USERS_MARK) == "=== users ===\n"
    ensures Csv.PrintRecord(SECRETS_MARK) == "=== secrets ===\n"
    ensures Csv.PrintRecord(KEKS_MARK) == "=== kek_metadata ===\n"
  {
  }

  lemma UsersHeadText()
    ensures Csv.PrintRecord(USERS_HEAD) == "username,created_at\n"
  {
  }

  lemma SecretsHeadEnd()
    ensures Csv.PrintRecord(["description", "updated_at"]) == "description,updated_at\n"
  {
  }

  /** One more plain field before a record whose text starts with the header so far. */
  lemma ConsHeader(a: string, r: Csv.Fields, p: string, q: string, e: string)
    requires Plain(a) && r != [] && Csv.PrintRecord(r) == p + e && a + ("," + p) == q
    ensures Csv.PrintRecord([a] + r) == q + e
  {
    ConsField(a, r, p + e);
    assert a + ("," + (p + e)) == (a + ("," + p)) + e;
  }

  lemma SecretsHeadFlag()
    ensures Csv.PrintRecord(["has_pub", "description", "updated_at"]) == "has_pub," + "description,updated_at\n"
  {
    SecretsHeadEnd();
    assert "" + "description,updated_at\n" == "description,updated_at\n";
    hide Csv.PrintRecord;
    assert "has_pub" + ("," + "") == "has_pub,";
    ConsHeader("has_pub", ["description", "updated_at"], "", "has_pub,", "description,updated_at\n");
    assert ["has_pub", "description", "updated_at"] == ["has_pub"] + ["description", "updated_at"];
  }

  lemma SecretsHeadSize()
    ensures Csv.PrintRecord(["size", "has_pub", "description", "updated_at"]) ==
        "size,has_pub," + "description,updated_at\n"
  {
    SecretsHeadFlag();
    hide Csv.PrintRecord;
    assert "size" + ("," + "has_pub,") == "size,has_pub,";
    ConsHeader("size", ["has_pub", "description", "updated_at"], "has_pub,", "size,has_pub,",
               "description,updated_at\n");
    assert ["size", "has_pub", "description", "updated_at"] == ["size"] + ["has_pub", "description", "updated_at"];
  }

  lemma SecretsHeadName()
    ensures Csv.PrintRecord(["name", "size", "has_pub", "description", "updated_at"]) ==
        "name,size,has_pub," + "description,updated_at\n"
  {
    SecretsHeadSize();
    hide Csv.PrintRecord;
    assert "name" + ("," + "size,has_pub,") == "name,size,has_pub,";
    ConsHeader("name", ["size", "has_pub", "description", "updated_at"], "size,has_pub,", "name,size,has_pub,",
               "description,updated_at\n");
    assert ["name", "size", "has_pub", "description", "updated_at"] ==
        ["name"] + ["size", "has_pub", "description", "updated_at"];
  }

  lemma SecretsHeadText()
    ensures Csv.PrintRecord(SECRETS_HEAD) == SECRETS_LINE
  {
    SecretsHeadName();
    hide Csv.PrintRecord;
    assert "user" + ("," + "name,size,has_pub,") == "user,name,size,has_pub,";
    ConsHeader("user", ["name", "size", "has_pub", "description", "updated_at"], "name,size,has_pub,",
               "user,name,size,has_pub,", "description,updated_at\n");
    assert SECRETS_HEAD == ["user"] + ["name", "size", "has_pub", "description", "updated_at"];
  }

  lemma KeksHeadEnd()
    ensures Csv.PrintRecord(["expires_at", "version"]) == "expires_at,version\n"
  {
  }

  lemma KeksHeadText()
    ensures Csv.PrintRecord(KEKS_HEAD) == "user,expires_at,version\n"
  {
    KeksHeadEnd();
    hide Csv.PrintRecord;
    assert "user" + ("," + "expires_at,version\n") == "user,expires_at,version\n";
    ConsField("user", ["expires_at", "version"], "expires_at,version\n");
    assert KEKS_HEAD == ["user"] + ["expires_at", "version"];
  }

  lemma CsvDocumentText(d: Document, redact: bool)
    ensures Csv.Print(CsvDocument(d, redact)) ==
            ("=== users ===\n" + "username,created_at\n" + Csv.Print(UserRecords(d.users, redact)))
            + (("=== secrets ===\n" + SECRETS_LINE + Csv.Print(SecretRecords(d.secrets, redact)))
               + ("=== kek_metadata ===\n" + "user,expires_at,version\n" + Csv.Print(KekRecords(d.keks, redact))))
  {
    hide Csv.Print;
    hide Csv.PrintRecord;
    hide UserRecords;
    hide SecretRecords;
    hide KekRecords;
    MarkTexts();
    UsersHeadText();
    SecretsHeadText();
    KeksHeadText();
    var us, ss, ks := UserRecords(d.users, redact), SecretRecords(d.secrets, redact), KekRecords(d.keks, redact);
    SectionText(USERS_MARK, USERS_HEAD, us);
    SectionText(SECRETS_MARK, SECRETS_HEAD, ss);
    SectionText(KEKS_MARK, KEKS_HEAD, ks);
    hide Section;
    var s1, s2 := Section(USERS_MARK, USERS_HEAD, us), Section(SECRETS_MARK, SECRETS_HEAD, ss);
    var s3 := Section(KEKS_MARK, KEKS_HEAD, ks);
    Csv.PrintConcat(s2, s3);
    Csv.PrintConcat(s1, s2 + s3);
  }

  lemma Regroup(a: string, b: string, c: string, d: string, e: string, f: string, g: string, h: string, i: string)
    ensures a + b + c + d + e + f + g + h + i == (a + b + c) + ((d + e + f) + (g + h + i))
  {
  }

  method EmitCsvDocument(d: Document, redact: bool) returns (text: string)
    ensures text == Csv.Print(CsvDocument(d, redact))
  {
    hide Csv.Print;
    hide UserRecords;
    hide SecretRecords;
    hide KekRecords;
    hide CsvDocument;
    var buf := new StringBuffer();
    buf.Add("=== users ===\n");
    EmitCsvUsers(buf, d.users, redact);
    buf.Add("=== secrets ===\n");
    EmitCsvSecrets(buf, d.secrets, redact);
    buf.Add("=== kek_metadata ===\n");
    EmitCsvKeks(buf, d.keks, redact);
    text := buf.text;
    assert "" + "=== users ===\n" == "=== users ===\n";
    Regroup("=== users ===\n", "username,created_at\n", Csv.Print(UserRecords(d.users, redact)),
            "=== secrets ===\n", SECRETS_LINE, Csv.Print(SecretRecords(d.secrets, redact)),
            "=== kek_metadata ===\n", "user,expires_at,version\n", Csv.Print(KekRecords(d.keks, redact)));
    CsvDocumentText(d, redact);
  }

  // ---- reading an unredacted document back ----

  function ReadUser(r: Csv.Fields): Option<UserLine> {
    if |r| == 2 then Some(UserLine(r[0], r[1])) else None
  }

  function ReadBool(s: string): Option<bool> {
    if s == "true" then Some(true) else if s == "false" then Some(false) else None
  }

  function ReadSecret(r: Csv.Fields): Option<SecretLine> {
    if |r| != 6 then None
    else match (ReadInt(r[2]), ReadBool(r[3]))
      case (Some(size), Some(hasPub)) => Some(SecretLine(r[0], r[1], size, hasPub, r[4], r[5]))
      case _ => None
  }

  function ReadKek(r: Csv.Fields): Option<KekLine> {
    if |r| != 3 then None
    else match ReadInt(r[2])
      case Some(version) => Some(KekLine(r[0], r[1], version))
      case None => None
  }

  /** The rows before the next section mark, which is the only kind of line with one field. */
  function TakeRows(rs: seq<Csv.Fields>): (seq<Csv.Fields>, seq<Csv.Fields>) {
    if rs == [] || |rs[0]| == 1 then ([], rs)
    else var (rows, rest) := TakeRows(rs[1..]); ([rs[0]] + rows, rest)
  }

  function ReadSection(rs: seq<Csv.Fields>, mark: Csv.Fields, head: Csv.Fields)
    : Option<(seq<Csv.Fields>, seq<Csv.Fields>)>
  {
    if |rs| >= 2 && rs[0] == mark && rs[1] == head then Some(TakeRows(rs[2..])) else None
  }

  function ReadDocument(rs: seq<Csv.Fields>): Option<Document> {
    match ReadSection(rs, USERS_MARK, USERS_HEAD)
    case None => None
    case Some((us, rest)) =>
      match ReadSection(rest, SECRETS_MARK, SECRETS_HEAD)
      case None => None
      case Some((ss, rest')) =>
        match ReadSection(rest', KEKS_MARK, KEKS_HEAD)
        case None => None
        case Some((ks, end)) =>
          match (ReadAll(us, ReadUser), ReadAll(ss, ReadSecret), ReadAll(ks, ReadKek))
          case (Some(users), Some(secrets), Some(keks)) =>
            if end == [] then Some(Document(users, secrets, keks)) else None
          case _ => None
  }

  /** A parser for the whole file. */
  function ReadCsv(text: string): Option<Document> {
    match Csv.Read(text)
    case None => None
    case Some(rs) => ReadDocument(rs)
  }

  lemma {:induction false} TakeAllRows(rows: seq<Csv.Fields>, rest: seq<Csv.Fields>)
    requires forall i :: 0 <= i < |rows| ==> |rows[i]| != 1
    requires rest == [] || |rest[0]| == 1
    ensures TakeRows(rows + rest) == (rows, rest)
  {
    if rows == [] {
      assert rows + rest == rest;
    } else {
      TakeAllRows(rows[1..], rest);
      assert (rows + rest)[1..] == rows[1..] + rest;
      assert rows == [rows[0]] + rows[1..];
    }
  }

  lemma ReadOneSection(mark: Csv.Fields, head: Csv.Fields, rows: seq<Csv.Fields>, rest: seq<Csv.Fields>)
    requires mark != [] && head != [] && Csv.Records(rows)
    requires forall i :: 0 <= i < |rows| ==> |rows[i]| != 1
    requires rest == [] || |rest[0]| == 1
    ensures ReadSection(Section(mark, head, rows) + rest, mark, head) == Some((rows, rest))
  {
    TakeAllRows(rows, rest);
    hide TakeRows;
    var rs := Section(mark, head, rows) + rest;
    assert rs[2..] == rows + rest && rs[0] == mark && rs[1] == head;
  }

  lemma ReadRows(d: Document)
    ensures ReadAll(UserRecords(d.users, false), ReadUser) == Some(d.users)
    ensures ReadAll(SecretRecords(d.secrets, false), ReadSecret) == Some(d.secrets)
    ensures ReadAll(KekRecords(d.keks, false), ReadKek) == Some(d.keks)
  {
    ReadAllInverts(UserRecords(d.users, false), ReadUser, d.users);
    forall i | 0 <= i < |d.secrets|
      ensures ReadSecret(SecretRecords(d.secrets, false)[i]) == Some(d.secrets[i])
    {
      ReadIntText(d.secrets[i].size);
    }
    ReadAllInverts(SecretRecords(d.secrets, false), ReadSecret, d.secrets);
    forall i | 0 <= i < |d.keks|
      ensures ReadKek(KekRecords(d.keks, false)[i]) == Some(d.keks[i])
    {
      ReadIntText(d.keks[i].version);
    }
    ReadAllInverts(KekRecords(d.keks, false), ReadKek, d.keks);
  }

  lemma ReadSections(d: Document, redact: bool)
    ensures var us, ss := UserRecords(d.users, redact), SecretRecords(d.secrets, redact);
      var ks := KekRecords(d.keks, redact);
      var s3 := Section(KEKS_MARK, KEKS_HEAD, ks);
      var s2 := Section(SECRETS_MARK, SECRETS_HEAD, ss) + s3;
      && ReadSection(CsvDocument(d, redact), USERS_MARK, USERS_HEAD) == Some((us, s2))
      && ReadSection(s2, SECRETS_MARK, SECRETS_HEAD) == Some((ss, s3))
      && ReadSection(s3, KEKS_MARK, KEKS_HEAD) == Some((ks, []))
  {
    var us, ss, ks := UserRecords(d.users, redact), SecretRecords(d.secrets, redact), KekRecords(d.keks, redact);
    var s3 := Section(KEKS_MARK, KEKS_HEAD, ks);
    var s2 := Section(SECRETS_MARK, SECRETS_HEAD, ss) + s3;
    ReadOneSection(USERS_MARK, USERS_HEAD, us, s2);
    ReadOneSection(SECRETS_MARK, SECRETS_HEAD, ss, s3);
    ReadOneSection(KEKS_MARK, KEKS_HEAD, ks, []);
    assert s3 + [] == s3;
  }

  /** The reader returns exactly the exported rows, in order, whatever the fields contain. */
  lemma CsvRoundTrip(d: Document)
    ensures ReadCsv(Csv.Print(CsvDocument(d, false))) == Some(d)
  {
    Csv.ReadInvertsPrint(CsvDocument(d, false));
    ReadRows(d);
    ReadSections(d, false);
    hide Csv.Read;
    hide Csv.Print;
    hide CsvDocument;
    hide ReadSection;
    hide Section;
    hide UserRecords;
    hide SecretRecords;
    hide KekRecords;
    hide ReadAll;
    hide ReadUser;
    hide ReadSecret;
    hide ReadKek;
  }

  // ---- redaction ----

  /** A redacted CSV export is that of the document with the names replaced. */
  lemma RedactedCsv(d: Document)
    ensures CsvDocument(d, true) == CsvDocument(Redacted(d), false)
  {
    var r := Redacted(d);
    assert UserRecords(d.users, true) == UserRecords(r.users, false);
    assert SecretRecords(d.secrets, true) == SecretRecords(r.secrets, false);
    assert KekRecords(d.keks, true) == KekRecords(r.keks, false);
  }
}
