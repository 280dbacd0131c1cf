/** The JSON form of an export: one object holding three arrays, and a reader for it. */
module JsonExport {
  import opened Types
  import opened Strings
  import opened ExportData
  import Json

  // ---- what is printed ----

  function UserObject(u: UserLine, i: nat, redact: bool): Json.Value {
    Json.Obj([Json.Member("username", Json.Str(if redact then Anonymous(i) else u.username)),
              Json.Member("created_at", Json.Str(u.createdAt))])
  }

  function SecretObject(s: SecretLine, redact: bool): Json.Value {
    Json.Obj([Json.Member("user", Json.Str(if redact then "redacted" else s.username)),
              Json.Member("name", Json.Str(s.name)),
              Json.Member("size", Json.Num(s.size)),
              Json.Member("has_pub", Json.Bool(s.hasPub)),
              Json.Member("description", Json.Str(s.description)),
              Json.Member("updated_at", Json.Str(s.updatedAt))])
  }

  function KekObject(k: KekLine, redact: bool): Json.Value {
    Json.Obj([Json.Member("user", Json.Str(if redact then "redacted" else k.username)),
              Json.Member("expires_at", Json.Str(k.expiresAt)),
              Json.Member("version", Json.Num(k.version))])
  }

  function UserObjects(users: seq<UserLine>, redact: bool): seq<Json.Value> {
    seq(|users|, i requires 0 <= i < |users| => UserObject(users[i], i, redact))
  }

  function SecretObjects(secrets: seq<SecretLine>, redact: bool): seq<Json.Value> {
    seq(|secrets|, i requires 0 <= i < |secrets| => SecretObject(secrets[i], redact))
  }

  function KekObjects(keks: seq<KekLine>, redact: bool): seq<Json.Value> {
    seq(|keks|, i requires 0 <= i < |keks| => KekObject(keks[i], redact))
  }

  function JsonDocument(d: Document, redact: bool): Json.Value {
    Json.Obj([Json.Member("users", Json.Arr(UserObjects(d.users, redact))),
              Json.Member("secrets", Json.Arr(SecretObjects(d.secrets, redact))),
              Json.Member("kek_metadata", Json.Arr(KekObjects(d.keks, redact)))])
  }

  // ---- appending one object member ----

  lemma KeysArePlain()
    ensures Json.PlainText("username") && Json.PlainText("created_at") && Json.PlainText("user")
    ensures Json.PlainText("expires_at") && Json.PlainText("version")
  {
  }

  lemma SecretKeysArePlain()
    ensures Json.PlainText("name") && Json.PlainText("size")
    ensures Json.PlainText("has_pub") && Json.PlainText("description") && Json.PlainText("updated_at")
  {
  }

  lemma Enclose(start: string, open: string, inner: string, close: string)
    ensures start + open + inner + close == start + (open + (inner + close))
  {
  }

  lemma ReplacementsArePlain(i: nat)
    ensures Json.PlainText(Anonymous(i)) && Json.PlainText("redacted")
  {
  }

  /** "key": */
  method AddKey(buf: StringBuffer, key: string)
    requires Json.PlainText(key)
    modifies buf
    ensures buf.text == old(buf.text) + (Json.Quoted(key) + ":")
  {
    Json.EscapePlain(key);
    buf.Add("\"");
    buf.Add(key);
    buf.Add("\":");
    assert old(buf.text) + "\"" + key + "\":" == old(buf.text) + (("\"" + (key + "\"")) + ":");
  }

  /** A key, its colon and its value are one member. */
  lemma KeyThenValue(key: string, value: Json.Value, start: string)
    ensures start + (Json.Quoted(key) + ":") + Json.Show(value) == start + Json.MemberText(Json.Member(key, value))
  {
  }

  /** The value of a member: text, escaped unless it replaces a user name, or a number or boolean. */
  method AddValue(buf: StringBuffer, value: Json.Value, raw: bool)
    requires value.Str? || value.Num? || value.Bool?
    requires value.Str? && raw ==> Json.PlainText(value.s)
    modifies buf
    ensures buf.text == old(buf.text) + Json.Show(value)
  {
    match value
    case Num(n) => buf.Add(IntText(n));
    case Bool(b) => buf.Add(if b then "true" else "false");
    case Str(s) =>
      if raw { Json.EscapePlain(s); }
      hide Json.PlainText;
      hide Json.Escape;
      buf.Add("\"");
      if raw { buf.Add(s); } else { Json.JsonEscape(buf, s); }
      buf.Add("\"");
      assert old(buf.text) + "\"" + Json.Escape(s) + "\"" == old(buf.text) + ("\"" + (Json.Escape(s) + "\""));
  }

  /** The opening brace and the first n members have been appended. */
  ghost predicate Printed(text: string, start: string, members: seq<Json.Member>, n: nat)
    requires n <= |members|
  {
    text == start + "{" + Json.Join(Json.ShowMembers(members)[..n])
  }

  lemma NothingPrinted(start: string, members: seq<Json.Member>)
    ensures Printed(start + "{", start, members, 0)
  {
  }

  /** One more member, after a comma unless it is the first. */
  lemma NextMember(text: string, start: string, members: seq<Json.Member>, n: nat)
    requires n < |members| && Printed(text, start, members, n)
    ensures Printed(text + (if n > 0 then "," else "") + Json.MemberText(members[n]), start, members, n + 1)
  {
    hide Json.ShowMembers;
    hide Json.MemberText;
    hide Json.Join;
    Json.ShowMembersAt(members, n);
    Json.NextPart(Json.ShowMembers(members), n, start + "{");
  }

  /** The closing brace after the last member. */
  lemma CloseObject(text: string, start: string, members: seq<Json.Member>)
    requires Printed(text, start, members, |members|)
    ensures text + "}" == start + Json.Show(Json.Obj(members))
  {
    hide Json.ShowMembers;
    hide Json.Join;
    Json.ShowObject(members);
    hide Json.Show;
    assert Json.ShowMembers(members)[..|members|] == Json.ShowMembers(members);
    Enclose(start, "{", Json.Join(Json.ShowMembers(members)), "}");
  }

  /** The comma and the text of one member. */
  method AddMember(buf: StringBuffer, ghost start: string, ghost members: seq<Json.Member>, n: nat,
                   key: string, value: Json.Value, raw: bool)
    requires n < |members| && members[n] == Json.Member(key, value)
    requires Json.PlainText(key)
    requires value.Str? || value.Num? || value.Bool?
    requires value.Str? && raw ==> Json.PlainText(value.s)
    requires Printed(buf.text, start, members, n)
    modifies buf
    ensures Printed(buf.text, start, members, n + 1)
  {
    hide Json.PlainText;
    hide Json.Show;
    hide Json.MemberText;
    hide Json.Quoted;
    NextMember(buf.text, start, members, n);
    hide Printed;
    if n > 0 { buf.Add(","); }
    KeyThenValue(key, value, buf.text);
    AddKey(buf, key);
    AddValue(buf, value, raw);
    assert n == 0 ==> old(buf.text) + "" == old(buf.text);
  }

  method EmitJsonUser(buf: StringBuffer, u: UserLine, i: nat, redact: bool)
    modifies buf
    ensures buf.text == old(buf.text) + Json.Show(UserObject(u, i, redact))
  {
    KeysArePlain();
    ReplacementsArePlain(i);
    hide Json.PlainText;
    hide Json.Show;
    hide Printed;
    ghost var start := buf.text;
    ghost var ms := UserObject(u, i, redact).members;
    NothingPrinted(start, ms);
    buf.Add("{");
    AddMember(buf, start, ms, 0, "username", Json.Str(if redact then Anonymous(i) else u.username), redact);
    AddMember(buf, start, ms, 1, "created_at", Json.Str(u.createdAt), false);
    CloseObject(buf.text, start, ms);
    buf.Add("}");
  }

  method EmitJsonSecret(buf: StringBuffer, s: SecretLine, redact: bool)
    modifies buf
    ensures buf.text == old(buf.text) + Json.Show(SecretObject(s, redact))
  {
    KeysArePlain();
    SecretKeysArePlain();
    ReplacementsArePlain(0);
    hide Json.PlainText;
    hide Json.Show;
    hide Printed;
    ghost var start := buf.text;
    ghost var ms := SecretObject(s, redact).members;
    NothingPrinted(start, ms);
    buf.Add("{");
    AddMember(buf, start, ms, 0, "user", Json.Str(if redact then "redacted" else s.username), redact);
    AddMember(buf, start, ms, 1, "name", Json.Str(s.name), false);
    AddMember(buf, start, ms, 2, "size", Json.Num(s.size), false);
    AddMember(buf, start, ms, 3, "has_pub", Json.Bool(s.hasPub), false);
    AddMember(buf, start, ms, 4, "description", Json.Str(s.description), false);
    AddMember(buf, start, ms, 5, "updated_at", Json.Str(s.updatedAt), false);
    CloseObject(buf.text, start, ms);
    buf.Add("}");
  }

  method EmitJsonKek(buf: StringBuffer, k: KekLine, redact: bool)
    modifies buf
    ensures buf.text == old(buf.text) + Json.Show(KekObject(k, redact))
  {
    KeysArePlain();
    ReplacementsArePlain(0);
    hide Json.PlainText;
    hide Json.Show;
    hide Printed;
    ghost var start := buf.text;
    ghost var ms := KekObject(k, redact).members;
    NothingPrinted(start, ms);
    buf.Add("{");
    AddMember(buf, start, ms, 0, "user", Json.Str(if redact then "redacted" else k.username), redact);
    AddMember(buf, start, ms, 1, "expires_at", Json.Str(k.expiresAt), false);
    AddMember(buf, start, ms, 2, "version", Json.Num(k.version), false);
    CloseObject(buf.text, start, ms);
    buf.Add("}");
  }

  // ---- the three arrays ----

  /** After the first n items of an array, one more. */
  lemma NextItem(items: seq<Json.Value>, n: nat, start: string)
    requires n < |items|
    ensures start + Json.Join(Json.ShowAll(items)[..n]) + (if n > 0 then "," else "") + Json.Show(items[n]) ==
            start + Json.Join(Json.ShowAll(items)[..n + 1])
  {
    hide Json.ShowAll;
    hide Json.Show;
    hide Json.Join;
    Json.ShowAllAt(items, n);
    Json.NextPart(Json.ShowAll(items), n, start);
  }

  lemma OpenArray(items: seq<Json.Value>, start: string)
    ensures Json.Join(Json.ShowAll(items)[..0]) == ""
    ensures start + "[" + "" == start + "["
  {
  }

  lemma CloseArray(items: seq<Json.Value>, start: string)
    ensures start + "[" + Json.Join(Json.ShowAll(items)[..|items|]) + "]" == start + Json.Show(Json.Arr(items))
  {
    hide Json.ShowAll;
    hide Json.Join;
    Json.ShowArray(items);
    hide Json.Show;
    assert Json.ShowAll(items)[..|items|] == Json.ShowAll(items);
    Enclose(start, "[", Json.Join(Json.ShowAll(items)), "]");
  }

  method EmitJsonUsers(buf: StringBuffer, users: seq<UserLine>, redact: bool)
    modifies buf
    ensures buf.text == old(buf.text) + Json.MemberText(Json.Member("users", Json.Arr(UserObjects(users, redact))))
  {
    hide Json.Show;
    hide Json.ShowAll;
    hide Json.Join;
    hide Json.MemberText;
    AddKey(buf, "users");
    ghost var start := buf.text;
    ghost var items := UserObjects(users, redact);
    OpenArray(items, start);
    buf.Add("[");
    for i := 0 to |users|
      invariant buf.text == start + "[" + Json.Join(Json.ShowAll(items)[..i])
    {
      if i > 0 { buf.Add(","); }
      EmitJsonUser(buf, users[i], i, redact);
      NextItem(items, i, start + "[");
    }
    buf.Add("]");
    CloseArray(items, start);
    KeyThenValue("users", Json.Arr(items), old(buf.text));
  }

  method EmitJsonSecrets(buf: StringBuffer, secrets: seq<SecretLine>, redact: bool)
    modifies buf
    ensures buf.text == old(buf.text) +
                        Json.MemberText(Json.Member("secrets", Json.Arr(SecretObjects(secrets, redact))))
  {
    hide Json.Show;
    hide Json.ShowAll;
    hide Json.Join;
    hide Json.MemberText;
    AddKey(buf, "secrets");
    ghost var start := buf.text;
    ghost var items := SecretObjects(secrets, redact);
    OpenArray(items, start);
    buf.Add("[");
    for i := 0 to |secrets|
      invariant buf.text == start + "[" + Json.Join(Json.ShowAll(items)[..i])
    {
      if i > 0 { buf.Add(","); }
      EmitJsonSecret(buf, secrets[i], redact);
      NextItem(items, i, start + "[");
    }
    buf.Add("]");
    CloseArray(items, start);
    KeyThenValue("secrets", Json.Arr(items), old(buf.text));
  }

  method EmitJsonKeks(buf: StringBuffer, keks: seq<KekLine>, redact: bool)
    modifies buf
    ensures buf.text == old(buf.text) + Json.MemberText(Json.Member("kek_metadata", Json.Arr(KekObjects(keks, redact))))
  {
    hide Json.Show;
    hide Json.ShowAll;
    hide Json.Join;
    hide Json.MemberText;
    AddKey(buf, "kek_metadata");
    ghost var start := buf.text;
    ghost var items := KekObjects(keks, redact);
    OpenArray(items, start);
    buf.Add("[");
    for i := 0 to |keks|
      invariant buf.text == start + "[" + Json.Join(Json.ShowAll(items)[..i])
    {
      if i > 0 { buf.Add(","); }
      EmitJsonKek(buf, keks[i], redact);
      NextItem(items, i, start + "[");
    }
    buf.Add("]");
    CloseArray(items, start);
    KeyThenValue("kek_metadata", Json.Arr(items), old(buf.text));
  }

  method EmitJsonDocument(d: Document, redact: bool) returns (text: string)
    ensures text == Json.Show(JsonDocument(d, redact))
  {
    hide Json.Show;
    hide Json.MemberText;
    hide UserObjects;
    hide SecretObjects;
    hide KekObjects;
    hide Printed;
    ghost var ms := JsonDocument(d, redact).members;
    NothingPrinted("", ms);
    var buf := new StringBuffer();
    buf.Add("{");
    NextMember(buf.text, "", ms, 0);
    assert buf.text + "" == buf.text;
    EmitJsonUsers(buf, d.users, redact);
    NextMember(buf.text, "", ms, 1);
    buf.Add(",");
    EmitJsonSecrets(buf, d.secrets, redact);
    NextMember(buf.text, "", ms, 2);
    buf.Add(",");
    EmitJsonKeks(buf, d.keks, redact);
    CloseObject(buf.text, "", ms);
    buf.Add("}");
    text := buf.text;
    assert "" + Json.Show(Json.Obj(ms)) == Json.Show(Json.Obj(ms));
  }

  // ---- reading an unredacted document back ----

  /** The value under a key, when the object has exactly these keys in this order. */
  predicate HasKeys(v: Json.Value, keys: seq<string>) {
    v.Obj? && |v.members| == |keys| && forall i :: 0 <= i < |keys| ==> v.members[i].key == keys[i]
  }

  function ReadUser(v: Json.Value): Option<UserLine> {
    if !HasKeys(v, ["username", "created_at"]) then None
    else match (v.members[0].value, v.members[1].value)
      case (Str(username), Str(createdAt)) => Some(UserLine(username, createdAt))
      case _ => None
  }

  function ReadSecret(v: Json.Value): Option<SecretLine> {
    if !HasKeys(v, ["user", "name", "size", "has_pub", "description", "updated_at"]) then None
    else match (v.members[0].value, v.members[1].value, v.members[2].value,
                v.members[3].value, v.members[4].value, v.members[5].value)
      case (Str(username), Str(name), Num(size), Bool(hasPub), Str(description), Str(updatedAt)) =>
        Some(SecretLine(username, name, size, hasPub, description, updatedAt))
      case _ => None
  }

  function ReadKek(v: Json.Value): Option<KekLine> {
    if !HasKeys(v, ["user", "expires_at", "version"]) then None
    else match (v.members[0].value, v.members[1].value, v.members[2].value)
      case (Str(username), Str(expiresAt), Num(version)) => Some(KekLine(username, expiresAt, version))
      case _ => None
  }

  function ReadDocument(v: Json.Value): Option<Document> {
    if !HasKeys(v, ["users", "secrets", "kek_metadata"]) then None
    else match (v.members[0].value, v.members[1].value, v.members[2].value)
      case (Arr(us), Arr(ss), Arr(ks)) =>
        (match (ReadAll(us, ReadUser), ReadAll(ss, ReadSecret), ReadAll(ks, ReadKek))
         case (Some(users), Some(secrets), Some(keks)) => Some(Document(users, secrets, keks))
         case _ => None)
      case _ => None
  }

  /** A parser for the whole file. */
  function ReadJson(text: string, strict: bool): Option<Document> {
    match Json.Read(text, strict)
    case None => None
    case Some(v) => ReadDocument(v)
  }

  lemma ReadArrays(d: Document)
    ensures ReadAll(UserObjects(d.users, false), ReadUser) == Some(d.users)
    ensures ReadAll(SecretObjects(d.secrets, false), ReadSecret) == Some(d.secrets)
    ensures ReadAll(KekObjects(d.keks, false), ReadKek) == Some(d.keks)
  {
    ReadAllInverts(UserObjects(d.users, false), ReadUser, d.users);
    ReadAllInverts(SecretObjects(d.secrets, false), ReadSecret, d.secrets);
    ReadAllInverts(KekObjects(d.keks, false), ReadKek, d.keks);
  }

  /** Every text of the document is free of control characters that JSON cannot hold unescaped. */
  predicate CleanDocument(d: Document) {
    && (forall i :: 0 <= i < |d.users| ==> Json.Clean(d.users[i].username) && Json.Clean(d.users[i].createdAt))
    && (forall i :: 0 <= i < |d.secrets| ==> CleanSecret(d.secrets[i]))
    && (forall i :: 0 <= i < |d.keks| ==> Json.Clean(d.keks[i].username) && Json.Clean(d.keks[i].expiresAt))
  }

  predicate CleanSecret(s: SecretLine) {
    Json.Clean(s.username) && Json.Clean(s.name) && Json.Clean(s.description) && Json.Clean(s.updatedAt)
  }

  lemma UserKeysAreClean()
    ensures Json.Clean("username") && Json.Clean("created_at")
    ensures Json.Clean("users") && Json.Clean("secrets") && Json.Clean("kek_metadata")
  {
  }

  lemma SecretKeysAreClean()
    ensures Json.Clean("user") && Json.Clean("name") && Json.Clean("size")
    ensures Json.Clean("has_pub") && Json.Clean("description") && Json.Clean("updated_at")
  {
  }

  lemma KekKeysAreClean()
    ensures Json.Clean("user") && Json.Clean("expires_at") && Json.Clean("version")
  {
  }

  lemma CleanUser(u: UserLine, i: nat)
    ensures Json.CleanValue(UserObject(u, i, false)) <==> Json.Clean(u.username) && Json.Clean(u.createdAt)
  {
    UserKeysAreClean();
    hide Json.Clean;
    var ms := UserObject(u, i, false).members;
    assert Json.CleanValue(ms[0].value) <==> Json.Clean(u.username);
    assert Json.CleanValue(ms[1].value) <==> Json.Clean(u.createdAt);
  }

  lemma CleanSecretObject(s: SecretLine)
    ensures Json.CleanValue(SecretObject(s, false)) <==> CleanSecret(s)
  {
    SecretKeysAreClean();
    hide Json.Clean;
    var ms := SecretObject(s, false).members;
    assert Json.CleanValue(ms[0].value) <==> Json.Clean(s.username);
    assert Json.CleanValue(ms[1].value) <==> Json.Clean(s.name);
    assert Json.CleanValue(ms[2].value) && Json.CleanValue(ms[3].value);
    assert Json.CleanValue(ms[4].value) <==> Json.Clean(s.description);
    assert Json.CleanValue(ms[5].value) <==> Json.Clean(s.updatedAt);
  }

  lemma CleanKek(k: KekLine)
    ensures Json.CleanValue(KekObject(k, false)) <==> Json.Clean(k.username) && Json.Clean(k.expiresAt)
  {
    KekKeysAreClean();
    hide Json.Clean;
    var ms := KekObject(k, false).members;
    assert Json.CleanValue(ms[0].value) <==> Json.Clean(k.username);
    assert Json.CleanValue(ms[1].value) <==> Json.Clean(k.expiresAt);
    assert Json.CleanValue(ms[2].value);
  }

  lemma CleanArrays(d: Document)
    ensures CleanDocument(d) <==>
      && Json.CleanItems(UserObjects(d.users, false)) && Json.CleanItems(SecretObjects(d.secrets, false))
      && Json.CleanItems(KekObjects(d.keks, false))
  {
    hide Json.Clean;
    hide Json.CleanValue;
    var us, ss, ks := UserObjects(d.users, false), SecretObjects(d.secrets, false), KekObjects(d.keks, false);
    forall i | 0 <= i < |d.users|
      ensures Json.CleanValue(us[i]) <==> Json.Clean(d.users[i].username) && Json.Clean(d.users[i].createdAt)
    {
      CleanUser(d.users[i], i);
    }
    forall i | 0 <= i < |d.secrets| ensures Json.CleanValue(ss[i]) <==> CleanSecret(d.secrets[i]) {
      CleanSecretObject(d.secrets[i]);
    }
    forall i | 0 <= i < |d.keks|
      ensures Json.CleanValue(ks[i]) <==> Json.Clean(d.keks[i].username) && Json.Clean(d.keks[i].expiresAt)
    {
      CleanKek(d.keks[i]);
    }
    hide UserObject;
    hide SecretObject;
    hide KekObject;
    hide CleanSecret;
  }

  lemma CleanJson(d: Document)
    ensures Json.CleanValue(JsonDocument(d, false)) <==> CleanDocument(d)
  {
    UserKeysAreClean();
    CleanArrays(d);
    hide Json.Clean;
    hide Json.CleanItems;
    hide CleanDocument;
    hide UserObjects;
    hide SecretObjects;
    hide KekObjects;
    var ms := JsonDocument(d, false).members;
    assert Json.CleanValue(ms[0].value) <==> Json.CleanItems(UserObjects(d.users, false));
    assert Json.CleanValue(ms[1].value) <==> Json.CleanItems(SecretObjects(d.secrets, false));
    assert Json.CleanValue(ms[2].value) <==> Json.CleanItems(KekObjects(d.keks, false));
  }

  /**
   A lenient reader returns exactly the exported rows, in order, whatever the texts contain. A strict one
   returns them if and only if no text has a control character that the printer leaves unescaped, and
   otherwise refuses the document.
   */
  lemma JsonRoundTrip(d: Document)
    ensures ReadJson(Json.Show(JsonDocument(d, false)), false) == Some(d)
    ensures ReadJson(Json.Show(JsonDocument(d, false)), true) == if CleanDocument(d) then Some(d) else None
  {
    Json.ReadInvertsShow(JsonDocument(d, false));
    ReadArrays(d);
    CleanJson(d);
    hide Json.Read;
    hide Json.Show;
    hide Json.CleanValue;
    hide CleanDocument;
    hide UserObjects;
    hide SecretObjects;
    hide KekObjects;
    hide ReadAll;
    hide ReadUser;
    hide ReadSecret;
    hide ReadKek;
  }

  // ---- redaction ----

  /** A redacted JSON export is that of the document with the names replaced. */
  lemma RedactedJson(d: Document)
    ensures JsonDocument(d, true) == JsonDocument(Redacted(d), false)
  {
    var r := Redacted(d);
    assert UserObjects(d.users, true) == UserObjects(r.users, false);
    assert SecretObjects(d.secrets, true) == SecretObjects(r.secrets, false);
    assert KekObjects(d.keks, true) == KekObjects(r.keks, false);
  }
}
