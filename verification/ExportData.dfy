/** What an export is about: three queries over the tables, and the lines they return. */
module ExportData {
  import opened Types
  import opened Text
  import opened Strings

  datatype UserLine = UserLine(username: string, createdAt: string)

  datatype SecretLine = SecretLine(
    username: string, name: string, size: int, hasPub: bool, description: string, updatedAt: string)

  datatype KekLine = KekLine(username: string, expiresAt: string, version: int)

  datatype Document = Document(users: seq<UserLine>, secrets: seq<SecretLine>, keks: seq<KekLine>)

  // ---- the queries ----

  // the columns that the queries read
  datatype UserColumns = UserColumns(id: nat, username: string, createdAt: string)

  datatype SecretColumns = SecretColumns(
    userId: nat, name: string, privateKey: Bytes, publicKey: Option<Bytes>, description: Option<string>,
    updatedAt: string)

  datatype KekColumns = KekColumns(userId: nat, expiresAt: string, version: int)

  /** The tables; users in the order of their ids. */
  datatype ExportTables = ExportTables(users: seq<UserColumns>, secrets: seq<SecretColumns>, keks: seq<KekColumns>)

  function QueryUsers(users: seq<UserColumns>): (lines: seq<UserLine>)
    ensures |lines| == |users|
  {
    if users == [] then [] else [UserLine(users[0].username, users[0].createdAt)] + QueryUsers(users[1..])
  }

  /** ORDER BY s.name within one user */
  function InsertByName(line: SecretLine, sorted: seq<SecretLine>): seq<SecretLine> {
    if sorted == [] then [line]
    else if Precedes(sorted[0].name, line.name) then [sorted[0]] + InsertByName(line, sorted[1..])
    else [line] + sorted
  }

  function SecretsOf(user: UserColumns, secrets: seq<SecretColumns>): seq<SecretLine> {
    if secrets == [] then []
    else
      var rest := SecretsOf(user, secrets[1..]);
      var s := secrets[0];
      if s.userId != user.id then rest
      else
        InsertByName(LineOf(user, s), rest)
  }

  function LineOf(user: UserColumns, s: SecretColumns): SecretLine {
    SecretLine(user.username, s.name, |s.privateKey|, s.publicKey.Some?,
               if s.description.Some? then s.description.value else "", s.updatedAt)
  }

  function QuerySecrets(users: seq<UserColumns>, secrets: seq<SecretColumns>): seq<SecretLine> {
    if users == [] then [] else SecretsOf(users[0], secrets) + QuerySecrets(users[1..], secrets)
  }

  function KeksOf(user: UserColumns, keks: seq<KekColumns>): seq<KekLine> {
    if keks == [] then []
    else
      var rest := KeksOf(user, keks[1..]);
      if keks[0].userId != user.id then rest
      else [KekLine(user.username, keks[0].expiresAt, keks[0].version)] + rest
  }

  function QueryKeks(users: seq<UserColumns>, keks: seq<KekColumns>): seq<KekLine> {
    if users == [] then [] else KeksOf(users[0], keks) + QueryKeks(users[1..], keks)
  }

  function Query(db: ExportTables): Document {
    Document(QueryUsers(db.users), QuerySecrets(db.users, db.secrets), QueryKeks(db.users, db.keks))
  }

  // ---- what the queries answer ----

  predicate SortedByName(lines: seq<SecretLine>) {
    forall i, j :: 0 <= i < j < |lines| ==> !Precedes(lines[j].name, lines[i].name)
  }

  lemma {:induction false} InsertKeepsRows(line: SecretLine, sorted: seq<SecretLine>)
    ensures multiset(InsertByName(line, sorted)) == multiset(sorted) + multiset{line}
  {
    if sorted == [] {
    } else {
      assert sorted == [sorted[0]] + sorted[1..];
      if Precedes(sorted[0].name, line.name) { InsertKeepsRows(line, sorted[1..]); }
    }
  }

  lemma {:induction false} PrecedesAsymmetric(a: string, b: string)
    requires Precedes(a, b)
    ensures !Precedes(b, a)
  {
    if a != "" && a[0] == b[0] { PrecedesAsymmetric(a[1..], b[1..]); }
  }

  lemma {:induction false} PrecedesTransitive(a: string, b: string, c: string)
    requires !Precedes(b, a) && !Precedes(c, b)
    ensures !Precedes(c, a)
  {
    if a != "" && b != "" && c != "" && a[0] == b[0] == c[0] { PrecedesTransitive(a[1..], b[1..], c[1..]); }
  }

  lemma {:induction false} InsertSorts(line: SecretLine, sorted: seq<SecretLine>)
    requires SortedByName(sorted)
    ensures SortedByName(InsertByName(line, sorted))
  {
    if sorted == [] {
    } else {
      if Precedes(sorted[0].name, line.name) {
        InsertSorts(line, sorted[1..]);
        PrecedesAsymmetric(sorted[0].name, line.name);
        InsertKeepsRows(line, sorted[1..]);
        var rest := InsertByName(line, sorted[1..]);
        forall j | 0 <= j < |rest| ensures !Precedes(rest[j].name, sorted[0].name) {
          assert rest[j] in multiset(rest);
          assert rest[j] == line || rest[j] in sorted[1..];
        }
      } else {
        PrecedesIrreflexive(sorted[0].name);
        forall j | 0 <= j < |sorted| ensures !Precedes(sorted[j].name, line.name) {
          PrecedesTransitive(line.name, sorted[0].name, sorted[j].name);
        }
      }
    }
  }

  lemma {:induction false} SortedSecrets(user: UserColumns, secrets: seq<SecretColumns>)
    ensures SortedByName(SecretsOf(user, secrets))
  {
    if secrets == [] {
    } else {
      SortedSecrets(user, secrets[1..]);
      InsertSorts(LineOf(user, secrets[0]), SecretsOf(user, secrets[1..]));
    }
  }

  // ---- the joins, row by row ----

  // a row of users and a row of the other table
  type Pair = (nat, nat)

  /** Each row of the other table joined to its owner, once for each pair, and the owners in their order. */
  ghost predicate IsJoin(pairs: seq<Pair>, ids: seq<nat>, owners: seq<nat>) {
    && (forall n :: 0 <= n < |pairs| ==> IsPair(pairs[n], ids, owners))
    && (forall k: nat, i: nat :: IsPair((k, i), ids, owners) ==> (k, i) in pairs)
    && UserByUser(pairs)
  }

  ghost predicate UserByUser(pairs: seq<Pair>) {
    forall n, m :: 0 <= n < m < |pairs| ==> pairs[n].0 <= pairs[m].0 && pairs[n] != pairs[m]
  }

  predicate IsPair(p: Pair, ids: seq<nat>, owners: seq<nat>) {
    p.0 < |ids| && p.1 < |owners| && ids[p.0] == owners[p.1]
  }

  /** The rows that belong to one user, each once. */
  ghost predicate IsOwned(rows: seq<nat>, id: nat, owners: seq<nat>) {
    && (forall n :: 0 <= n < |rows| ==> rows[n] < |owners| && owners[rows[n]] == id)
    && (forall i :: 0 <= i < |owners| && owners[i] == id ==> i in rows)
    && NoRepeats(rows)
  }

  /** The first user's pairs, then those of the others. */
  function JoinPairs(rows: seq<nat>, rest: seq<Pair>): (pairs: seq<Pair>)
    ensures |pairs| == |rows| + |rest|
  {
    seq(|rows| + |rest|, n requires 0 <= n < |rows| + |rest| =>
      if n < |rows| then (0, rows[n]) else (rest[n - |rows|].0 + 1, rest[n - |rows|].1))
  }

  lemma JoinCovers(rows: seq<nat>, rest: seq<Pair>, ids: seq<nat>, owners: seq<nat>, k: nat, i: nat)
    requires ids != [] && IsOwned(rows, ids[0], owners) && IsJoin(rest, ids[1..], owners) && IsPair((k, i), ids, owners)
    ensures (k, i) in JoinPairs(rows, rest)
  {
    var pairs := JoinPairs(rows, rest);
    if k == 0 {
      var n :| 0 <= n < |rows| && rows[n] == i;
      assert pairs[n] == (k, i);
    } else {
      assert IsPair((k - 1, i), ids[1..], owners);
      var n :| 0 <= n < |rest| && rest[n] == (k - 1, i);
      assert pairs[|rows| + n] == (k, i);
    }
  }

  lemma JoinUserByUser(rows: seq<nat>, rest: seq<Pair>)
    requires NoRepeats(rows) && UserByUser(rest)
    ensures UserByUser(JoinPairs(rows, rest))
  {
    var pairs := JoinPairs(rows, rest);
    forall n, m | 0 <= n < m < |pairs| ensures pairs[n].0 <= pairs[m].0 && pairs[n] != pairs[m] {
      if n >= |rows| { assert rest[n - |rows|] != rest[m - |rows|]; }
    }
  }

  lemma JoinFirst(rows: seq<nat>, rest: seq<Pair>, ids: seq<nat>, owners: seq<nat>)
    requires ids != [] && IsOwned(rows, ids[0], owners) && IsJoin(rest, ids[1..], owners)
    ensures IsJoin(JoinPairs(rows, rest), ids, owners)
  {
    hide UserByUser;
    hide NoRepeats;
    JoinUserByUser(rows, rest);
    var pairs := JoinPairs(rows, rest);
    forall k: nat, i: nat | IsPair((k, i), ids, owners) ensures (k, i) in pairs {
      JoinCovers(rows, rest, ids, owners, k, i);
    }
    forall n | 0 <= n < |pairs| ensures IsPair(pairs[n], ids, owners) {
      if n >= |rows| { assert IsPair(rest[n - |rows|], ids[1..], owners); }
    }
  }

  /** The rows after the first, renumbered. */
  function After(rows: seq<nat>): (r: seq<nat>)
    ensures |r| == |rows| && forall n :: 0 <= n < |rows| ==> r[n] == rows[n] + 1
  {
    seq(|rows|, n requires 0 <= n < |rows| => rows[n] + 1)
  }

  function Put<T>(s: seq<T>, p: nat, x: T): (r: seq<T>)
    requires p <= |s|
    ensures |r| == |s| + 1 && r[p] == x
    ensures forall n :: 0 <= n < p ==> r[n] == s[n]
    ensures forall n :: p < n < |r| ==> r[n] == s[n - 1]
  {
    s[..p] + [x] + s[p..]
  }

  lemma PutHas<T>(s: seq<T>, p: nat, x: T, y: T)
    requires p <= |s| && (y == x || y in s)
    ensures y in Put(s, p, x)
  {
    if y == x {
      assert Put(s, p, x)[p] == y;
    } else {
      var n :| 0 <= n < |s| && s[n] == y;
      assert Put(s, p, x)[if n < p then n else n + 1] == y;
    }
  }

  lemma LaterRows(rows: seq<nat>, id: nat, owners: seq<nat>, i: nat)
    requires owners != [] && IsOwned(rows, id, owners[1..]) && 0 < i < |owners| && owners[i] == id
    ensures i in After(rows)
  {
    assert owners[1..][i - 1] == id;
    var n :| 0 <= n < |rows| && rows[n] == i - 1;
    assert After(rows)[n] == i;
  }

  lemma LaterIsOwned(rows: seq<nat>, id: nat, owners: seq<nat>, n: nat)
    requires owners != [] && IsOwned(rows, id, owners[1..]) && n < |rows|
    ensures After(rows)[n] < |owners| && owners[After(rows)[n]] == id
  {
    assert owners[1..][rows[n]] == id;
  }

  lemma LaterNoRepeats(rows: seq<nat>)
    requires NoRepeats(rows)
    ensures NoRepeats(After(rows)) && 0 !in After(rows)
  {
  }

  /** A row in front that belongs to somebody else. */
  lemma OwnedLater(rows: seq<nat>, id: nat, owners: seq<nat>)
    requires owners != [] && IsOwned(rows, id, owners[1..]) && owners[0] != id
    ensures IsOwned(After(rows), id, owners)
  {
    hide NoRepeats;
    hide After;
    LaterNoRepeats(rows);
    forall i | 0 <= i < |owners| && owners[i] == id ensures i in After(rows) {
      LaterRows(rows, id, owners, i);
    }
    forall n | 0 <= n < |rows| ensures After(rows)[n] < |owners| && owners[After(rows)[n]] == id {
      LaterIsOwned(rows, id, owners, n);
    }
  }

  ghost predicate NoRepeats<T>(s: seq<T>) { forall n, m :: 0 <= n < m < |s| ==> s[n] != s[m] }

  lemma PutNoRepeats<T>(s: seq<T>, p: nat, x: T)
    requires p <= |s| && NoRepeats(s) && x !in s
    ensures NoRepeats(Put(s, p, x))
  {
    var r := Put(s, p, x);
    hide Put;
    forall n, m | 0 <= n < m < |r| ensures r[n] != r[m] {
      assert n != p ==> r[n] == s[if n < p then n else n - 1];
      assert m != p ==> r[m] == s[if m < p then m else m - 1];
    }
  }

  /** A row in front that belongs to the user goes to any position p. */
  lemma OwnedFirst(rows: seq<nat>, id: nat, owners: seq<nat>, p: nat)
    requires owners != [] && IsOwned(rows, id, owners[1..]) && p <= |rows| && owners[0] == id
    ensures IsOwned(Put(After(rows), p, 0), id, owners)
  {
    hide NoRepeats;
    hide After;
    hide Put;
    var later := After(rows);
    var all := Put<nat>(later, p, 0);
    LaterNoRepeats(rows);
    PutNoRepeats<nat>(later, p, 0);
    forall i | 0 <= i < |owners| && owners[i] == id ensures i in all {
      if i > 0 { LaterRows(rows, id, owners, i); }
      PutHas<nat>(later, p, 0, i);
    }
    forall n | 0 <= n < |all| ensures all[n] < |owners| && owners[all[n]] == id {
      if n != p { LaterIsOwned(rows, id, owners, if n < p then n else n - 1); }
    }
  }

  function UserIds(users: seq<UserColumns>): (ids: seq<nat>)
    ensures |ids| == |users| && forall i :: 0 <= i < |users| ==> ids[i] == users[i].id
  {
    seq(|users|, i requires 0 <= i < |users| => users[i].id)
  }

  function KekOwners(keks: seq<KekColumns>): (ids: seq<nat>)
    ensures |ids| == |keks| && forall i :: 0 <= i < |keks| ==> ids[i] == keks[i].userId
  {
    seq(|keks|, i requires 0 <= i < |keks| => keks[i].userId)
  }

  function SecretOwners(secrets: seq<SecretColumns>): (ids: seq<nat>)
    ensures |ids| == |secrets| && forall i :: 0 <= i < |secrets| ==> ids[i] == secrets[i].userId
  {
    seq(|secrets|, i requires 0 <= i < |secrets| => secrets[i].userId)
  }

  // ---- each line shows its rows ----

  predicate ShowsUser(line: UserLine, user: UserColumns) {
    line.username == user.username && line.createdAt == user.createdAt
  }

  predicate ShowsKek(line: KekLine, user: UserColumns, kek: KekColumns) {
    line.username == user.username && line.expiresAt == kek.expiresAt && line.version == kek.version
  }

  /** The size of the private key, never its bytes; a missing description is empty. */
  predicate ShowsSecret(line: SecretLine, user: UserColumns, secret: SecretColumns) {
    && line.username == user.username && line.name == secret.name && line.size == |secret.privateKey|
    && (line.hasPub <==> secret.publicKey.Some?)
    && (secret.description.Some? ==> line.description == secret.description.value)
    && (secret.description.None? ==> line.description == "")
    && line.updatedAt == secret.updatedAt
  }

  lemma {:induction false} UsersReported(users: seq<UserColumns>)
    ensures forall n :: 0 <= n < |users| ==> ShowsUser(QueryUsers(users)[n], users[n])
  {
    if users == [] {
    } else {
      UsersReported(users[1..]);
    }
  }

  /** Line n of the KEKs shows pair n. */
  ghost predicate KekLinesShow(lines: seq<KekLine>, pairs: seq<Pair>, users: seq<UserColumns>, keks: seq<KekColumns>) {
    && |lines| == |pairs|
    && forall n :: 0 <= n < |pairs| ==>
         && pairs[n].0 < |users| && pairs[n].1 < |keks|
         && ShowsKek(lines[n], users[pairs[n].0], keks[pairs[n].1])
  }

  ghost predicate OwnKeksShow(lines: seq<KekLine>, rows: seq<nat>, user: UserColumns, keks: seq<KekColumns>) {
    |lines| == |rows| && forall n :: 0 <= n < |rows| ==> rows[n] < |keks| && ShowsKek(lines[n], user, keks[rows[n]])
  }

  lemma OneMoreKek(lines: seq<KekLine>, rows: seq<nat>, user: UserColumns, keks: seq<KekColumns>)
    requires keks != [] && OwnKeksShow(lines, rows, user, keks[1..])
    ensures OwnKeksShow(lines, After(rows), user, keks)
    ensures OwnKeksShow([KekLine(user.username, keks[0].expiresAt, keks[0].version)] + lines,
                        Put(After(rows), 0, 0), user, keks)
  {
    forall n | 0 <= n < |rows| ensures ShowsKek(lines[n], user, keks[After(rows)[n]]) {
      assert keks[1..][rows[n]] == keks[After(rows)[n]];
    }
  }

  lemma {:induction false} KeksOfUser(user: UserColumns, keks: seq<KekColumns>) returns (rows: seq<nat>)
    ensures IsOwned(rows, user.id, KekOwners(keks)) && OwnKeksShow(KeksOf(user, keks), rows, user, keks)
  {
    if keks == [] {
      rows := [];
    } else {
      hide IsOwned;
      hide OwnKeksShow;
      hide After;
      hide Put;
      var rest := KeksOfUser(user, keks[1..]);
      assert KekOwners(keks)[1..] == KekOwners(keks[1..]);
      OneMoreKek(KeksOf(user, keks[1..]), rest, user, keks);
      if keks[0].userId == user.id {
        OwnedFirst(rest, user.id, KekOwners(keks), 0);
        rows := Put(After(rest), 0, 0);
      } else {
        OwnedLater(rest, user.id, KekOwners(keks));
        rows := After(rest);
      }
    }
  }

  lemma NextUsersKeks(mine: seq<KekLine>, others: seq<KekLine>, rows: seq<nat>, rest: seq<Pair>,
                      users: seq<UserColumns>, keks: seq<KekColumns>)
    requires users != [] && OwnKeksShow(mine, rows, users[0], keks) && KekLinesShow(others, rest, users[1..], keks)
    ensures KekLinesShow(mine + others, JoinPairs(rows, rest), users, keks)
  {
    hide ShowsKek;
  }

  lemma {:induction false} KeksJoined(users: seq<UserColumns>, keks: seq<KekColumns>) returns (pairs: seq<Pair>)
    ensures IsJoin(pairs, UserIds(users), KekOwners(keks)) && KekLinesShow(QueryKeks(users, keks), pairs, users, keks)
  {
    if users == [] {
      pairs := [];
    } else {
      hide IsOwned;
      hide IsJoin;
      hide KekLinesShow;
      hide OwnKeksShow;
      hide JoinPairs;
      hide KeksOf;
      var rows := KeksOfUser(users[0], keks);
      var rest := KeksJoined(users[1..], keks);
      assert UserIds(users)[1..] == UserIds(users[1..]);
      JoinFirst(rows, rest, UserIds(users), KekOwners(keks));
      NextUsersKeks(KeksOf(users[0], keks), QueryKeks(users[1..], keks), rows, rest, users, keks);
      pairs := JoinPairs(rows, rest);
    }
  }

  /** The position at which a line is inserted. */
  lemma {:induction false} InsertedAt(line: SecretLine, sorted: seq<SecretLine>) returns (p: nat)
    ensures p <= |sorted| && InsertByName(line, sorted) == Put(sorted, p, line)
  {
    if sorted == [] {
      p := 0;
    } else if Precedes(sorted[0].name, line.name) {
      p := InsertedAt(line, sorted[1..]);
      p := p + 1;
    } else {
      p := 0;
    }
  }

  lemma LineShows(user: UserColumns, secret: SecretColumns)
    ensures ShowsSecret(LineOf(user, secret), user, secret)
  {
  }

  ghost predicate AllShow(lines: seq<SecretLine>, rows: seq<nat>, user: UserColumns, secrets: seq<SecretColumns>) {
    && |lines| == |rows|
    && forall n :: 0 <= n < |rows| ==> rows[n] < |secrets| && ShowsSecret(lines[n], user, secrets[rows[n]])
  }

  lemma OneMoreShows(lines: seq<SecretLine>, rows: seq<nat>, user: UserColumns, secrets: seq<SecretColumns>, p: nat)
    requires secrets != [] && AllShow(lines, rows, user, secrets[1..]) && p <= |rows|
    ensures AllShow(lines, After(rows), user, secrets)
    ensures AllShow(Put(lines, p, LineOf(user, secrets[0])), Put(After(rows), p, 0), user, secrets)
  {
    LineShows(user, secrets[0]);
    hide LineOf;
    hide ShowsSecret;
    forall n | 0 <= n < |rows| ensures ShowsSecret(lines[n], user, secrets[After(rows)[n]]) {
      assert secrets[1..][rows[n]] == secrets[After(rows)[n]];
    }
  }

  lemma {:induction false} OneUsersSecrets(user: UserColumns, secrets: seq<SecretColumns>) returns (rows: seq<nat>)
    ensures IsOwned(rows, user.id, SecretOwners(secrets))
    ensures AllShow(SecretsOf(user, secrets), rows, user, secrets)
  {
    if secrets == [] {
      rows := [];
    } else {
      var later := OneUsersSecrets(user, secrets[1..]);
      assert SecretOwners(secrets)[1..] == SecretOwners(secrets[1..]);
      var lines := SecretsOf(user, secrets[1..]);
      if secrets[0].userId == user.id {
        var p := InsertedAt(LineOf(user, secrets[0]), lines);
        OwnedFirst(later, user.id, SecretOwners(secrets), p);
        OneMoreShows(lines, later, user, secrets, p);
        rows := Put(After(later), p, 0);
      } else {
        OwnedLater(later, user.id, SecretOwners(secrets));
        OneMoreShows(lines, later, user, secrets, 0);
        rows := After(later);
      }
      hide IsOwned;
      hide AllShow;
      hide InsertByName;
      hide LineOf;
    }
  }

  /** Line n of the secrets shows pair n, and within one user the names do not go down. */
  ghost predicate SecretLinesShow(lines: seq<SecretLine>, pairs: seq<Pair>, users: seq<UserColumns>,
                                  secrets: seq<SecretColumns>) {
    && |lines| == |pairs|
    && (forall n :: 0 <= n < |pairs| ==>
          && pairs[n].0 < |users| && pairs[n].1 < |secrets|
          && ShowsSecret(lines[n], users[pairs[n].0], secrets[pairs[n].1]))
    && forall n, m :: 0 <= n < m < |pairs| && pairs[n].0 == pairs[m].0 ==> !Precedes(lines[m].name, lines[n].name)
  }

  lemma NextUsersSecrets(mine: seq<SecretLine>, others: seq<SecretLine>, rows: seq<nat>, rest: seq<Pair>,
                         users: seq<UserColumns>, secrets: seq<SecretColumns>)
    requires users != [] && AllShow(mine, rows, users[0], secrets) && SortedByName(mine)
    requires SecretLinesShow(others, rest, users[1..], secrets)
    ensures SecretLinesShow(mine + others, JoinPairs(rows, rest), users, secrets)
  {
    hide ShowsSecret;
    hide Precedes;
    var lines, pairs := mine + others, JoinPairs(rows, rest);
    forall n, m | 0 <= n < m < |pairs| && pairs[n].0 == pairs[m].0 ensures !Precedes(lines[m].name, lines[n].name) {
      if n >= |rows| { assert rest[n - |rows|].0 == rest[m - |rows|].0; }
    }
  }

  lemma {:induction false} SecretsJoined(users: seq<UserColumns>, secrets: seq<SecretColumns>)
    returns (pairs: seq<Pair>)
    ensures IsJoin(pairs, UserIds(users), SecretOwners(secrets))
    ensures SecretLinesShow(QuerySecrets(users, secrets), pairs, users, secrets)
  {
    if users == [] {
      pairs := [];
    } else {
      hide IsOwned;
      hide IsJoin;
      hide SecretLinesShow;
      hide AllShow;
      hide SortedByName;
      hide JoinPairs;
      hide SecretsOf;
      var rows := OneUsersSecrets(users[0], secrets);
      SortedSecrets(users[0], secrets);
      var rest := SecretsJoined(users[1..], secrets);
      assert UserIds(users)[1..] == UserIds(users[1..]);
      JoinFirst(rows, rest, UserIds(users), SecretOwners(secrets));
      NextUsersSecrets(SecretsOf(users[0], secrets), QuerySecrets(users[1..], secrets), rows, rest, users, secrets);
      pairs := JoinPairs(rows, rest);
    }
  }

  lemma SameSecretLine(a: SecretLine, b: SecretLine, user: UserColumns, secret: SecretColumns)
    requires ShowsSecret(a, user, secret) && ShowsSecret(b, user, secret)
    ensures a == b
  {
  }

  /** A line is reported exactly for a secret joined to its owner. */
  lemma SecretsReported(users: seq<UserColumns>, secrets: seq<SecretColumns>, line: SecretLine)
    ensures line in QuerySecrets(users, secrets) <==>
            exists k, i :: 0 <= k < |users| && 0 <= i < |secrets| && secrets[i].userId == users[k].id
                           && ShowsSecret(line, users[k], secrets[i])
  {
    var pairs := SecretsJoined(users, secrets);
    var lines := QuerySecrets(users, secrets);
    hide QuerySecrets;
    hide ShowsSecret;
    if line in lines {
      var n :| 0 <= n < |lines| && lines[n] == line;
      assert IsPair(pairs[n], UserIds(users), SecretOwners(secrets));
    }
    forall k, i | 0 <= k < |users| && 0 <= i < |secrets| && secrets[i].userId == users[k].id
                  && ShowsSecret(line, users[k], secrets[i])
      ensures line in lines
    {
      assert IsPair((k, i), UserIds(users), SecretOwners(secrets));
      var n :| 0 <= n < |pairs| && pairs[n] == (k, i);
      SameSecretLine(lines[n], line, users[k], secrets[i]);
    }
  }

  /** A line is reported exactly for a KEK joined to its user. */
  lemma KeksReported(users: seq<UserColumns>, keks: seq<KekColumns>, line: KekLine)
    ensures line in QueryKeks(users, keks) <==>
            exists k, i :: 0 <= k < |users| && 0 <= i < |keks| && keks[i].userId == users[k].id
                           && ShowsKek(line, users[k], keks[i])
  {
    var pairs := KeksJoined(users, keks);
    var lines := QueryKeks(users, keks);
    hide QueryKeks;
    if line in lines {
      var n :| 0 <= n < |lines| && lines[n] == line;
      assert IsPair(pairs[n], UserIds(users), KekOwners(keks));
    }
    forall k, i | 0 <= k < |users| && 0 <= i < |keks| && keks[i].userId == users[k].id
                  && ShowsKek(line, users[k], keks[i])
      ensures line in lines
    {
      assert IsPair((k, i), UserIds(users), KekOwners(keks));
      var n :| 0 <= n < |pairs| && pairs[n] == (k, i);
      assert lines[n] == line;
    }
  }

  /**
   A document reports the tables: line n of the users is row n, and lines of secrets and of KEKs are the
   joined pairs, each once, user by user, a user's secrets in the order of their names.
   */
  ghost predicate Reports(db: ExportTables, d: Document, secretPairs: seq<Pair>, kekPairs: seq<Pair>) {
    && |d.users| == |db.users| && (forall n :: 0 <= n < |d.users| ==> ShowsUser(d.users[n], db.users[n]))
    && IsJoin(secretPairs, UserIds(db.users), SecretOwners(db.secrets))
    && SecretLinesShow(d.secrets, secretPairs, db.users, db.secrets)
    && IsJoin(kekPairs, UserIds(db.users), KekOwners(db.keks))
    && KekLinesShow(d.keks, kekPairs, db.users, db.keks)
  }

  /** What the three queries answer together. */
  lemma TablesReported(db: ExportTables) returns (secretPairs: seq<Pair>, kekPairs: seq<Pair>)
    ensures Reports(db, Query(db), secretPairs, kekPairs)
  {
    UsersReported(db.users);
    secretPairs := SecretsJoined(db.users, db.secrets);
    kekPairs := KeksJoined(db.users, db.keks);
    hide IsJoin;
    hide ShowsSecret;
    hide ShowsKek;
    hide ShowsUser;
  }

  // ---- what a redacted export may depend on ----

  function Anonymous(i: nat): string { "user_" + IntText(i + 1) }

  function BoolText(b: bool): string { if b then "true" else "false" }

  /** The document that a redacted export shows: user names replaced, everything else kept. */
  function Redacted(d: Document): (r: Document)
    ensures |r.users| == |d.users| && |r.secrets| == |d.secrets| && |r.keks| == |d.keks|
  {
    Document(seq(|d.users|, i requires 0 <= i < |d.users| => d.users[i].(username := Anonymous(i))),
             seq(|d.secrets|, i requires 0 <= i < |d.secrets| => d.secrets[i].(username := "redacted")),
             seq(|d.keks|, i requires 0 <= i < |d.keks| => d.keks[i].(username := "redacted")))
  }

  /** user_n, with n in decimal digits. */
  predicate IsNumbered(name: string, n: nat) {
    |name| > 5 && name[..5] == "user_" && ReadInt(name[5..]) == Some(n) && !LeadingZero(name[5..])
  }

  lemma AnonymousIsNumbered(i: nat)
    ensures IsNumbered(Anonymous(i), i + 1)
  {
    ReadIntText(i + 1);
    NoLeadingZero(i + 1);
    hide ReadInt;
    hide LeadingZero;
    assert Anonymous(i)[5..] == IntText(i + 1);
  }

  /** User number i, counted from 1, is user_i; nobody's secret or KEK has a name on it; the rest is as it was. */
  lemma RedactedShows(d: Document)
    ensures var r := Redacted(d);
      && (forall i :: 0 <= i < |d.users| ==>
            IsNumbered(r.users[i].username, i + 1) && r.users[i].createdAt == d.users[i].createdAt)
      && (forall i :: 0 <= i < |d.secrets| ==> ShowsRedacted(r.secrets[i], d.secrets[i]))
      && (forall i :: 0 <= i < |d.keks| ==>
            && r.keks[i].username == "redacted"
            && r.keks[i].expiresAt == d.keks[i].expiresAt && r.keks[i].version == d.keks[i].version)
  {
    hide IsNumbered;
    hide Anonymous;
    forall i | 0 <= i < |d.users| ensures IsNumbered(Redacted(d).users[i].username, i + 1) {
      AnonymousIsNumbered(i);
    }
  }

  predicate ShowsRedacted(line: SecretLine, original: SecretLine) {
    && line.username == "redacted" && line.name == original.name && line.size == original.size
    && line.hasPub == original.hasPub && line.description == original.description
    && line.updatedAt == original.updatedAt
  }

  /** The same row but for the user name. */
  ghost predicate UsersAlike(a: seq<UserColumns>, b: seq<UserColumns>) {
    |a| == |b| && forall i :: 0 <= i < |a| ==> a[i].id == b[i].id && a[i].createdAt == b[i].createdAt
  }

  /** The same row but for the bytes, not the number of bytes, of the private key. */
  ghost predicate SecretsAlike(a: seq<SecretColumns>, b: seq<SecretColumns>) {
    && |a| == |b|
    && forall i :: 0 <= i < |a| ==>
        |a[i].privateKey| == |b[i].privateKey| && a[i].(privateKey := b[i].privateKey) == b[i]
  }

  /** Two databases that differ only in user names and in the bytes of private keys. */
  ghost predicate Alike(a: ExportTables, b: ExportTables) {
    UsersAlike(a.users, b.users) && SecretsAlike(a.secrets, b.secrets) && a.keks == b.keks
  }

  ghost predicate UserLinesAlike(a: seq<UserLine>, b: seq<UserLine>) {
    |a| == |b| && forall i :: 0 <= i < |a| ==> a[i].createdAt == b[i].createdAt
  }

  ghost predicate SecretLinesAlike(a: seq<SecretLine>, b: seq<SecretLine>) {
    |a| == |b| && forall i :: 0 <= i < |a| ==> a[i].(username := b[i].username) == b[i]
  }

  ghost predicate KekLinesAlike(a: seq<KekLine>, b: seq<KekLine>) {
    |a| == |b| && forall i :: 0 <= i < |a| ==> a[i].(username := b[i].username) == b[i]
  }

  ghost predicate DocumentsAlike(a: Document, b: Document) {
    UserLinesAlike(a.users, b.users) && SecretLinesAlike(a.secrets, b.secrets) && KekLinesAlike(a.keks, b.keks)
  }

  lemma AlikeRedacted(a: Document, b: Document)
    requires DocumentsAlike(a, b)
    ensures Redacted(a) == Redacted(b)
  {
    forall i | 0 <= i < |a.secrets|
      ensures a.secrets[i].(username := "redacted") == b.secrets[i].(username := "redacted")
    {
      assert a.secrets[i].(username := b.secrets[i].username) == b.secrets[i];
    }
    forall i | 0 <= i < |a.keks| ensures a.keks[i].(username := "redacted") == b.keks[i].(username := "redacted") {
      assert a.keks[i].(username := b.keks[i].username) == b.keks[i];
    }
    assert Redacted(a).users == Redacted(b).users;
    assert Redacted(a).secrets == Redacted(b).secrets;
    assert Redacted(a).keks == Redacted(b).keks;
  }

  lemma {:induction false} QueryUsersAlike(a: seq<UserColumns>, b: seq<UserColumns>)
    requires UsersAlike(a, b)
    ensures UserLinesAlike(QueryUsers(a), QueryUsers(b))
  {
    if a == [] {
    } else {
      QueryUsersAlike(a[1..], b[1..]);
    }
  }

  lemma {:induction false} InsertAlike(x: SecretLine, y: SecretLine, a: seq<SecretLine>, b: seq<SecretLine>)
    requires x.(username := y.username) == y && SecretLinesAlike(a, b)
    ensures SecretLinesAlike(InsertByName(x, a), InsertByName(y, b))
  {
    if a != [] && Precedes(a[0].name, x.name) { InsertAlike(x, y, a[1..], b[1..]); }
  }

  lemma {:induction false} SecretsOfAlike(u: UserColumns, v: UserColumns, a: seq<SecretColumns>, b: seq<SecretColumns>)
    requires u.id == v.id && SecretsAlike(a, b)
    ensures SecretLinesAlike(SecretsOf(u, a), SecretsOf(v, b))
  {
    if a == [] {
    } else {
      SecretsOfAlike(u, v, a[1..], b[1..]);
      if a[0].userId == u.id {
        InsertAlike(LineOf(u, a[0]), LineOf(v, b[0]), SecretsOf(u, a[1..]), SecretsOf(v, b[1..]));
      }
    }
  }

  lemma {:induction false} QuerySecretsAlike(us: seq<UserColumns>, vs: seq<UserColumns>, a: seq<SecretColumns>,
                                             b: seq<SecretColumns>)
    requires UsersAlike(us, vs) && SecretsAlike(a, b)
    ensures SecretLinesAlike(QuerySecrets(us, a), QuerySecrets(vs, b))
  {
    if us == [] {
    } else {
      SecretsOfAlike(us[0], vs[0], a, b);
      QuerySecretsAlike(us[1..], vs[1..], a, b);
    }
  }

  lemma {:induction false} KeksOfAlike(u: UserColumns, v: UserColumns, keks: seq<KekColumns>)
    requires u.id == v.id
    ensures KekLinesAlike(KeksOf(u, keks), KeksOf(v, keks))
  {
    if keks == [] {
    } else {
      KeksOfAlike(u, v, keks[1..]);
    }
  }

  lemma {:induction false} QueryKeksAlike(us: seq<UserColumns>, vs: seq<UserColumns>, keks: seq<KekColumns>)
    requires UsersAlike(us, vs)
    ensures KekLinesAlike(QueryKeks(us, keks), QueryKeks(vs, keks))
  {
    if us == [] {
    } else {
      KeksOfAlike(us[0], vs[0], keks);
      QueryKeksAlike(us[1..], vs[1..], keks);
    }
  }

  /** The queries return the same lines, in the same order, but for the user names. */
  lemma QueriesAlike(a: ExportTables, b: ExportTables)
    requires Alike(a, b)
    ensures DocumentsAlike(Query(a), Query(b))
  {
    QueryUsersAlike(a.users, b.users);
    QuerySecretsAlike(a.users, b.users, a.secrets, b.secrets);
    QueryKeksAlike(a.users, b.users, a.keks);
  }

  // ---- reading rows one by one ----

  function ReadAll<A, B>(xs: seq<A>, read: A -> Option<B>): Option<seq<B>> {
    if xs == [] then Some([])
    else match (read(xs[0]), ReadAll(xs[1..], read))
      case (Some(y), Some(ys)) => Some([y] + ys)
      case _ => None
  }

  lemma {:induction false} ReadAllInverts<A, B>(xs: seq<A>, read: A -> Option<B>, ys: seq<B>)
    requires |xs| == |ys| && forall i :: 0 <= i < |xs| ==> read(xs[i]) == Some(ys[i])
    ensures ReadAll(xs, read) == Some(ys)
  {
    if xs == [] {
    } else {
      ReadAllInverts(xs[1..], read, ys[1..]);
      assert ys == [ys[0]] + ys[1..];
    }
  }
}
