/**
 The engine in the form the program has: a database object whose statements change the tables in
 place inside a transaction, and a handle whose calls go through it step by step. Every method is
 proved to do what the corresponding function of module Vault says.
 */
module Engine {
  import opened Types
  import opened Crypto
  import opened Calendar
  import opened Tables
  import opened KeyCache
  import opened Vault

  /** One connection. A transaction is a snapshot of the tables to roll back to. */
  class Database {
    var users: map<string, UserRow>
    var keks: map<nat, KekRow>
    var secrets: map<SecretKey, SecretRow>
    var lastUser: nat
    var lastSecret: nat
    var log: seq<LogEntry>
    var saved: Option<Tables>

    constructor ()
      ensures Value() == EMPTY && log == [] && saved == None
    {
      users, keks, secrets, lastUser, lastSecret := map[], map[], map[], 0, 0;
      log, saved := [], None;
    }

    function Value(): Tables
      reads this
    {
      Tables(users, keks, secrets, lastUser, lastSecret)
    }

    method Begin()
      modifies this`saved
      ensures saved == Some(Value())
    {
      saved := Some(Tables(users, keks, secrets, lastUser, lastSecret));
    }

    method Commit()
      modifies this`saved
      ensures saved == None
    {
      saved := None;
    }

    method Rollback()
      requires saved.Some?
      modifies this
      ensures Value() == old(saved).value && saved == None && log == old(log)
    {
      users, keks, secrets := saved.value.users, saved.value.keks, saved.value.secrets;
      lastUser, lastSecret := saved.value.lastUser, saved.value.lastSecret;
      saved := None;
    }

    method UsersFindByUsername(username: string, env: Env) returns (row: Option<UserRow>)
      ensures row == LookupUser(Value(), username, env)
    {
      if env.fails(FindUser) || username !in users { return None; }
      return Some(users[username]);
    }

    method UsersCreate(username: string, hash: Token, env: Env) returns (id: Option<nat>)
      modifies this
      ensures id == if env.fails(AddUser) || username in old(users) then None else Some(old(lastUser) + 1)
      ensures Value() == if id.Some? then InsertUser(old(Value()), username, hash) else old(Value())
      ensures log == old(log) && saved == old(saved)
    {
      if env.fails(AddUser) || username in users { return None; }
      lastUser := lastUser + 1;
      users := users[username := UserRow(lastUser, hash)];
      return Some(lastUser);
    }

    method UsersDelete(userId: nat, env: Env) returns (ok: bool)
      modifies this
      ensures ok == (!env.fails(RemoveUser) && HasId(old(users), userId))
      ensures Value() == if ok then DeleteUser(old(Value()), userId) else old(Value())
      ensures log == old(log) && saved == old(saved)
    {
      if env.fails(RemoveUser) || !(exists u :: u in users && users[u].id == userId) { return false; }
      users := map u | u in users && users[u].id != userId :: users[u];
      keks := keks - {userId};
      secrets := map k | k in secrets && k.owner != userId :: secrets[k];
      return true;
    }

    method KekStore(userId: nat, wrapped: Token, salt: Token, expiresAt: string, env: Env) returns (ok: bool)
      modifies this
      ensures ok == (!env.fails(AddKek) && userId !in old(keks) && HasId(old(users), userId))
      ensures Value() == if ok then InsertKek(old(Value()), userId, wrapped, salt, expiresAt) else old(Value())
      ensures log == old(log) && saved == old(saved)
    {
      if env.fails(AddKek) || userId in keks { return false; }
      if !(exists u :: u in users && users[u].id == userId) { return false; }  // FOREIGN KEY
      keks := keks[userId := KekRow(wrapped, salt, expiresAt, 1)];
      return true;
    }

    method KekFindByUser(userId: nat, env: Env) returns (row: Option<KekRow>)
      ensures row == LookupKek(Value(), userId, env)
    {
      if env.fails(FindKek) || userId !in keks { return None; }
      return Some(keks[userId]);
    }

    /** Compare and increment: a stale expected version changes nothing and answers false. */
    method KekUpdate(userId: nat, wrapped: Token, salt: Token, expiresAt: string, expected: int, env: Env)
      returns (ok: bool)
      modifies this
      ensures ok == (expected >= 1 && !env.fails(UpdateKek)
                     && userId in old(keks) && old(keks)[userId].version == expected)
      ensures Value() == if ok then ReplaceKek(old(Value()), userId, wrapped, salt, expiresAt, expected)
                         else old(Value())
      ensures log == old(log) && saved == old(saved)
    {
      if expected < 1 || env.fails(UpdateKek) { return false; }
      if userId !in keks || keks[userId].version != expected { return false; }
      keks := keks[userId := KekRow(wrapped, salt, expiresAt, keks[userId].version + 1)];
      return true;
    }

    method SecretsStore(userId: nat, name: string, box: Sealed, nonce: Token, pub: Bytes, description: string, env: Env)
      returns (ok: bool)
      modifies this
      ensures ok == (!env.fails(AddSecret) && SecretKey(userId, name) !in old(secrets) && HasId(old(users), userId))
      ensures Value() == if ok then InsertSecret(old(Value()), userId, name, box, nonce, pub, description,
                                                 Format(env.now))
                         else old(Value())
      ensures log == old(log) && saved == old(saved)
    {
      hide Format;
      if env.fails(AddSecret) || SecretKey(userId, name) in secrets { return false; }
      if !(exists u :: u in users && users[u].id == userId) { return false; }  // FOREIGN KEY
      lastSecret := lastSecret + 1;
      secrets := secrets[SecretKey(userId, name) := SecretRow(lastSecret, box, nonce, pub, description,
                                                              Format(env.now))];
      return true;
    }

    method SecretsFind(userId: nat, name: string, env: Env) returns (row: Option<SecretRow>)
      ensures row == if env.fails(FindSecret) || SecretKey(userId, name) !in secrets then None
                     else Some(secrets[SecretKey(userId, name)])
    {
      if env.fails(FindSecret) || SecretKey(userId, name) !in secrets { return None; }
      return Some(secrets[SecretKey(userId, name)]);
    }

    method SecretsDelete(userId: nat, name: string, env: Env) returns (ok: bool)
      modifies this
      ensures ok == (!env.fails(RemoveSecret) && SecretKey(userId, name) in old(secrets))
      ensures Value() == if ok then DeleteSecret(old(Value()), userId, name) else old(Value())
      ensures log == old(log) && saved == old(saved)
    {
      if env.fails(RemoveSecret) || SecretKey(userId, name) !in secrets { return false; }
      secrets := secrets - {SecretKey(userId, name)};
      return true;
    }

    /** Steps over the rows in the order, and up to the point, that the scan gives. */
    method SecretsListForUser(userId: nat, env: Env) returns (rows: Option<seq<(string, SecretRow)>>)
      ensures rows == if env.fails(ListSecrets) then None else Some(Rows(Value(), userId, env.scan))
    {
      if env.fails(ListSecrets) { return None; }
      var out := [];
      for i := 0 to |env.scan|
        invariant out == Rows(Value(), userId, env.scan[..i])
      {
        assert env.scan[..i + 1][..i] == env.scan[..i];
        var key := SecretKey(userId, env.scan[i]);
        if key in secrets {
          out := out + [(key.name, secrets[key])];
        }
      }
      assert env.scan[..|env.scan|] == env.scan;
      return Some(out);
    }

    method SecretsUpdateBox(id: nat, box: Sealed, nonce: Token, pub: Bytes, updatedAt: string)
      modifies this`secrets
      ensures Value() == ReplaceBox(old(Value()), id, box, nonce, pub, updatedAt)
    {
      secrets := map k | k in secrets ::
        if secrets[k].id == id then secrets[k].(box := box, nonce := nonce, pub := pub, updatedAt := updatedAt)
        else secrets[k];
    }

    method UsersUpdateHash(userId: nat, hash: Token, env: Env) returns (ok: bool)
      modifies this`users
      ensures ok == !env.fails(UpdateHash)
      ensures Value() == if ok then SetHash(old(Value()), userId, hash) else old(Value())
    {
      if env.fails(UpdateHash) { return false; }
      users := map u | u in users :: if users[u].id == userId then UserRow(userId, hash) else users[u];
      return true;
    }

    method KekUpdateWrapped(userId: nat, wrapped: Token, env: Env) returns (ok: bool)
      modifies this`keks
      ensures ok == !env.fails(UpdateKek)
      ensures Value() == if ok then SetWrapped(old(Value()), userId, wrapped) else old(Value())
    {
      if env.fails(UpdateKek) { return false; }
      if userId in keks {
        keks := keks[userId := keks[userId].(wrapped := wrapped)];
      }
      return true;
    }

    method AuditWrite(userId: nat, username: string, operation: string, result: Status, target: Option<string>,
                      env: Env)
      modifies this`log
      ensures log == if env.fails(WriteAudit) then old(log)
                     else old(log) + [LogEntry(userId, username, operation, result, target)]
    {
      if !env.fails(WriteAudit) {
        log := log + [LogEntry(userId, username, operation, result, target)];
      }
    }
  }

  // ---- kek_rotate ----

  /** One of the first n rows delivered has this name. */
  predicate Visited(rows: seq<(string, SecretRow)>, n: nat, name: string)
    requires n <= |rows|
  {
    exists j :: 0 <= j < n && rows[j].0 == name
  }

  predicate PrefixOpens(c: Suite, raw: Token, rows: seq<(string, SecretRow)>, n: nat)
    requires n <= |rows|
  {
    forall j :: 0 <= j < n ==> Opens(c, raw, rows[j].1)
  }

  predicate PrefixSucceeds(rows: seq<(string, SecretRow)>, n: nat, env: Env)
    requires n <= |rows|
  {
    forall j :: 0 <= j < n ==> !env.fails(Reseal(rows[j].0))
  }

  /** The rows are rows of the user, as the table has them. */
  ghost predicate FromTable(t: Tables, id: nat, rows: seq<(string, SecretRow)>) {
    forall j :: 0 <= j < |rows| ==>
        SecretKey(id, rows[j].0) in t.secrets && t.secrets[SecretKey(id, rows[j].0)] == rows[j].1
  }

  /** The secrets table when the first n delivered rows are under the new KEK and the rest under the old. */
  ghost function Resealing(c: Suite, t: Tables, id: nat, raw: Token, rows: seq<(string, SecretRow)>, n: nat, env: Env)
    : map<SecretKey, SecretRow>
    requires n <= |rows| && FromTable(t, id, rows) && PrefixOpens(c, raw, rows, n)
  {
    map k | k in t.secrets ::
      if k.owner == id && Visited(rows, n, k.name) then Resealed(c, raw, k.name, t.secrets[k], env) else t.secrets[k]
  }

  lemma {:induction false} RowsFromTable(t: Tables, id: nat, scan: seq<string>)
    ensures FromTable(t, id, Rows(t, id, scan))
    ensures forall k :: k in t.secrets && k.owner == id ==>
      (k.name in scan <==> Visited(Rows(t, id, scan), |Rows(t, id, scan)|, k.name))
  {
    if scan == [] {
    } else {
      var n := |scan| - 1;
      RowsFromTable(t, id, scan[..n]);
      var rest, rows := Rows(t, id, scan[..n]), Rows(t, id, scan);
      forall k | k in t.secrets && k.owner == id
        ensures k.name in scan <==> Visited(rows, |rows|, k.name)
      {
        assert k == SecretKey(id, k.name);
        assert k.name in scan <==> k.name in scan[..n] || k.name == scan[n];
        if k.name == scan[n] {
          assert rows[|rows| - 1].0 == k.name;
        } else if Visited(rest, |rest|, k.name) {
          var j :| 0 <= j < |rest| && rest[j].0 == k.name;
          assert rows[j].0 == k.name;
        }
      }
    }
  }

  /** Visiting row n changes that row and no other. */
  lemma ResealAt(c: Suite, t: Tables, id: nat, raw: Token, rows: seq<(string, SecretRow)>, n: nat, env: Env,
                 k: SecretKey)
    requires n < |rows| && FromTable(t, id, rows) && PrefixOpens(c, raw, rows, n + 1) && k in t.secrets
    ensures var before, after := Resealing(c, t, id, raw, rows, n, env), Resealing(c, t, id, raw, rows, n + 1, env);
      && before[k].id == t.secrets[k].id
      && (k == SecretKey(id, rows[n].0) ==> after[k] == Resealed(c, raw, rows[n].0, rows[n].1, env))
      && (k != SecretKey(id, rows[n].0) ==> after[k] == before[k])
  {
    hide Format;
    assert Visited(rows, n + 1, rows[n].0);
    if k != SecretKey(id, rows[n].0) && k.owner == id && Visited(rows, n + 1, k.name) {
      var j :| 0 <= j < n + 1 && rows[j].0 == k.name;
      assert Visited(rows, n, k.name);
    }
  }

  /** Writing one more row by its id moves it, and only it, under the new KEK. */
  lemma ResealOne(c: Suite, t: Tables, id: nat, raw: Token, rows: seq<(string, SecretRow)>, n: nat, env: Env)
    requires SecretIds(t.secrets, t.lastSecret) && n < |rows| && FromTable(t, id, rows)
    requires PrefixOpens(c, raw, rows, n + 1)
    ensures var row := rows[n].1;
      var row' := Resealed(c, raw, rows[n].0, row, env);
      var t1 := t.(secrets := Resealing(c, t, id, raw, rows, n, env));
      ReplaceBox(t1, row.id, row'.box, row'.nonce, row.pub, Format(env.now)) ==
      t.(secrets := Resealing(c, t, id, raw, rows, n + 1, env))
  {
    hide Format;
    hide Visited;
    var row, key := rows[n].1, SecretKey(id, rows[n].0);
    assert t.secrets[key] == row;
    forall k | k in t.secrets
      ensures var before, after := Resealing(c, t, id, raw, rows, n, env), Resealing(c, t, id, raw, rows, n + 1, env);
        && before[k].id == t.secrets[k].id && (t.secrets[k].id == row.id <==> k == key)
        && (k == key ==> after[k] == Resealed(c, raw, rows[n].0, row, env))
        && (k != key ==> after[k] == before[k])
    {
      ResealAt(c, t, id, raw, rows, n, env, k);
    }
  }

  /** The rows delivered all open, and none of their updates fails, just when the scanned keys say so. */
  lemma ScannedIsVisited(c: Suite, t: Tables, id: nat, raw: Token, env: Env)
    ensures var rows := Rows(t, id, env.scan);
      && FromTable(t, id, rows)
      && (AllOpen(c, t, id, raw, env.scan) <==> PrefixOpens(c, raw, rows, |rows|))
      && (SomeResealFails(t, id, env) <==> !PrefixSucceeds(rows, |rows|, env))
      && (PrefixOpens(c, raw, rows, |rows|) && AllOpen(c, t, id, raw, env.scan) ==>
            Resealing(c, t, id, raw, rows, |rows|, env) == ResealScanned(c, t, id, raw, env))
  {
    hide Format;
    hide Resealed;
    RowsFromTable(t, id, env.scan);
    var rows := Rows(t, id, env.scan);
    forall k | k in t.secrets && Scanned(k, id, env.scan)
      ensures exists j :: 0 <= j < |rows| && rows[j].0 == k.name && rows[j].1 == t.secrets[k]
    {
      var j :| 0 <= j < |rows| && rows[j].0 == k.name;
      assert k == SecretKey(id, rows[j].0);
    }
    forall j | 0 <= j < |rows| ensures Scanned(SecretKey(id, rows[j].0), id, env.scan) {
      assert Visited(rows, |rows|, SecretKey(id, rows[j].0).name);
    }
  }

  lemma PrefixGrows(c: Suite, raw: Token, rows: seq<(string, SecretRow)>, n: nat, env: Env)
    requires n < |rows|
    ensures PrefixOpens(c, raw, rows, n + 1) <==> PrefixOpens(c, raw, rows, n) && Opens(c, raw, rows[n].1)
    ensures PrefixSucceeds(rows, n + 1, env) <==> PrefixSucceeds(rows, n, env) && !env.fails(Reseal(rows[n].0))
    ensures PrefixOpens(c, raw, rows, |rows|) ==> Opens(c, raw, rows[n].1)
    ensures PrefixSucceeds(rows, |rows|, env) ==> !env.fails(Reseal(rows[n].0))
  {
  }

  lemma NothingYet(c: Suite, t: Tables, id: nat, raw: Token, rows: seq<(string, SecretRow)>, env: Env)
    requires FromTable(t, id, rows)
    ensures PrefixOpens(c, raw, rows, 0) && PrefixSucceeds(rows, 0, env)
    ensures t.secrets == Resealing(c, t, id, raw, rows, 0, env)
  {
  }

  /** The re-encryption loop of kek_rotate: stops at the first row that does not open or update. */
  method ResealRows(c: Suite, db: Database, id: nat, raw: Token, rows: seq<(string, SecretRow)>, env: Env)
    returns (ok: bool)
    requires SecretIds(db.secrets, db.lastSecret) && FromTable(db.Value(), id, rows)
    modifies db`secrets
    ensures ok == (PrefixOpens(c, raw, rows, |rows|) && PrefixSucceeds(rows, |rows|, env))
    ensures ok ==> db.secrets == Resealing(c, old(db.Value()), id, raw, rows, |rows|, env)
  {
    hide Format;
    hide Resealed;
    hide SecretIds;
    hide FromTable;
    hide PrefixOpens;
    hide PrefixSucceeds;
    hide Resealing;
    ghost var t := db.Value();
    NothingYet(c, t, id, raw, rows, env);
    for i := 0 to |rows|
      invariant PrefixOpens(c, raw, rows, i) && PrefixSucceeds(rows, i, env)
      invariant db.secrets == Resealing(c, t, id, raw, rows, i, env)
    {
      PrefixGrows(c, raw, rows, i, env);
      var (name, secret) := rows[i];
      var plain := c.open(raw, secret.nonce, secret.box);
      if plain.None? || env.fails(Reseal(name)) {
        return false;
      }
      var nonce := env.nonceFor(name);
      var box := c.seal(env.kek, nonce, plain.value);
      ResealOne(c, t, id, raw, rows, i, env);
      ResealedFields(c, raw, name, secret, env);
      db.SecretsUpdateBox(secret.id, box, nonce, secret.pub, Format(env.now));
    }
    return true;
  }

  lemma ResealedFields(c: Suite, raw: Token, name: string, row: SecretRow, env: Env)
    requires Opens(c, raw, row)
    ensures var row' := Resealed(c, raw, name, row, env);
      && row'.nonce == env.nonceFor(name)
      && row'.box == c.seal(env.kek, env.nonceFor(name), c.open(raw, row.nonce, row.box).value)
  {
  }

  /** kek_rotate: commits the whole rotation or leaves the tables as they were. */
  method KekRotate(c: Suite, db: Database, userId: nat, hash: Token, env: Env) returns (ok: bool)
    requires SecretIds(db.secrets, db.lastSecret)
    modifies db
    ensures ok == RotateTx(c, old(db.Value()), userId, hash, env).Some?
    ensures db.Value() == if ok then RotateTx(c, old(db.Value()), userId, hash, env).value else old(db.Value())
    ensures db.log == old(db.log)
  {
    if env.fails(Allocate) { return false; }
    db.Begin();
    ok := RotateBody(c, db, userId, hash, env);
    if ok { db.Commit(); } else { db.Rollback(); }
  }

  /** The statements between BEGIN and COMMIT or ROLLBACK; what it leaves behind on failure is rolled back. */
  method RotateBody(c: Suite, db: Database, userId: nat, hash: Token, env: Env) returns (ok: bool)
    requires SecretIds(db.secrets, db.lastSecret) && !env.fails(Allocate)
    modifies db
    ensures db.log == old(db.log) && db.saved == old(db.saved)
    ensures ok == RotateTx(c, old(db.Value()), userId, hash, env).Some?
    ensures ok ==> db.Value() == RotateTx(c, old(db.Value()), userId, hash, env).value
  {
    hide Format;
    hide Resealing;
    hide ResealScanned;
    hide AllOpen;
    hide SomeResealFails;
    hide SecretIds;
    ghost var t := db.Value();
    ok := false;
    var oldKek := db.KekFindByUser(userId, env);
    if oldKek.None? { return; }
    if env.fails(Derive) || env.fails(UnwrapKek) { return; }
    var raw := c.unwrap(c.derive(hash, oldKek.value.salt), oldKek.value.wrapped);
    if raw.None? { return; }
    var rows := db.SecretsListForUser(userId, env);
    if rows.None? { return; }
    if env.fails(WrapKek) { return; }
    var wrapped := c.wrap(c.derive(hash, env.kekSalt), env.kek);
    if env.fails(PrepareUpdate) { return; }
    ScannedIsVisited(c, t, userId, raw.value, env);
    var resealed := ResealRows(c, db, userId, raw.value, rows.value, env);
    if !resealed { return; }
    ok := db.KekUpdate(userId, wrapped, env.kekSalt, ExpiresAt(env.now), oldKek.value.version, env);
  }
}
