/**
 What it means for the tables to hold a plain map, and that every statement group of the engine
 moves one account from one meaning to the next.
 */
module Representation {
  import opened Types
  import opened Crypto
  import opened Calendar
  import opened Tables
  import opened Vault
  import opened PlainVault

  ghost predicate IsPasswordOf(c: Suite, password: string, hash: Token) {
    forall p :: c.verifyPassword(p, hash) <==> p == password
  }

  /** The raw KEK of a user id under a password hash. */
  function RawOf(c: Suite, hash: Token, keks: map<nat, KekRow>, id: nat): Option<Token> {
    if id in keks then RawKek(c, hash, keks[id]) else None
  }

  /** A KEK row stands for a deadline and a version, and unwraps under the user's hash. */
  ghost predicate RepKey(c: Suite, hash: Token, keks: map<nat, KekRow>, id: nat, key: Option<Key>) {
    && (id in keks <==> key.Some?)
    && (key.Some? ==>
          && RawKek(c, hash, keks[id]).Some?
          && Parse(keks[id].expiresAt) == Some(key.value.deadline)
          && keks[id].version == key.value.version)
  }

  /** A secret row opens under the user's KEK to the entry's private key. */
  ghost predicate RepEntry(c: Suite, raw: Option<Token>, row: SecretRow, e: Entry) {
    && raw.Some?
    && c.open(raw.value, row.nonce, row.box) == Some(e.priv)
    && |row.box.ciphertext| == |e.priv|
    && row.pub == e.pub && row.description == e.description && row.updatedAt == e.updatedAt
  }

  ghost predicate RepSecrets(c: Suite, raw: Option<Token>, secrets: map<SecretKey, SecretRow>, id: nat,
                             entries: map<string, Entry>)
  {
    && (forall n :: SecretKey(id, n) in secrets <==> n in entries)
    && (forall n :: n in entries ==> RepEntry(c, raw, secrets[SecretKey(id, n)], entries[n]))
  }

  ghost predicate RepAccount(c: Suite, t: Tables, user: UserRow, acc: Account) {
    && IsPasswordOf(c, acc.password, user.hash)
    && RepKey(c, user.hash, t.keks, user.id, acc.key)
    && RepSecrets(c, RawOf(c, user.hash, t.keks, user.id), t.secrets, user.id, acc.secrets)
  }

  /** One user's rows stand for what the plain map says of that user. */
  ghost predicate Represents(c: Suite, t: Tables, a: Plain, user: string) {
    && (user in t.users <==> user in a)
    && (user in a ==> RepAccount(c, t, t.users[user], a[user]))
  }

  /** The tables hold what the plain map says of the user. */
  ghost predicate Holds(c: Suite, t: Tables, a: Plain, user: string) {
    WellKeyed(t) && Represents(c, t, a, user)
  }

  lemma AccountFrame(c: Suite, t: Tables, t': Tables, user: UserRow, acc: Account)
    requires RepAccount(c, t, user, acc) && SameAccount(t, t', user.id)
    ensures RepAccount(c, t', user, acc)
  {
  }

  /** A change to another user's rows and account does not matter. */
  lemma OtherAccountChanged(c: Suite, t: Tables, t': Tables, a: Plain, a': Plain, other: string, user: string)
    requires Holds(c, t, a, user) && WellKeyed(t') && OthersSame(t, t', other) && user != other
    requires (user in a' <==> user in a) && (user in a ==> a'[user] == a[user])
    ensures Holds(c, t', a', user)
  {
    hide WellKeyed;
    hide RepAccount;
    hide SameAccount;
    assert user in t.users.Keys - {other} <==> user in t'.users.Keys - {other};
    if user in a { AccountFrame(c, t, t', t.users[user], a[user]); }
  }

  lemma UserInserted(c: Suite, t: Tables, a: Plain, user: string, hash: Token, password: string)
    requires Holds(c, t, a, user) && user !in a && IsPasswordOf(c, password, hash)
    ensures Holds(c, InsertUser(t, user, hash), a[user := Account(password, None, map[])], user)
  {
    hide WellKeyed;
    hide OthersSame;
    InsertUserKeyed(t, user, hash);
  }

  lemma KekInserted(c: Suite, t: Tables, a: Plain, user: string, raw: Token, salt: Token, now: Now)
    requires Ideal(c) && Holds(c, t, a, user) && user in a && a[user].key.None?
    ensures var row := t.users[user];
      Holds(c, InsertKek(t, row.id, c.wrap(c.derive(row.hash, salt), raw), salt, ExpiresAt(now)),
            a[user := a[user].(key := Some(NewKey(now)))], user)
  {
    hide WellKeyed;
    hide OthersSame;
    hide Parse;
    hide Format;
    hide IsPasswordOf;
    var row := t.users[user];
    var wrapped := c.wrap(c.derive(row.hash, salt), raw);
    var t' := InsertKek(t, row.id, wrapped, salt, ExpiresAt(now));
    assert RepAccount(c, t, row, a[user]);
    InsertKekKeyed(t, user, wrapped, salt, ExpiresAt(now));
    ParseFormat(now + KEK_LIFETIME);
  }

  lemma SecretInserted(c: Suite, t: Tables, a: Plain, user: string, raw: Token, nonce: Token, name: string,
                       priv: Bytes, pub: Bytes, description: string, updatedAt: string)
    requires Ideal(c) && Holds(c, t, a, user) && user in a && name !in a[user].secrets
    requires RawOf(c, t.users[user].hash, t.keks, t.users[user].id) == Some(raw)
    ensures Holds(
              c,
              InsertSecret(t, t.users[user].id, name, c.seal(raw, nonce, priv), nonce, pub, description, updatedAt),
              a[user := a[user].(secrets := a[user].secrets[name := Entry(priv, pub, description, updatedAt)])],
              user)
  {
    hide WellKeyed;
    hide OthersSame;
    hide IsPasswordOf;
    hide RawOf;
    var row, acc := t.users[user], a[user];
    var box := c.seal(raw, nonce, priv);
    var t' := InsertSecret(t, row.id, name, box, nonce, pub, description, updatedAt);
    assert RepAccount(c, t, row, acc);
    assert row.id in t.keks by { KekInUse(c, t, row, raw); }
    InsertSecretKeyed(t, user, name, box, nonce, pub, description, updatedAt);
  }

  lemma KekInUse(c: Suite, t: Tables, row: UserRow, raw: Token)
    requires RawOf(c, row.hash, t.keks, row.id) == Some(raw)
    ensures row.id in t.keks
  {
  }

  lemma SecretDeleted(c: Suite, t: Tables, a: Plain, user: string, name: string)
    requires Holds(c, t, a, user) && user in a
    ensures Holds(c, DeleteSecret(t, t.users[user].id, name),
                  a[user := a[user].(secrets := a[user].secrets - {name})], user)
  {
    hide WellKeyed;
    hide OthersSame;
    hide IsPasswordOf;
    hide RawOf;
    hide RepEntry;
    var row, acc := t.users[user], a[user];
    assert RepAccount(c, t, row, acc);
    DeleteSecretKeyed(t, user, name);
  }

  lemma UserDeleted(c: Suite, t: Tables, a: Plain, user: string)
    requires Holds(c, t, a, user) && user in a
    ensures Holds(c, DeleteUser(t, t.users[user].id), a - {user}, user)
  {
    hide WellKeyed;
    hide RepAccount;
    DeleteUserKeyed(t, user);
    assert user !in DeleteUser(t, t.users[user].id).users;
  }

  /** A committed password change: the same KEK wrapped under the new hash. */
  lemma PasswordChanged(c: Suite, t: Tables, a: Plain, user: string, newHash: Token, newPassword: string, env: Env)
    requires Ideal(c) && Holds(c, t, a, user) && user in a && IsPasswordOf(c, newPassword, newHash)
    ensures var row := t.users[user];
      var changed := ChangeTx(c, t, row.id, row.hash, newHash, env);
      && (changed.None? <==>
            || env.fails(UpdateHash) || env.fails(FindKek) || a[user].key.None? || env.fails(Allocate)
            || env.fails(Derive) || env.fails(UnwrapKek) || env.fails(WrapKek) || env.fails(UpdateKek))
      && (changed.Some? ==> Holds(c, changed.value, a[user := a[user].(password := newPassword)], user))
  {
    hide WellKeyed;
    hide OthersSame;
    hide IsPasswordOf;
    hide Parse;
    hide RepEntry;
    var row, acc := t.users[user], a[user];
    assert RepAccount(c, t, row, acc);
    SetHashKeyed(t, user, newHash);
    var changed := ChangeTx(c, t, row.id, row.hash, newHash, env);
    if changed.Some? {
      var t1 := SetHash(t, row.id, newHash);
      var t2 := changed.value;
      var raw := RawKek(c, row.hash, t.keks[row.id]).value;
      assert t2.keks[row.id] == t.keks[row.id].(wrapped := c.wrap(c.derive(newHash, t.keks[row.id].salt), raw));
      assert RawKek(c, newHash, t2.keks[row.id]) == Some(raw);
      assert t2.keks.Keys == t1.keks.Keys;
      VersionsPositive(t);
      KekAndSecretsKeyed(t1, t2, user);
      OthersSameTransitive(t, t1, t2, user);
      assert t2.users[user] == UserRow(row.id, newHash);
    }
  }

  lemma VersionsPositive(t: Tables)
    requires WellKeyed(t)
    ensures forall id :: id in t.keks ==> t.keks[id].version >= 1
  {
  }

  /** The scan of a rotation reached every row of the user. */
  predicate ScanComplete(t: Tables, userId: nat, scan: seq<string>) {
    forall k :: k in t.secrets && k.owner == userId ==> k.name in scan
  }

  lemma EveryRowOpens(c: Suite, t: Tables, raw: Option<Token>, id: nat, entries: map<string, Entry>, scan: seq<string>)
    requires RepSecrets(c, raw, t.secrets, id, entries) && raw.Some?
    ensures AllOpen(c, t, id, raw.value, scan)
  {
  }

  lemma SameResealFaults(c: Suite, t: Tables, raw: Option<Token>, id: nat, entries: map<string, Entry>, env: Env)
    requires RepSecrets(c, raw, t.secrets, id, entries) && ScanComplete(t, id, env.scan)
    ensures SomeResealFails(t, id, env) <==> exists n :: n in entries && env.fails(Reseal(n))
  {
  }

  /** Re-encryption: the rows now open under the new KEK, to the same contents. */
  lemma ResealedRows(c: Suite, t: Tables, raw: Option<Token>, id: nat, entries: map<string, Entry>, env: Env)
    requires Ideal(c) && RepSecrets(c, raw, t.secrets, id, entries) && ScanComplete(t, id, env.scan)
    requires raw.Some? && AllOpen(c, t, id, raw.value, env.scan)
    ensures RepSecrets(c, Some(env.kek), ResealScanned(c, t, id, raw.value, env), id,
                       map n | n in entries :: entries[n].(updatedAt := Format(env.now)))
  {
    hide Format;
    var secrets' := ResealScanned(c, t, id, raw.value, env);
    forall n | n in entries
      ensures RepEntry(c, Some(env.kek), secrets'[SecretKey(id, n)], entries[n].(updatedAt := Format(env.now)))
    {
      var k := SecretKey(id, n);
      assert RepEntry(c, raw, t.secrets[k], entries[n]);
      assert Scanned(k, id, env.scan);
      assert secrets'[k] == Resealed(c, raw.value, n, t.secrets[k], env);
    }
  }

  /** The steps of a rotation that do not depend on the rows, and the rows that the scan delivers. */
  lemma ScannedFaults(c: Suite, t: Tables, raw: Option<Token>, id: nat, entries: map<string, Entry>, env: Env)
    requires RepSecrets(c, raw, t.secrets, id, entries)
    ensures SomeResealFails(t, id, env) ==> exists n :: n in entries && env.fails(Reseal(n))
  {
  }

  /**
   A rotation fails as the plain map says, and one that commits with a complete scan gives a new key, a
   new deadline and the same contents. With an incomplete scan it may only commit where it should fail.
   */
  lemma KekRotated(c: Suite, t: Tables, a: Plain, user: string, env: Env)
    requires Ideal(c) && Holds(c, t, a, user) && user in a
    ensures var row := t.users[user];
      var rotated := RotateTx(c, t, row.id, row.hash, env);
      && (rotated.None? ==> RotateFails(a[user], env))
      && (rotated.Some? && ScanComplete(t, row.id, env.scan) ==>
            !RotateFails(a[user], env) && Holds(c, rotated.value, a[user := Renewed(a[user], env.now)], user))
  {
    hide OthersSame;
    hide IsPasswordOf;
    hide Parse;
    hide Format;
    hide RepSecrets;
    hide ResealScanned;
    hide SomeResealFails;
    hide ScanComplete;
    hide AllOpen;
    hide WellKeyed;
    var row, acc := t.users[user], a[user];
    assert RepAccount(c, t, row, acc);
    VersionsPositive(t);
    if row.id in t.keks {
      var raw := RawOf(c, row.hash, t.keks, row.id);
      EveryRowOpens(c, t, raw, row.id, acc.secrets, env.scan);
      ScannedFaults(c, t, raw, row.id, acc.secrets, env);
      var rotated := RotateTx(c, t, row.id, row.hash, env);
      if rotated.Some? && ScanComplete(t, row.id, env.scan) {
        var t' := rotated.value;
        SameResealFaults(c, t, raw, row.id, acc.secrets, env);
        ResealedRows(c, t, raw, row.id, acc.secrets, env);
        ParseFormat(env.now + KEK_LIFETIME);
        ResealKeepsKeys(c, t, row.id, raw.value, env);
        assert t'.keks.Keys == t.keks.Keys;
        KekAndSecretsKeyed(t, t', user);
      }
    }
  }

  /** A committed rotation replaces the user's KEK row by one with the next version and a new deadline. */
  lemma RotationFields(c: Suite, t: Tables, id: nat, hash: Token, env: Env)
    ensures var rotated := RotateTx(c, t, id, hash, env);
      rotated.Some? ==>
        && id in t.keks && id in rotated.value.keks && rotated.value.users == t.users
        && rotated.value.lastUser == t.lastUser && rotated.value.keks == t.keks[id := rotated.value.keks[id]]
        && rotated.value.keks[id].version == t.keks[id].version + 1
        && rotated.value.keks[id].expiresAt == ExpiresAt(env.now)
  {
    hide Format;
    hide RawKek;
    hide ResealScanned;
    hide AllOpen;
    hide SomeResealFails;
  }

  lemma ResealKeepsKeys(c: Suite, t: Tables, id: nat, raw: Token, env: Env)
    requires AllOpen(c, t, id, raw, env.scan)
    ensures var secrets' := ResealScanned(c, t, id, raw, env);
      && secrets'.Keys == t.secrets.Keys
      && (forall k :: k in t.secrets ==> secrets'[k].id == t.secrets[k].id)
      && (forall k :: k in t.secrets && k.owner != id ==> secrets'[k] == t.secrets[k])
  {
  }
}
