/**
 The three tables the vault engine reads and writes, and the effect of each SQL statement on them.
 A table is a map from its natural key, so the UNIQUE constraints of the schema are the
 keys of the maps: an INSERT is refused when its key is taken. Row ids are AUTOINCREMENT.
 */
module Tables {
  import opened Types
  import opened Crypto

  datatype UserRow = UserRow(id: nat, hash: Token)

  datatype KekRow = KekRow(wrapped: Token, salt: Token, expiresAt: string, version: int)

  datatype SecretKey = SecretKey(owner: nat, name: string)

  datatype SecretRow = SecretRow(
    id: nat, box: Sealed, nonce: Token, pub: Bytes, description: string, updatedAt: string)

  datatype Tables = Tables(
    users: map<string, UserRow>,        // UNIQUE(username)
    keks: map<nat, KekRow>,             // UNIQUE(user_id)
    secrets: map<SecretKey, SecretRow>, // UNIQUE(user_id, name)
    lastUser: nat,                      // sqlite_sequence of users
    lastSecret: nat)                    // sqlite_sequence of secrets

  const EMPTY := Tables(map[], map[], map[], 0, 0)

  predicate HasId(users: map<string, UserRow>, id: nat) { exists u :: u in users && users[u].id == id }

  function InsertUser(t: Tables, username: string, hash: Token): Tables {
    t.(users := t.users[username := UserRow(t.lastUser + 1, hash)], lastUser := t.lastUser + 1)
  }

  function InsertKek(t: Tables, userId: nat, wrapped: Token, salt: Token, expiresAt: string): Tables {
    t.(keks := t.keks[userId := KekRow(wrapped, salt, expiresAt, 1)])
  }

  function InsertSecret(t: Tables, userId: nat, name: string, box: Sealed, nonce: Token, pub: Bytes,
                        description: string, updatedAt: string): Tables {
    t.(secrets := t.secrets[SecretKey(userId, name) :=
                              SecretRow(t.lastSecret + 1, box, nonce, pub, description, updatedAt)],
       lastSecret := t.lastSecret + 1)
  }

  function DeleteSecret(t: Tables, userId: nat, name: string): Tables {
    t.(secrets := t.secrets - {SecretKey(userId, name)})
  }

  /** DELETE FROM users WHERE id = ?, with ON DELETE CASCADE on the other two tables. */
  function DeleteUser(t: Tables, userId: nat): Tables {
    t.(users := map u | u in t.users && t.users[u].id != userId :: t.users[u],
       keks := t.keks - {userId},
       secrets := map k | k in t.secrets && k.owner != userId :: t.secrets[k])
  }

  /** UPDATE users SET password_hash = ? WHERE id = ? */
  function SetHash(t: Tables, userId: nat, hash: Token): Tables {
    t.(users := map u | u in t.users :: if t.users[u].id == userId then UserRow(userId, hash) else t.users[u])
  }

  /** UPDATE kek_metadata SET wrapped_kek = ? WHERE user_id = ? */
  function SetWrapped(t: Tables, userId: nat, wrapped: Token): Tables {
    if userId in t.keks then t.(keks := t.keks[userId := t.keks[userId].(wrapped := wrapped)]) else t
  }

  /** The UPDATE of kek_update: it touches the row only if the version is the expected one. */
  function ReplaceKek(t: Tables, userId: nat, wrapped: Token, salt: Token, expiresAt: string, expected: int): Tables {
    if userId in t.keks && t.keks[userId].version == expected
    then t.(keks := t.keks[userId := KekRow(wrapped, salt, expiresAt, expected + 1)])
    else t
  }

  /** The UPDATE of kek_rotate on one secret: WHERE id = ? */
  function ReplaceBox(t: Tables, id: nat, box: Sealed, nonce: Token, pub: Bytes, updatedAt: string): Tables {
    t.(secrets := map k | k in t.secrets ::
         if t.secrets[k].id == id
         then t.secrets[k].(box := box, nonce := nonce, pub := pub, updatedAt := updatedAt)
         else t.secrets[k])
  }

  /** The ids and foreign keys that the schema and AUTOINCREMENT maintain. */
  ghost predicate WellKeyed(t: Tables) {
    && UserIds(t.users, t.lastUser)
    && KekOwners(t.users, t.keks)
    && SecretOwners(t.keks.Keys, t.secrets)
    && SecretIds(t.secrets, t.lastSecret)
  }

  ghost predicate UserIds(users: map<string, UserRow>, last: nat) {
    && (forall u :: u in users ==> 1 <= users[u].id <= last)
    && (forall u, v :: u in users && v in users && users[u].id == users[v].id ==> u == v)
  }

  ghost predicate KekOwners(users: map<string, UserRow>, keks: map<nat, KekRow>) {
    forall id :: id in keks ==> HasId(users, id) && keks[id].version >= 1
  }

  ghost predicate SecretOwners(owners: set<nat>, secrets: map<SecretKey, SecretRow>) {
    forall k :: k in secrets ==> k.owner in owners
  }

  ghost predicate SecretIds(secrets: map<SecretKey, SecretRow>, last: nat) {
    && (forall k :: k in secrets ==> 1 <= secrets[k].id <= last)
    && (forall k, l :: k in secrets && l in secrets && secrets[k].id == secrets[l].id ==> k == l)
  }

  ghost predicate SameKek(keks: map<nat, KekRow>, keks': map<nat, KekRow>, id: nat) {
    && (id in keks <==> id in keks')
    && (id in keks ==> keks'[id] == keks[id])
  }

  ghost predicate SameSecrets(secrets: map<SecretKey, SecretRow>, secrets': map<SecretKey, SecretRow>, id: nat) {
    && (forall n :: SecretKey(id, n) in secrets <==> SecretKey(id, n) in secrets')
    && (forall n :: SecretKey(id, n) in secrets ==> secrets'[SecretKey(id, n)] == secrets[SecretKey(id, n)])
  }

  /** The KEK and the secrets of one user id are the same in both. */
  ghost predicate SameAccount(t: Tables, t': Tables, id: nat) {
    SameKek(t.keks, t'.keks, id) && SameSecrets(t.secrets, t'.secrets, id)
  }

  /** Nothing changed for any user but this one. */
  ghost predicate OthersSame(t: Tables, t': Tables, user: string) {
    && t.users.Keys - {user} == t'.users.Keys - {user}
    && forall u :: u in t.users && u != user ==>
         u in t'.users && t'.users[u] == t.users[u] && SameAccount(t, t', t.users[u].id)
  }

  // ---- each statement keeps the keys and touches one user ----

  lemma InsertUserKeyed(t: Tables, user: string, hash: Token)
    requires WellKeyed(t) && user !in t.users
    ensures var t' := InsertUser(t, user, hash);
      WellKeyed(t') && OthersSame(t, t', user)
    ensures t.lastUser + 1 !in t.keks
    ensures forall k :: k in t.secrets ==> k.owner != t.lastUser + 1
  {
    hide SecretOwners;
    hide SecretIds;
    var t' := InsertUser(t, user, hash);
    assert t.lastUser + 1 !in t.keks;
    forall k | HasId(t.users, k) ensures HasId(t'.users, k) {
      var u :| u in t.users && t.users[u].id == k;
      assert t'.users[u].id == k;
    }
    NoOrphans(t, t.lastUser + 1);
  }

  /** AUTOINCREMENT: the next id has never been used. */
  lemma InsertUserKeeps(t: Tables, username: string, hash: Token)
    ensures InsertUser(t, username, hash).keks == t.keks
  {
  }

  lemma InsertedHasId(t: Tables, username: string, hash: Token)
    ensures HasId(InsertUser(t, username, hash).users, t.lastUser + 1)
  {
    assert InsertUser(t, username, hash).users[username].id == t.lastUser + 1;
  }

  lemma NextIdIsUnused(t: Tables)
    requires WellKeyed(t)
    ensures t.lastUser + 1 !in t.keks && !HasId(t.users, t.lastUser + 1)
  {
  }

  lemma NoOrphans(t: Tables, id: nat)
    requires SecretOwners(t.keks.Keys, t.secrets) && id !in t.keks
    ensures forall k :: k in t.secrets ==> k.owner != id
  {
  }

  lemma InsertKekKeyed(t: Tables, user: string, wrapped: Token, salt: Token, expiresAt: string)
    requires WellKeyed(t) && user in t.users && t.users[user].id !in t.keks
    ensures var t' := InsertKek(t, t.users[user].id, wrapped, salt, expiresAt);
      WellKeyed(t') && OthersSame(t, t', user)
  {
  }

  lemma InsertSecretKeyed(t: Tables, user: string, name: string, box: Sealed, nonce: Token, pub: Bytes,
                          description: string, updatedAt: string)
    requires WellKeyed(t) && user in t.users && t.users[user].id in t.keks
    ensures var t' := InsertSecret(t, t.users[user].id, name, box, nonce, pub, description, updatedAt);
      WellKeyed(t') && OthersSame(t, t', user)
  {
    hide KekOwners;
  }

  lemma DeleteSecretKeyed(t: Tables, user: string, name: string)
    requires WellKeyed(t) && user in t.users
    ensures var t' := DeleteSecret(t, t.users[user].id, name);
      WellKeyed(t') && OthersSame(t, t', user)
  {
    hide KekOwners;
  }

  lemma DeleteUserOwners(t: Tables, id: nat)
    requires KekOwners(t.users, t.keks)
    ensures KekOwners(DeleteUser(t, id).users, DeleteUser(t, id).keks)
  {
    var t' := DeleteUser(t, id);
    forall k | k in t'.keks ensures HasId(t'.users, k) {
      var u :| u in t.users && t.users[u].id == k;
      assert t'.users[u].id == k;
    }
  }

  lemma DeleteUserRows(t: Tables, id: nat)
    requires SecretOwners(t.keks.Keys, t.secrets) && SecretIds(t.secrets, t.lastSecret) && UserIds(t.users, t.lastUser)
    ensures var t' := DeleteUser(t, id);
      SecretOwners(t'.keks.Keys, t'.secrets) && SecretIds(t'.secrets, t'.lastSecret) && UserIds(t'.users, t'.lastUser)
  {
  }

  lemma DeleteUserKeyed(t: Tables, user: string)
    requires WellKeyed(t) && user in t.users
    ensures var t' := DeleteUser(t, t.users[user].id);
      WellKeyed(t') && OthersSame(t, t', user) && t'.users.Keys == t.users.Keys - {user}
  {
    hide OthersSame;
    hide UserIds;
    hide KekOwners;
    hide SecretOwners;
    hide SecretIds;
    DeleteUserIsolated(t, user);
    DeleteUserOwners(t, t.users[user].id);
    DeleteUserRows(t, t.users[user].id);
    hide DeleteUser;
  }

  lemma DeleteUserIsolated(t: Tables, user: string)
    requires UserIds(t.users, t.lastUser) && user in t.users
    ensures var t' := DeleteUser(t, t.users[user].id);
      OthersSame(t, t', user) && t'.users.Keys == t.users.Keys - {user}
  {
  }

  lemma SetHashKeyed(t: Tables, user: string, hash: Token)
    requires WellKeyed(t) && user in t.users
    ensures var t' := SetHash(t, t.users[user].id, hash);
      && WellKeyed(t') && OthersSame(t, t', user) && t'.users.Keys == t.users.Keys
      && t'.users[user] == UserRow(t.users[user].id, hash)
  {
    hide SecretIds;
    hide SecretOwners;
    var t' := SetHash(t, t.users[user].id, hash);
    forall k | HasId(t.users, k) ensures HasId(t'.users, k) {
      var u :| u in t.users && t.users[u].id == k;
      assert t'.users[u].id == k;
    }
  }

  /** Replacing the user's KEK row, and its secrets by rows with the same names and ids. */
  lemma KekAndSecretsKeyed(t: Tables, t': Tables, user: string)
    requires WellKeyed(t) && user in t.users
    requires t'.users == t.users && t'.lastUser == t.lastUser && t'.lastSecret == t.lastSecret
    requires t'.keks.Keys == t.keks.Keys && t'.secrets.Keys == t.secrets.Keys
    requires forall id :: id in t.keks && id != t.users[user].id ==> t'.keks[id] == t.keks[id]
    requires forall id :: id in t.keks ==> t'.keks[id].version >= 1
    requires forall k :: k in t.secrets ==> t'.secrets[k].id == t.secrets[k].id
    requires forall k :: k in t.secrets && k.owner != t.users[user].id ==> t'.secrets[k] == t.secrets[k]
    ensures WellKeyed(t') && OthersSame(t, t', user)
  {
  }

  lemma OthersSameTransitive(t: Tables, t1: Tables, t2: Tables, user: string)
    requires OthersSame(t, t1, user) && OthersSame(t1, t2, user)
    ensures OthersSame(t, t2, user)
  {
  }
}
