/**
 The public calls on one handle: each method takes the steps of the program in their order on the
 database and the cache array, and is proved to reply and to change the state as module Vault says.
 */
module Handle {
  import opened Types
  import opened Crypto
  import opened Calendar
  import opened Tables
  import opened KeyCache
  import opened Vault
  import opened Engine
  import Transparency

  lemma StaysKeyed(c: Suite, s: State, call: Call, env: Env)
    requires WellKeyed(s.t)
    ensures WellKeyed(Next(c, s, call, env).state.t)
  {
    hide Next;
    Transparency.CallKeeps(c, s, call, env);
  }

  class SsmHandle {
    const c: Suite
    const db: Database
    const cache: Slots

    /** ssm_init on a fresh database */
    constructor (c: Suite)
      ensures Valid() && Value() == State(EMPTY, Empty(CAPACITY), [])
      ensures fresh(db) && fresh(cache) && fresh(cache.slots)
    {
      this.c := c;
      this.db := new Database();
      this.cache := new Slots(CAPACITY);
    }

    ghost function Value(): State
      reads this, db, cache, cache.slots
    {
      State(db.Value(), cache.Value(), db.log)
    }

    ghost predicate Valid()
      reads this, db
    {
      WellKeyed(db.Value())
    }

    method UserRegister(user: string, password: string, env: Env) returns (status: Status)
      requires Valid()
      modifies db, cache, cache.slots
      ensures Valid()
      ensures Outcome(Done(status), Value()) == Next(c, old(Value()), Register(user, password), env)
    {
      StaysKeyed(c, Value(), Register(user, password), env);
      hide WellKeyed;
      hide AddAccount;
      if |user| == 0 || |user| > USERNAME_MAX { return ErrInternal; }
      var policy := env.policy(password);
      if policy != Ok { return policy; }
      var existing := db.UsersFindByUsername(user, env);
      if existing.Some? {
        db.AuditWrite(0, user, "user_register", Ok, None, env);
        return Ok;
      }
      status := CreateAccount(user, password, env);
    }

    method CreateKek(id: nat, user: string, hash: Token, env: Env) returns (status: Status)
      requires id !in db.keks && HasId(db.users, id)
      modifies db
      ensures Outcome(Done(status), Value()) == GiveKek(c, old(Value()), id, user, hash, env)
    {
      hide HasId;
      hide Format;
      hide InsertKek;
      if env.fails(Allocate) || env.fails(Derive) || env.fails(WrapKek) { return ErrInternal; }
      var wrapped := c.wrap(c.derive(hash, env.kekSalt), env.kek);
      var stored := db.KekStore(id, wrapped, env.kekSalt, ExpiresAt(env.now), env);
      if !stored { return ErrInternal; }
      db.AuditWrite(id, user, "user_register", Ok, None, env);
      return Ok;
    }

    method CreateAccount(user: string, password: string, env: Env) returns (status: Status)
      requires Valid()
      modifies db
      ensures Outcome(Done(status), Value()) == AddAccount(c, old(Value()), user, password, env)
    {
      if env.fails(HashPassword) { return ErrInternal; }
      var hash := c.hashPassword(password, env.hashSalt);
      NextIdIsUnused(db.Value());
      InsertedHasId(db.Value(), user, hash);
      hide HasId;
      hide WellKeyed;
      hide InsertUser;
      var id := db.UsersCreate(user, hash, env);
      if id.None? { return ErrInternal; }
      assert Value() == old(Value()).(t := InsertUser(old(Value()).t, user, hash));
      assert db.keks == old(db.keks) by { InsertUserKeeps(old(db.Value()), user, hash); }
      status := CreateKek(id.value, user, hash, env);
    }

    method UserAuthenticate(user: string, password: string, env: Env) returns (status: Status, valid: Option<bool>)
      requires Valid()
      modifies db
      ensures Valid()
      ensures Outcome(Authenticated(status, valid), Value()) == Next(c, old(Value()), Authenticate(user, password), env)
    {
      if |user| == 0 || |user| > USERNAME_MAX { return ErrInternal, None; }
      var row := db.UsersFindByUsername(user, env);
      if row.None? {
        db.AuditWrite(0, user, "user_authenticate", ErrAuth, None, env);
        return Ok, Some(false);
      }
      var ok := !env.fails(VerifyPassword) && c.verifyPassword(password, row.value.hash);
      db.AuditWrite(row.value.id, user, "user_authenticate", if ok then Ok else ErrAuth, None, env);
      return Ok, Some(ok);
    }

    /** cache_lookup, and on a miss the derivation and cache_insert */
    method ObtainWrappingKey(row: UserRow, kek: KekRow, env: Env) returns (key: Option<Token>)
      modifies cache, cache.slots
      ensures (key, cache.Value()) == WrappingKey(c, old(cache.Value()), row, kek, env)
    {
      key := cache.CacheLookup(row.id, env.now);
      if key.None? {
        if env.fails(DeriveOnMiss) { return; }
        key := Some(c.derive(row.hash, kek.salt));
        cache.CacheInsert(row.id, key.value, env.now);
      }
    }

    /** The user's raw KEK, unwrapped with that key. */
    method ObtainKek(row: UserRow, kek: KekRow, env: Env) returns (raw: Option<Token>)
      modifies cache, cache.slots
      ensures var (key, cache') := WrappingKey(c, old(cache.Value()), row, kek, env);
        && cache.Value() == cache'
        && raw == if key.None? || env.fails(UnwrapKek) then None else c.unwrap(key.value, kek.wrapped)
    {
      var key := ObtainWrappingKey(row, kek, env);
      hide WrappingKey;
      if key.None? || env.fails(UnwrapKek) { return None; }
      return c.unwrap(key.value, kek.wrapped);
    }

    method SealAndStore(row: UserRow, user: string, raw: Token, priv: Bytes, pub: Bytes, name: string,
                        description: string, env: Env)
      returns (status: Status)
      requires HasId(db.users, row.id)
      modifies db
      ensures Outcome(Done(status), Value()) ==
              PutSecret(c, old(Value()), row, user, raw, priv, pub, name, description, env)
    {
      hide HasId;
      hide Format;
      hide InsertSecret;
      if env.fails(SealSecret) { return ErrInternal; }
      var box := c.seal(raw, env.nonce, priv);
      var stored := db.SecretsStore(row.id, name, box, env.nonce, pub, description, env);
      if !stored { return ErrInternal; }
      db.AuditWrite(row.id, user, "secret_store", Ok, Some(name), env);
      return Ok;
    }

    method SecretStore(user: string, priv: Bytes, pub: Bytes, name: string, description: string, env: Env)
      returns (status: Status)
      requires Valid()
      modifies db, cache, cache.slots
      ensures Valid()
      ensures Outcome(Done(status), Value()) == Next(c, old(Value()), Store(user, priv, pub, name, description), env)
    {
      StaysKeyed(c, Value(), Store(user, priv, pub, name, description), env);
      assert Next(c, Value(), Store(user, priv, pub, name, description), env) ==
          StoreOp(c, Value(), user, priv, pub, name, description, env);
      hide Next;
      hide WellKeyed;
      hide Format;
      hide IsExpired;
      hide WrappingKey;
      hide PutSecret;
      if priv == [] { return ErrInternal; }
      var row := db.UsersFindByUsername(user, env);
      if row.None? {
        db.AuditWrite(0, user, "secret_store", ErrAuth, None, env);
        return ErrAuth;
      }
      assert HasId(db.users, row.value.id) by { assert db.users[user].id == row.value.id; }
      hide HasId;
      var kek := db.KekFindByUser(row.value.id, env);
      if kek.None? { return ErrInternal; }
      if IsExpired(kek.value.expiresAt, env.now) {
        db.AuditWrite(row.value.id, user, "secret_store", ErrExpired, Some(name), env);
        return ErrExpired;
      }
      if env.fails(Allocate) { return ErrInternal; }
      var raw := ObtainKek(row.value, kek.value, env);
      if raw.None? { return ErrInternal; }
      status := SealAndStore(row.value, user, raw.value, priv, pub, name, description, env);
    }

    method SecretGet(user: string, name: string, privCap: nat, pubCap: Option<nat>, env: Env)
      returns (status: Status, priv: Option<Bytes>, privLen: nat, pub: Option<Bytes>, pubLen: Option<nat>)
      requires Valid()
      modifies db, cache, cache.slots
      ensures Valid()
      ensures Outcome(Got(status, priv, privLen, pub, pubLen), Value()) ==
              Next(c, old(Value()), Get(user, name, privCap, pubCap), env)
    {
      hide WellKeyed;
      hide IsExpired;
      hide WrappingKey;
      priv, privLen, pub, pubLen := None, privCap, None, pubCap;
      var row := db.UsersFindByUsername(user, env);
      if row.None? {
        db.AuditWrite(0, user, "secret_get", ErrAuth, None, env);
        status := ErrAuth;
        return;
      }
      var kek := db.KekFindByUser(row.value.id, env);
      if kek.None? { status := ErrInternal; return; }
      if IsExpired(kek.value.expiresAt, env.now) {
        db.AuditWrite(row.value.id, user, "secret_get", ErrExpired, Some(name), env);
        status := ErrExpired;
        return;
      }
      var secret := db.SecretsFind(row.value.id, name, env);
      if secret.None? { status := ErrNotFound; return; }
      if env.fails(Allocate) { status := ErrInternal; return; }
      var raw := ObtainKek(row.value, kek.value, env);
      if raw.None? { status := ErrInternal; return; }
      if privCap < |secret.value.box.ciphertext| {
        privLen := |secret.value.box.ciphertext|;
        status := ErrInternal;
        return;
      }
      var plain := c.open(raw.value, secret.value.nonce, secret.value.box);
      if env.fails(OpenSecret) || plain.None? {
        db.AuditWrite(row.value.id, user, "secret_get", ErrIntegrity, Some(name), env);
        status := ErrIntegrity;
        return;
      }
      priv, privLen := plain, |plain.value|;
      if pubCap.Some? {
        if secret.value.pub != [] {
          pubLen := Some(|secret.value.pub|);
          if pubCap.value >= |secret.value.pub| {
            pub := Some(secret.value.pub);
          } else {
            status := ErrInternal;
            return;
          }
        } else {
          pubLen := Some(0);
        }
      }
      db.AuditWrite(row.value.id, user, "secret_get", Ok, Some(name), env);
      status := Ok;
    }

    method SecretDelete(user: string, name: string, env: Env) returns (status: Status)
      requires Valid()
      modifies db
      ensures Valid()
      ensures Outcome(Done(status), Value()) == Next(c, old(Value()), Delete(user, name), env)
    {
      StaysKeyed(c, Value(), Delete(user, name), env);
      hide WellKeyed;
      hide IsExpired;
      var row := db.UsersFindByUsername(user, env);
      if row.None? {
        db.AuditWrite(0, user, "secret_delete", ErrAuth, None, env);
        return ErrAuth;
      }
      var kek := db.KekFindByUser(row.value.id, env);
      if kek.None? { return ErrInternal; }
      if IsExpired(kek.value.expiresAt, env.now) {
        db.AuditWrite(row.value.id, user, "secret_delete", ErrExpired, Some(name), env);
        return ErrExpired;
      }
      var deleted := db.SecretsDelete(row.value.id, name, env);
      if !deleted { return ErrNotFound; }
      db.AuditWrite(row.value.id, user, "secret_delete", Ok, Some(name), env);
      return Ok;
    }

    /** The calls of the callback, in order. */
    method SecretList(user: string, env: Env) returns (status: Status, items: seq<Item>)
      requires Valid()
      modifies db
      ensures Valid()
      ensures Outcome(Listed(status, items), Value()) == Next(c, old(Value()), List(user), env)
    {
      hide WellKeyed;
      hide IsExpired;
      hide Rows;
      items := [];
      var row := db.UsersFindByUsername(user, env);
      if row.None? {
        db.AuditWrite(0, user, "secret_list", ErrAuth, None, env);
        return ErrAuth, [];
      }
      var kek := db.KekFindByUser(row.value.id, env);
      if kek.None? { return ErrInternal, []; }
      if IsExpired(kek.value.expiresAt, env.now) {
        db.AuditWrite(row.value.id, user, "secret_list", ErrExpired, None, env);
        return ErrExpired, [];
      }
      var rows := db.SecretsListForUser(row.value.id, env);
      if rows.None? { return ErrInternal, []; }
      for i := 0 to |rows.value|
        invariant items == Items(rows.value)[..i]
      {
        var (n, s) := rows.value[i];
        items := items + [Item(n, s.description, s.updatedAt, |s.pub|)];
      }
      assert Items(rows.value)[..|rows.value|] == Items(rows.value);
      db.AuditWrite(row.value.id, user, "secret_list", Ok, None, env);
      status := Ok;
    }

    method UserDelete(user: string, password: string, env: Env) returns (status: Status)
      requires Valid()
      modifies db
      ensures Valid()
      ensures Outcome(Done(status), Value()) == Next(c, old(Value()), RemoveAccount(user, password), env)
    {
      StaysKeyed(c, Value(), RemoveAccount(user, password), env);
      hide WellKeyed;
      hide DeleteUser;
      if |user| == 0 || |user| > USERNAME_MAX { return ErrInternal; }
      var row := db.UsersFindByUsername(user, env);
      if row.None? {
        db.AuditWrite(0, user, "user_delete", ErrAuth, None, env);
        return ErrAuth;
      }
      if env.fails(VerifyPassword) || !c.verifyPassword(password, row.value.hash) {
        db.AuditWrite(row.value.id, user, "user_delete", ErrAuth, None, env);
        return ErrAuth;
      }
      assert HasId(db.users, row.value.id) by { assert db.users[user].id == row.value.id; }
      var deleted := db.UsersDelete(row.value.id, env);
      if !deleted { return ErrInternal; }
      db.AuditWrite(row.value.id, user, "user_delete", Ok, None, env);
      return Ok;
    }

    /** The statements between BEGIN and COMMIT or ROLLBACK of ssm_user_change_password */
    method ChangeBody(row: UserRow, newHash: Token, env: Env) returns (ok: bool)
      modifies db
      ensures db.log == old(db.log) && db.saved == old(db.saved)
      ensures ok == ChangeTx(c, old(db.Value()), row.id, row.hash, newHash, env).Some?
      ensures ok ==> db.Value() == ChangeTx(c, old(db.Value()), row.id, row.hash, newHash, env).value
    {
      hide SetHash;
      ok := false;
      var updated := db.UsersUpdateHash(row.id, newHash, env);
      if !updated { return; }
      var kek := db.KekFindByUser(row.id, env);
      if kek.None? { return; }
      if env.fails(Allocate) || env.fails(Derive) || env.fails(UnwrapKek) { return; }
      var raw := c.unwrap(c.derive(row.hash, kek.value.salt), kek.value.wrapped);
      if raw.None? { return; }
      if env.fails(WrapKek) { return; }
      var wrapped := c.wrap(c.derive(newHash, kek.value.salt), raw.value);
      ok := db.KekUpdateWrapped(row.id, wrapped, env);
    }

    /** The transaction, what follows its end, and the audit entry. */
    method ReplaceHash(row: UserRow, user: string, newHash: Token, env: Env) returns (status: Status)
      modifies db, cache, cache.slots
      ensures Outcome(Done(status), Value()) == NewPassword(c, old(Value()), row, user, newHash, env)
    {
      hide ChangeTx;
      db.Begin();
      var ok := ChangeBody(row, newHash, env);
      if ok {
        db.Commit();
        cache.CacheInvalidate(row.id);
        status := Ok;
      } else {
        db.Rollback();
        status := ErrInternal;
      }
      db.AuditWrite(row.id, user, "user_change_password", status, None, env);
    }

    method UserChangePassword(user: string, password: string, newPassword: string, env: Env) returns (status: Status)
      requires Valid()
      modifies db, cache, cache.slots
      ensures Valid()
      ensures Outcome(Done(status), Value()) == Next(c, old(Value()), ChangePassword(user, password, newPassword), env)
    {
      StaysKeyed(c, Value(), ChangePassword(user, password, newPassword), env);
      assert Next(c, Value(), ChangePassword(user, password, newPassword), env) ==
             ChangePasswordOp(c, Value(), user, password, newPassword, env);
      hide Next;
      hide WellKeyed;
      hide NewPassword;
      if |user| == 0 || |user| > USERNAME_MAX { return ErrInternal; }
      var policy := env.policy(newPassword);
      if policy != Ok { return policy; }
      var row := db.UsersFindByUsername(user, env);
      if row.None? {
        db.AuditWrite(0, user, "user_change_password", ErrAuth, None, env);
        return ErrAuth;
      }
      if env.fails(VerifyPassword) || !c.verifyPassword(password, row.value.hash) {
        db.AuditWrite(row.value.id, user, "user_change_password", ErrAuth, None, env);
        return ErrAuth;
      }
      if env.fails(HashPassword) { return ErrInternal; }
      var newHash := c.hashPassword(newPassword, env.hashSalt);
      status := ReplaceHash(row.value, user, newHash, env);
    }

    method SsmKekRotate(user: string, env: Env) returns (status: Status)
      requires Valid()
      modifies db, cache, cache.slots
      ensures Valid()
      ensures Outcome(Done(status), Value()) == Next(c, old(Value()), Rotate(user), env)
    {
      StaysKeyed(c, Value(), Rotate(user), env);
      hide RotateTx;
      hide UserIds;
      hide KekOwners;
      hide SecretOwners;
      hide SecretIds;
      var row := db.UsersFindByUsername(user, env);
      if row.None? {
        db.AuditWrite(0, user, "kek_rotate", ErrAuth, None, env);
        return ErrAuth;
      }
      var ok := KekRotate(c, db, row.value.id, row.value.hash, env);
      if !ok {
        db.AuditWrite(row.value.id, user, "kek_rotate", ErrInternal, None, env);
        return ErrInternal;
      }
      cache.CacheInvalidate(row.value.id);
      db.AuditWrite(row.value.id, user, "kek_rotate", Ok, Some(user), env);
      return Ok;
    }
  }
}
