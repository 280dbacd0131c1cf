/**
 Refinement: the encrypted tables with their cache behave as the plain map. Every call gives the
 same reply and leads to related states, whatever step of it fails.
 */
module Refinement {
  import opened Types
  import opened Crypto
  import opened Calendar
  import opened Tables
  import opened KeyCache
  import opened Vault
  import opened PlainVault
  import opened Representation

  // ---- the cache holds only what would be derived ----

  /** A cached key belongs to an id already given out; for a live user it is the derived key. */
  ghost predicate FreshEntry(c: Suite, t: Tables, e: CacheEntry) {
    && e.userId <= t.lastUser
    && forall u :: u in t.users && t.users[u].id == e.userId && e.userId in t.keks ==>
         e.key == c.derive(t.users[u].hash, t.keks[e.userId].salt)
  }

  ghost predicate Fresh(c: Suite, t: Tables, cache: Cache) {
    forall i :: 0 <= i < |cache.entries| && cache.entries[i].valid ==> FreshEntry(c, t, cache.entries[i])
  }

  /** Fresh looks at nothing but hashes, salts and which ids are in use. */
  lemma FreshFrame(c: Suite, t: Tables, t': Tables, cache: Cache)
    requires Fresh(c, t, cache)
    requires t.lastUser <= t'.lastUser
    requires forall u :: u in t'.users && t'.users[u].id in t'.keks && t'.users[u].id <= t.lastUser ==>
      && u in t.users && t.users[u] == t'.users[u] && t'.users[u].id in t.keks
      && t.keks[t'.users[u].id].salt == t'.keks[t'.users[u].id].salt
    ensures Fresh(c, t', cache)
  {
  }

  /** After an invalidation only the other users' entries matter. */
  lemma FreshInvalidate(c: Suite, t: Tables, t': Tables, cache: Cache, user: string)
    requires WellKeyed(t) && Fresh(c, t, cache) && user in t.users
    requires OthersSame(t, t', user) && user in t'.users && t'.users[user].id == t.users[user].id
    requires t.lastUser == t'.lastUser
    ensures Fresh(c, t', Invalidate(cache, t.users[user].id))
  {
    var entries := Invalidate(cache, t.users[user].id).entries;
    forall i | 0 <= i < |entries| && entries[i].valid ensures FreshEntry(c, t', entries[i]) {
      assert entries[i] == cache.entries[i] && FreshEntry(c, t, cache.entries[i]);
      forall u | u in t'.users && t'.users[u].id == entries[i].userId && entries[i].userId in t'.keks
        ensures u in t'.users.Keys - {user}
        ensures entries[i].key == c.derive(t'.users[u].hash, t'.keks[entries[i].userId].salt)
      {
        assert u in t'.users.Keys - {user};
        assert u in t.users && SameAccount(t, t', t.users[u].id);
      }
    }
  }

  /** With fresh entries a hit gives the key that a miss derives, and a fill keeps them fresh. */
  lemma FreshLookup(c: Suite, t: Tables, cache: Cache, user: string, env: Env)
    requires UserIds(t.users, t.lastUser) && Fresh(c, t, cache) && user in t.users && t.users[user].id in t.keks
    ensures var row := t.users[user];
      var kek := t.keks[row.id];
      var (key, cache') := WrappingKey(c, cache, row, kek, env);
      && Fresh(c, t, cache')
      && key == if env.fails(DeriveOnMiss) && !Resident(cache.entries, row.id) then None
                else Some(c.derive(row.hash, kek.salt))
  {
  }

  // ---- what a client sees of a failed derivation ----

  /** The call needed a wrapping key that was not in the cache, and its derivation failed. */
  predicate KeyLost(s: State, call: Call, env: Env) {
    && env.fails(DeriveOnMiss) && (call.Store? || call.Get?)
    && call.user in s.t.users && !Resident(s.cache.entries, s.t.users[call.user].id)
  }

  /** To the plain map, which knows no cache, that is a KEK that could not be unwrapped. */
  function AsSeen(s: State, call: Call, env: Env): Env {
    if KeyLost(s, call, env) then env.(fails := (step: Step) => step == UnwrapKek || env.fails(step)) else env
  }

  lemma SeenSteps(s: State, call: Call, env: Env)
    ensures var env' := AsSeen(s, call, env);
      && env'.now == env.now
      && (env'.fails(UnwrapKek) <==> env.fails(UnwrapKek) || KeyLost(s, call, env))
      && (env'.fails(FindUser) <==> env.fails(FindUser)) && (env'.fails(FindKek) <==> env.fails(FindKek))
      && (env'.fails(Allocate) <==> env.fails(Allocate)) && (env'.fails(FindSecret) <==> env.fails(FindSecret))
      && (env'.fails(OpenSecret) <==> env.fails(OpenSecret)) && (env'.fails(SealSecret) <==> env.fails(SealSecret))
      && (env'.fails(AddSecret) <==> env.fails(AddSecret))
  {
  }

  // ---- the simulation ----

  /** For one user: the tables hold what the plain map says, and the cache holds nothing wrong. */
  ghost predicate Simulates(c: Suite, s: State, a: Plain, user: string) {
    Holds(c, s.t, a, user) && Fresh(c, s.t, s.cache)
  }

  // ---- the guards that the calls share ----

  lemma UserAgrees(c: Suite, t: Tables, a: Plain, user: string, env: Env)
    requires Holds(c, t, a, user)
    ensures LookupUser(t, user, env).Some? <==> FindAccount(a, user, env).Some?
    ensures user in t.users <==> user in a
    ensures user in a ==> RepAccount(c, t, t.users[user], a[user])
    ensures user in a ==> IsPasswordOf(c, a[user].password, t.users[user].hash)
  {
  }

  lemma KekAgrees(c: Suite, t: Tables, row: UserRow, acc: Account, env: Env)
    requires RepAccount(c, t, row, acc)
    ensures var kek := LookupKek(t, row.id, env);
      && (kek.None? <==> env.fails(FindKek) || acc.key.None?)
      && (kek.Some? ==>
            && kek.value == t.keks[row.id]
            && (IsExpired(kek.value.expiresAt, env.now) <==> Expired(acc.key.value, env.now))
            && RawKek(c, row.hash, kek.value).Some?
            && RawOf(c, row.hash, t.keks, row.id) == RawKek(c, row.hash, kek.value))
  {
  }

  lemma SecretAgrees(c: Suite, t: Tables, row: UserRow, acc: Account, name: string)
    requires RepAccount(c, t, row, acc)
    ensures SecretKey(row.id, name) in t.secrets <==> name in acc.secrets
    ensures name in acc.secrets ==>
      RepEntry(c, RawOf(c, row.hash, t.keks, row.id), t.secrets[SecretKey(row.id, name)], acc.secrets[name])
  {
  }

  // ---- one lemma for each call ----

  lemma FreshUser(c: Suite, t: Tables, cache: Cache, user: string, hash: Token, kek: KekRow)
    requires WellKeyed(t) && user !in t.users && Fresh(c, t, cache)
    ensures var t1 := InsertUser(t, user, hash);
      Fresh(c, t1, cache) && Fresh(c, t1.(keks := t1.keks[t.lastUser + 1 := kek]), cache)
  {
  }

  lemma RegisterSimulates(c: Suite, s: State, a: Plain, user: string, password: string, env: Env)
    requires Ideal(c) && Simulates(c, s, a, user)
    ensures var o := RegisterOp(c, s, user, password, env);
      var (reply, a') := PlainRegister(a, user, password, env);
      o.reply == reply && Simulates(c, o.state, a', user)
  {
    hide Represents;
    hide WellKeyed;
    hide Fresh;
    hide Format;
    hide RepAccount;
    UserAgrees(c, s.t, a, user, env);
    if user !in a {
      var t := s.t;
      var hash := c.hashPassword(password, env.hashSalt);
      var t1, a1 := InsertUser(t, user, hash), a[user := Account(password, None, map[])];
      var wrapped := c.wrap(c.derive(hash, env.kekSalt), env.kek);
      assert IsPasswordOf(c, password, hash);
      UserInserted(c, t, a, user, hash, password);
      KekInserted(c, t1, a1, user, env.kek, env.kekSalt, env.now);
      FreshUser(c, t, s.cache, user, hash, KekRow(wrapped, env.kekSalt, ExpiresAt(env.now), 1));
      assert a1[user := a1[user].(key := Some(NewKey(env.now)))] ==
          a[user := Account(password, Some(NewKey(env.now)), map[])];
    }
  }

  lemma AuthenticateSimulates(c: Suite, s: State, a: Plain, user: string, password: string, env: Env)
    requires Simulates(c, s, a, user)
    ensures var o := AuthenticateOp(c, s, user, password, env);
      var (reply, a') := PlainAuthenticate(a, user, password, env);
      o.reply == reply && Simulates(c, o.state, a', user)
  {
    hide Holds;
    hide Fresh;
    hide RepAccount;
    UserAgrees(c, s.t, a, user, env);
  }

  lemma StoreSimulates(c: Suite, s: State, a: Plain, user: string, priv: Bytes, pub: Bytes, name: string,
                       description: string, env: Env)
    requires Ideal(c) && Simulates(c, s, a, user)
    ensures var o := StoreOp(c, s, user, priv, pub, name, description, env);
      var env' := AsSeen(s, Store(user, priv, pub, name, description), env);
      var (reply, a') := PlainStore(a, user, priv, pub, name, description, env');
      o.reply == reply && Simulates(c, o.state, a', user)
  {
    hide Ideal;
    hide Represents;
    hide WellKeyed;
    hide Fresh;
    hide Format;
    hide Parse;
    hide RepAccount;
    hide RepEntry;
    hide IsPasswordOf;
    hide IsExpired;
    hide WrappingKey;
    SeenSteps(s, Store(user, priv, pub, name, description), env);
    hide AsSeen;
    UserAgrees(c, s.t, a, user, env);
    if user in a {
      var row, acc := s.t.users[user], a[user];
      KekAgrees(c, s.t, row, acc, env);
      SecretAgrees(c, s.t, row, acc, name);
      if LookupKek(s.t, row.id, env).Some? {
        KeyedParts(s.t);
        FreshLookup(c, s.t, s.cache, user, env);
        var cache := WrappingKey(c, s.cache, row, s.t.keks[row.id], env).1;
        var raw := RawKek(c, row.hash, s.t.keks[row.id]).value;
        if name !in acc.secrets {
          SecretInserted(c, s.t, a, user, raw, env.nonce, name, priv, pub, description, Format(env.now));
          FreshInsertSecret(c, s.t, cache, row.id, name, c.seal(raw, env.nonce, priv), env.nonce, pub, description,
                            Format(env.now));
        }
      }
    }
  }

  lemma KeyedParts(t: Tables)
    requires WellKeyed(t)
    ensures UserIds(t.users, t.lastUser)
  {
  }

  lemma FreshInsertSecret(c: Suite, t: Tables, cache: Cache, id: nat, name: string, box: Sealed, nonce: Token,
                          pub: Bytes, description: string, updatedAt: string)
    requires Fresh(c, t, cache)
    ensures Fresh(c, InsertSecret(t, id, name, box, nonce, pub, description, updatedAt), cache)
  {
  }

  lemma GetSimulates(c: Suite, s: State, a: Plain, user: string, name: string, privCap: nat, pubCap: Option<nat>,
                     env: Env)
    requires Simulates(c, s, a, user)
    ensures var o := GetOp(c, s, user, name, privCap, pubCap, env);
      var env' := AsSeen(s, Get(user, name, privCap, pubCap), env);
      var (reply, a') := PlainGet(a, user, name, privCap, pubCap, env');
      o.reply == reply && Simulates(c, o.state, a', user)
  {
    hide Represents;
    hide WellKeyed;
    hide Fresh;
    hide Parse;
    hide RepAccount;
    hide IsPasswordOf;
    hide IsExpired;
    hide WrappingKey;
    hide Deliver;
    SeenSteps(s, Get(user, name, privCap, pubCap), env);
    hide AsSeen;
    UserAgrees(c, s.t, a, user, env);
    if user in a {
      var row, acc := s.t.users[user], a[user];
      KekAgrees(c, s.t, row, acc, env);
      SecretAgrees(c, s.t, row, acc, name);
      if LookupKek(s.t, row.id, env).Some? {
        KeyedParts(s.t);
        FreshLookup(c, s.t, s.cache, user, env);
      }
    }
  }

  lemma DeleteSimulates(c: Suite, s: State, a: Plain, user: string, name: string, env: Env)
    requires Simulates(c, s, a, user)
    ensures var o := DeleteOp(s, user, name, env);
      var (reply, a') := PlainDelete(a, user, name, env);
      o.reply == reply && Simulates(c, o.state, a', user)
  {
    hide Represents;
    hide WellKeyed;
    hide Fresh;
    hide Parse;
    hide RepAccount;
    hide RepEntry;
    hide IsPasswordOf;
    hide IsExpired;
    UserAgrees(c, s.t, a, user, env);
    if user in a {
      var row := s.t.users[user];
      KekAgrees(c, s.t, row, a[user], env);
      SecretAgrees(c, s.t, row, a[user], name);
      SecretDeleted(c, s.t, a, user, name);
      FreshFrame(c, s.t, DeleteSecret(s.t, row.id, name), s.cache);
    }
  }

  lemma {:induction false} ItemsAgree(c: Suite, t: Tables, row: UserRow, acc: Account, scan: seq<string>)
    requires RepAccount(c, t, row, acc)
    ensures Items(Rows(t, row.id, scan)) == PlainItems(acc.secrets, scan)
  {
    hide RepAccount;
    if scan == [] {
    } else {
      ItemsAgree(c, t, row, acc, scan[..|scan| - 1]);
      SecretAgrees(c, t, row, acc, scan[|scan| - 1]);
    }
  }

  lemma ListSimulates(c: Suite, s: State, a: Plain, user: string, env: Env)
    requires Simulates(c, s, a, user)
    ensures var o := ListOp(s, user, env);
      var (reply, a') := PlainList(a, user, env);
      o.reply == reply && Simulates(c, o.state, a', user)
  {
    hide Holds;
    hide Fresh;
    hide Parse;
    hide RepAccount;
    hide IsPasswordOf;
    hide IsExpired;
    hide Items;
    hide Rows;
    hide PlainItems;
    UserAgrees(c, s.t, a, user, env);
    if user in a {
      KekAgrees(c, s.t, s.t.users[user], a[user], env);
      ItemsAgree(c, s.t, s.t.users[user], a[user], env.scan);
    }
  }

  lemma RemoveSimulates(c: Suite, s: State, a: Plain, user: string, password: string, env: Env)
    requires Simulates(c, s, a, user)
    ensures var o := RemoveAccountOp(c, s, user, password, env);
      var (reply, a') := PlainRemove(a, user, password, env);
      o.reply == reply && Simulates(c, o.state, a', user)
  {
    hide Represents;
    hide WellKeyed;
    hide Fresh;
    hide RepAccount;
    hide DeleteUser;
    UserAgrees(c, s.t, a, user, env);
    if user in a {
      UserDeleted(c, s.t, a, user);
      FreshDeleteUser(c, s.t, s.cache, s.t.users[user].id);
    }
  }

  lemma FreshDeleteUser(c: Suite, t: Tables, cache: Cache, id: nat)
    requires Fresh(c, t, cache)
    ensures Fresh(c, DeleteUser(t, id), cache)
  {
  }

  lemma ChangeSimulates(c: Suite, s: State, a: Plain, user: string, password: string, newPassword: string, env: Env)
    requires Ideal(c) && Simulates(c, s, a, user)
    ensures var o := ChangePasswordOp(c, s, user, password, newPassword, env);
      var (reply, a') := PlainChange(a, user, password, newPassword, env);
      o.reply == reply && Simulates(c, o.state, a', user)
  {
    hide Represents;
    hide WellKeyed;
    hide Fresh;
    hide RepAccount;
    hide ChangeTx;
    UserAgrees(c, s.t, a, user, env);
    if user in a {
      var newHash := c.hashPassword(newPassword, env.hashSalt);
      assert IsPasswordOf(c, newPassword, newHash);
      PasswordChanged(c, s.t, a, user, newHash, newPassword, env);
      ChangeKeepsFresh(c, s.t, s.cache, user, newHash, env);
    }
  }

  /** What a password change does besides setting the hash is to the KEK of that user. */
  lemma ChangeFrame(c: Suite, t: Tables, id: nat, hash: Token, newHash: Token, env: Env)
    requires ChangeTx(c, t, id, hash, newHash, env).Some?
    ensures var t1, t2 := SetHash(t, id, newHash), ChangeTx(c, t, id, hash, newHash, env).value;
      && t2.users == t1.users && t2.secrets == t1.secrets && t2.lastUser == t1.lastUser
      && t2.lastSecret == t1.lastSecret && id in t1.keks && t2.keks == t1.keks[id := t2.keks[id]]
      && t2.keks[id].version == t1.keks[id].version
  {
    hide SetHash;
  }

  lemma ChangeKeyed(c: Suite, t: Tables, user: string, newHash: Token, env: Env)
    requires WellKeyed(t) && user in t.users
    ensures var changed := ChangeTx(c, t, t.users[user].id, t.users[user].hash, newHash, env);
      changed.Some? ==> WellKeyed(changed.value) && OthersSame(t, changed.value, user)
  {
    var row := t.users[user];
    var changed := ChangeTx(c, t, row.id, row.hash, newHash, env);
    hide OthersSame;
    hide WellKeyed;
    if changed.Some? {
      var t1, t2 := SetHash(t, row.id, newHash), changed.value;
      SetHashKeyed(t, user, newHash);
      ChangeFrame(c, t, row.id, row.hash, newHash, env);
      hide SetHash;
      hide ChangeTx;
      VersionsPositive(t1);
      KekAndSecretsKeyed(t1, t2, user);
      OthersSameTransitive(t, t1, t2, user);
    }
  }

  lemma ChangeKeepsFresh(c: Suite, t: Tables, cache: Cache, user: string, newHash: Token, env: Env)
    requires WellKeyed(t) && user in t.users
    ensures var row := t.users[user];
      var changed := ChangeTx(c, t, row.id, row.hash, newHash, env);
      changed.Some? ==>
        && WellKeyed(changed.value) && OthersSame(t, changed.value, user)
        && (Fresh(c, t, cache) ==> Fresh(c, changed.value, Invalidate(cache, row.id)))
  {
    var row := t.users[user];
    var changed := ChangeTx(c, t, row.id, row.hash, newHash, env);
    hide Fresh;
    hide OthersSame;
    hide WellKeyed;
    ChangeKeyed(c, t, user, newHash, env);
    if changed.Some? {
      ChangeFrame(c, t, row.id, row.hash, newHash, env);
      LastUserKept(t, row.id, newHash);
      hide ChangeTx;
      hide SetHash;
      if Fresh(c, t, cache) { FreshInvalidate(c, t, changed.value, cache, user); }
    }
  }

  lemma LastUserKept(t: Tables, id: nat, hash: Token)
    ensures SetHash(t, id, hash).lastUser == t.lastUser
  {
  }

  lemma RotateSimulates(c: Suite, s: State, a: Plain, user: string, env: Env)
    requires Ideal(c) && Simulates(c, s, a, user)
    requires user in s.t.users && RotateOp(c, s, user, env).reply == Done(Ok) ==>
               ScanComplete(s.t, s.t.users[user].id, env.scan)
    ensures var o := RotateOp(c, s, user, env);
      var (reply, a') := PlainRotate(a, user, env);
      o.reply == reply && Simulates(c, o.state, a', user)
  {
    hide Represents;
    hide WellKeyed;
    hide Fresh;
    hide RepAccount;
    hide RotateTx;
    hide RotateFails;
    hide Renewed;
    UserAgrees(c, s.t, a, user, env);
    if user in a {
      KekRotated(c, s.t, a, user, env);
      RotateKeepsFresh(c, s.t, s.cache, user, env);
    }
  }

  lemma RotateKeepsFresh(c: Suite, t: Tables, cache: Cache, user: string, env: Env)
    requires WellKeyed(t) && user in t.users
    ensures var row := t.users[user];
      var rotated := RotateTx(c, t, row.id, row.hash, env);
      rotated.Some? ==>
        && WellKeyed(rotated.value) && OthersSame(t, rotated.value, user)
        && (Fresh(c, t, cache) ==> Fresh(c, rotated.value, Invalidate(cache, row.id)))
  {
    hide Fresh;
    hide ResealScanned;
    hide SomeResealFails;
    hide AllOpen;
    hide Format;
    var row := t.users[user];
    var rotated := RotateTx(c, t, row.id, row.hash, env);
    if rotated.Some? {
      var t' := rotated.value;
      ResealKeepsKeys(c, t, row.id, RawKek(c, row.hash, t.keks[row.id]).value, env);
      assert t'.keks.Keys == t.keks.Keys;
      VersionsPositive(t);
      hide WellKeyed;
      KekAndSecretsKeyed(t, t', user);
      if Fresh(c, t, cache) { FreshInvalidate(c, t, t', cache, user); }
    }
  }

  /** The one thing asked of a call: that a rotation which commits was delivered every row. */
  predicate ScanOk(c: Suite, s: State, call: Call, env: Env) {
    call.Rotate? && call.user in s.t.users && Next(c, s, call, env).reply == Done(Ok) ==>
      ScanComplete(s.t, s.t.users[call.user].id, env.scan)
  }

  /** Every call, whatever fails in it, answers as the plain map does and keeps the simulation of its user. */
  lemma CallSimulates(c: Suite, s: State, a: Plain, call: Call, env: Env)
    requires Ideal(c) && Simulates(c, s, a, call.user) && ScanOk(c, s, call, env)
    ensures var o := Next(c, s, call, env);
      var (reply, a') := PlainNext(a, call, AsSeen(s, call, env));
      o.reply == reply && Simulates(c, o.state, a', call.user)
  {
    hide Simulates;
    hide ScanComplete;
    match call
    case Register(u, p) => RegisterSimulates(c, s, a, u, p, env);
    case Authenticate(u, p) => AuthenticateSimulates(c, s, a, u, p, env);
    case Store(u, priv, pub, n, d) => StoreSimulates(c, s, a, u, priv, pub, n, d, env);
    case Get(u, n, privCap, pubCap) => GetSimulates(c, s, a, u, n, privCap, pubCap, env);
    case Delete(u, n) => DeleteSimulates(c, s, a, u, n, env);
    case List(u) => ListSimulates(c, s, a, u, env);
    case RemoveAccount(u, p) => RemoveSimulates(c, s, a, u, p, env);
    case ChangePassword(u, p, q) => ChangeSimulates(c, s, a, u, p, q, env);
    case Rotate(u) => RotateSimulates(c, s, a, u, env);
  }

  /** A call of the plain map touches one account only. */
  lemma PlainTouchesOne(a: Plain, call: Call, env: Env, user: string)
    requires user != call.user
    ensures var a' := PlainNext(a, call, env).1;
      (user in a' <==> user in a) && (user in a ==> a'[user] == a[user])
  {
    hide Format;
    hide PlainItems;
  }
}
