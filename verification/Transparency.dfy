/**
 What every call keeps whatever fails in it and whatever the scan of a rotation delivered: the keys
 of the tables, every other user's rows, and the freshness of the cache, which makes the cache
 invisible. And what a stale cache, as a restored database leaves behind, can and cannot do.
 */
module Transparency {
  import opened Types
  import opened Crypto
  import opened Calendar
  import opened Tables
  import opened KeyCache
  import opened Vault
  import opened Refinement

  ghost predicate Intact(c: Suite, s: State) { WellKeyed(s.t) && Fresh(c, s.t, s.cache) }

  /** What one call may do to the state: whether or not the cache was fresh, only this user's rows change. */
  ghost predicate Kept(c: Suite, s: State, s': State, user: string) {
    && WellKeyed(s'.t) && OthersSame(s.t, s'.t, user)
    && (Fresh(c, s.t, s.cache) ==> Fresh(c, s'.t, s'.cache))
  }

  lemma NothingChanged(c: Suite, s: State, s': State, user: string)
    requires WellKeyed(s.t) && s'.t == s.t && (Fresh(c, s.t, s.cache) ==> Fresh(c, s.t, s'.cache))
    ensures Kept(c, s, s', user)
  {
  }

  lemma RegisterKeeps(c: Suite, s: State, user: string, password: string, env: Env)
    requires WellKeyed(s.t)
    ensures Kept(c, s, RegisterOp(c, s, user, password, env).state, user)
  {
    hide Fresh;
    hide WellKeyed;
    hide OthersSame;
    hide Format;
    var t := s.t;
    NothingChanged(c, s, s, user);
    if user !in t.users {
      var hash := c.hashPassword(password, env.hashSalt);
      var wrapped := c.wrap(c.derive(hash, env.kekSalt), env.kek);
      var t1 := InsertUser(t, user, hash);
      var t2 := InsertKek(t1, t.lastUser + 1, wrapped, env.kekSalt, ExpiresAt(env.now));
      InsertUserKeyed(t, user, hash);
      InsertKekKeyed(t1, user, wrapped, env.kekSalt, ExpiresAt(env.now));
      OthersSameTransitive(t, t1, t2, user);
      if Fresh(c, t, s.cache) {
        FreshUser(c, t, s.cache, user, hash, KekRow(wrapped, env.kekSalt, ExpiresAt(env.now), 1));
      }
    }
  }

  lemma StoreKeeps(c: Suite, s: State, user: string, priv: Bytes, pub: Bytes, name: string, description: string,
                   env: Env)
    requires WellKeyed(s.t)
    ensures Kept(c, s, StoreOp(c, s, user, priv, pub, name, description, env).state, user)
  {
    hide Fresh;
    hide WellKeyed;
    hide OthersSame;
    hide WrappingKey;
    hide Format;
    hide IsExpired;
    var o := StoreOp(c, s, user, priv, pub, name, description, env);
    NothingChanged(c, s, s, user);
    if user in s.t.users && s.t.users[user].id in s.t.keks {
      var row := s.t.users[user];
      KeyedParts(s.t);
      if Fresh(c, s.t, s.cache) { FreshLookup(c, s.t, s.cache, user, env); }
      if o.state.t == s.t {
        NothingChanged(c, s, o.state, user);
      } else {
        var key := WrappingKey(c, s.cache, row, s.t.keks[row.id], env).0;
        var raw := c.unwrap(key.value, s.t.keks[row.id].wrapped).value;
        InsertSecretKeyed(s.t, user, name, c.seal(raw, env.nonce, priv), env.nonce, pub, description, Format(env.now));
        if Fresh(c, s.t, s.cache) {
          FreshInsertSecret(c, s.t, o.state.cache, row.id, name, c.seal(raw, env.nonce, priv), env.nonce, pub,
                            description, Format(env.now));
        }
      }
    }
  }

  lemma GetKeeps(c: Suite, s: State, user: string, name: string, privCap: nat, pubCap: Option<nat>, env: Env)
    requires WellKeyed(s.t)
    ensures Kept(c, s, GetOp(c, s, user, name, privCap, pubCap, env).state, user)
  {
    hide Fresh;
    hide WellKeyed;
    hide OthersSame;
    hide WrappingKey;
    hide IsExpired;
    hide Deliver;
    NothingChanged(c, s, s, user);
    if user in s.t.users && s.t.users[user].id in s.t.keks {
      KeyedParts(s.t);
      if Fresh(c, s.t, s.cache) { FreshLookup(c, s.t, s.cache, user, env); }
      NothingChanged(c, s, GetOp(c, s, user, name, privCap, pubCap, env).state, user);
    }
  }

  lemma DeleteKeeps(c: Suite, s: State, user: string, name: string, env: Env)
    requires WellKeyed(s.t)
    ensures Kept(c, s, DeleteOp(s, user, name, env).state, user)
  {
    hide Fresh;
    hide WellKeyed;
    hide OthersSame;
    hide IsExpired;
    NothingChanged(c, s, s, user);
    if user in s.t.users {
      DeleteSecretKeyed(s.t, user, name);
      if Fresh(c, s.t, s.cache) { FreshFrame(c, s.t, DeleteSecret(s.t, s.t.users[user].id, name), s.cache); }
    }
  }

  lemma RemoveKeeps(c: Suite, s: State, user: string, password: string, env: Env)
    requires WellKeyed(s.t)
    ensures Kept(c, s, RemoveAccountOp(c, s, user, password, env).state, user)
  {
    hide Fresh;
    hide WellKeyed;
    hide OthersSame;
    hide DeleteUser;
    NothingChanged(c, s, s, user);
    if user in s.t.users {
      DeleteUserKeyed(s.t, user);
      if Fresh(c, s.t, s.cache) { FreshDeleteUser(c, s.t, s.cache, s.t.users[user].id); }
    }
  }

  lemma ChangeKeeps(c: Suite, s: State, user: string, password: string, newPassword: string, env: Env)
    requires WellKeyed(s.t)
    ensures Kept(c, s, ChangePasswordOp(c, s, user, password, newPassword, env).state, user)
  {
    hide Fresh;
    hide WellKeyed;
    hide OthersSame;
    hide ChangeTx;
    NothingChanged(c, s, s, user);
    if user in s.t.users {
      ChangeKeepsFresh(c, s.t, s.cache, user, c.hashPassword(newPassword, env.hashSalt), env);
    }
  }

  lemma RotateKeeps(c: Suite, s: State, user: string, env: Env)
    requires WellKeyed(s.t)
    ensures Kept(c, s, RotateOp(c, s, user, env).state, user)
  {
    hide Fresh;
    hide WellKeyed;
    hide OthersSame;
    hide RotateTx;
    NothingChanged(c, s, s, user);
    if user in s.t.users { RotateKeepsFresh(c, s.t, s.cache, user, env); }
  }

  /** Integrity and tenant isolation: a call keeps all keys and fresh entries and touches one user's rows. */
  lemma CallKeeps(c: Suite, s: State, call: Call, env: Env)
    requires WellKeyed(s.t)
    ensures Kept(c, s, Next(c, s, call, env).state, call.user)
  {
    hide Kept;
    match call
    case Register(u, p) => RegisterKeeps(c, s, u, p, env);
    case Authenticate(u, p) => NothingChanged(c, s, AuthenticateOp(c, s, u, p, env).state, u);
    case Store(u, priv, pub, n, d) => StoreKeeps(c, s, u, priv, pub, n, d, env);
    case Get(u, n, privCap, pubCap) => GetKeeps(c, s, u, n, privCap, pubCap, env);
    case Delete(u, n) => DeleteKeeps(c, s, u, n, env);
    case List(u) => NothingChanged(c, s, ListOp(s, u, env).state, u);
    case RemoveAccount(u, p) => RemoveKeeps(c, s, u, p, env);
    case ChangePassword(u, p, q) => ChangeKeeps(c, s, u, p, q, env);
    case Rotate(u) => RotateKeeps(c, s, u, env);
  }

  /** Deleting a user removes its row, its KEK and its secrets, and nothing else. */
  lemma RemovalIsExact(c: Suite, s: State, user: string, password: string, env: Env)
    requires WellKeyed(s.t) && RemoveAccountOp(c, s, user, password, env).reply == Done(Ok)
    ensures var id, t' := s.t.users[user].id, RemoveAccountOp(c, s, user, password, env).state.t;
      && t'.users == s.t.users - {user}
      && t'.keks == s.t.keks - {id}
      && (forall k :: k in t'.secrets <==> k in s.t.secrets && k.owner != id)
      && (forall k :: k in t'.secrets ==> t'.secrets[k] == s.t.secrets[k])
      && !HasId(t'.users, id) && t'.lastUser == s.t.lastUser
  {
  }

  // ---- the KEK of every user unwraps, in every run ----

  /** The stored KEK unwraps under the stored hash and salt. */
  predicate KekUnwraps(c: Suite, t: Tables, user: string) {
    user in t.users && t.users[user].id in t.keks ==> RawKek(c, t.users[user].hash, t.keks[t.users[user].id]).Some?
  }

  ghost predicate AllUnwrap(c: Suite, t: Tables) { forall u :: KekUnwraps(c, t, u) }

  lemma OtherUnwraps(c: Suite, t: Tables, t': Tables, user: string, other: string)
    requires OthersSame(t, t', user) && other != user && KekUnwraps(c, t, other)
    ensures KekUnwraps(c, t', other)
  {
    hide RawKek;
    assert other in t.users.Keys - {user} <==> other in t'.users.Keys - {user};
  }

  lemma RegisterUnwraps(c: Suite, s: State, user: string, password: string, env: Env)
    requires Ideal(c) && WellKeyed(s.t) && KekUnwraps(c, s.t, user)
    ensures KekUnwraps(c, RegisterOp(c, s, user, password, env).state.t, user)
  {
    NextIdIsUnused(s.t);
    hide WellKeyed;
    hide HasId;
    hide Format;
  }

  lemma ChangeUnwraps(c: Suite, s: State, user: string, password: string, newPassword: string, env: Env)
    requires Ideal(c) && KekUnwraps(c, s.t, user)
    ensures KekUnwraps(c, ChangePasswordOp(c, s, user, password, newPassword, env).state.t, user)
  {
    if user in s.t.users {
      ChangeTxUnwraps(c, s.t, user, c.hashPassword(newPassword, env.hashSalt), env);
    }
    hide ChangeTx;
    hide RawKek;
  }

  lemma ChangeTxUnwraps(c: Suite, t: Tables, user: string, newHash: Token, env: Env)
    requires Ideal(c) && user in t.users
    ensures var changed := ChangeTx(c, t, t.users[user].id, t.users[user].hash, newHash, env);
      changed.Some? ==> KekUnwraps(c, changed.value, user)
  {
  }

  lemma RotateUnwraps(c: Suite, s: State, user: string, env: Env)
    requires Ideal(c) && KekUnwraps(c, s.t, user)
    ensures KekUnwraps(c, RotateOp(c, s, user, env).state.t, user)
  {
    if user in s.t.users { RotateTxUnwraps(c, s.t, user, env); }
    hide RotateTx;
    hide RawKek;
  }

  lemma RotateTxUnwraps(c: Suite, t: Tables, user: string, env: Env)
    requires Ideal(c) && user in t.users
    ensures var rotated := RotateTx(c, t, t.users[user].id, t.users[user].hash, env);
      rotated.Some? ==> KekUnwraps(c, rotated.value, user)
  {
    hide Format;
    hide ResealScanned;
    hide AllOpen;
    hide SomeResealFails;
  }

  lemma OtherCallUnwraps(c: Suite, s: State, call: Call, env: Env)
    requires KekUnwraps(c, s.t, call.user) && !call.Register? && !call.ChangePassword? && !call.Rotate?
    ensures KekUnwraps(c, Next(c, s, call, env).state.t, call.user)
  {
    hide RawKek;
    hide Format;
    hide IsExpired;
    hide WrappingKey;
    hide Deliver;
    hide Items;
    hide Rows;
  }

  lemma CallUnwraps(c: Suite, s: State, call: Call, env: Env)
    requires Ideal(c) && WellKeyed(s.t) && AllUnwrap(c, s.t)
    ensures AllUnwrap(c, Next(c, s, call, env).state.t)
  {
    hide Ideal;
    hide WellKeyed;
    hide OthersSame;
    hide KekUnwraps;
    hide Fresh;
    CallKeeps(c, s, call, env);
    var t' := Next(c, s, call, env).state.t;
    forall u | u != call.user ensures KekUnwraps(c, t', u) {
      OtherUnwraps(c, s.t, t', call.user, u);
      hide Next;
    }
    OwnCallUnwraps(c, s, call, env);
  }

  lemma OwnCallUnwraps(c: Suite, s: State, call: Call, env: Env)
    requires Ideal(c) && WellKeyed(s.t) && KekUnwraps(c, s.t, call.user)
    ensures KekUnwraps(c, Next(c, s, call, env).state.t, call.user)
  {
    hide Ideal;
    hide WellKeyed;
    hide KekUnwraps;
    hide RegisterOp;
    hide RotateOp;
    hide ChangePasswordOp;
    match call
    case Register(u, p) => RegisterUnwraps(c, s, u, p, env);
    case Rotate(u) => RotateUnwraps(c, s, u, env);
    case ChangePassword(u, p, q) => ChangeUnwraps(c, s, u, p, q, env);
    case _ => OtherCallUnwraps(c, s, call, env);
  }

  // ---- what a call needs of the wrapping key ----

  predicate SameVisible(o1: Outcome, o2: Outcome) {
    o1.reply == o2.reply && o1.state.t == o2.state.t && o1.state.log == o2.state.log
  }

  /** The user and its KEK are found, the KEK is in date, and nothing but the key stands in the way of its use. */
  predicate GetsToTheKek(t: Tables, user: string, env: Env) {
    && !env.fails(FindUser) && user in t.users && !env.fails(FindKek) && t.users[user].id in t.keks
    && !IsExpired(t.keks[t.users[user].id].expiresAt, env.now)
    && !env.fails(Allocate) && !env.fails(UnwrapKek)
  }

  /** The answer of the call depends on whether it obtains the right wrapping key. */
  predicate NeedsKey(t: Tables, call: Call, env: Env) {
    && (call.Store? || call.Get?) && GetsToTheKek(t, call.user, env)
    && var key := SecretKey(t.users[call.user].id, call.name);
       if call.Get? then !env.fails(FindSecret) && key in t.secrets
       else call.priv != [] && !env.fails(SealSecret) && !env.fails(AddSecret) && key !in t.secrets
  }

  /** The wrapping key that a call of this user obtains from this cache. */
  function KeyFrom(c: Suite, t: Tables, cache: Cache, user: string, env: Env): Option<Token>
    requires user in t.users && t.users[user].id in t.keks
  {
    WrappingKey(c, cache, t.users[user], t.keks[t.users[user].id], env).0
  }

  predicate RightKey(c: Suite, t: Tables, cache: Cache, user: string, env: Env) {
    user in t.users && t.users[user].id in t.keks &&
    KeyFrom(c, t, cache, user, env) == Some(c.derive(t.users[user].hash, t.keks[t.users[user].id].salt))
  }

  /** The cache matters only through the key that it gives. */
  lemma SameKeySameAnswer(c: Suite, s: State, other: Cache, call: Call, env: Env)
    requires call.Store? || call.Get?
    requires var u := call.user; u in s.t.users && s.t.users[u].id in s.t.keks ==>
      KeyFrom(c, s.t, s.cache, u, env) == KeyFrom(c, s.t, other, u, env)
    ensures SameVisible(Next(c, s, call, env), Next(c, s.(cache := other), call, env))
  {
    hide WrappingKey;
    hide IsExpired;
    hide Format;
    hide Deliver;
  }

  /** With no key or a wrong one, a call that needs the key answers ErrInternal. */
  lemma NoKeyNoAnswer(c: Suite, s: State, call: Call, env: Env)
    requires Ideal(c) && KekUnwraps(c, s.t, call.user) && !RightKey(c, s.t, s.cache, call.user, env)
    requires NeedsKey(s.t, call, env)
    ensures var o := Next(c, s, call, env);
      && o.reply == (if call.Get? then GetFailed(ErrInternal, call.privCap, call.pubCap) else Done(ErrInternal))
      && o.state.t == s.t && o.state.log == s.log
  {
    var row := s.t.users[call.user];
    KeysAgree(c, row.hash, s.t.keks[row.id], KeyFrom(c, s.t, s.cache, call.user, env));
    hide Ideal;
    hide RawKek;
    hide WrappingKey;
    hide IsExpired;
    hide Format;
  }

  /** With the right key, a call that needs it answers something else. */
  lemma RightKeyAnswers(c: Suite, s: State, call: Call, env: Env)
    requires KekUnwraps(c, s.t, call.user) && RightKey(c, s.t, s.cache, call.user, env) && NeedsKey(s.t, call, env)
    ensures Next(c, s, call, env).reply !=
            (if call.Get? then GetFailed(ErrInternal, call.privCap, call.pubCap) else Done(ErrInternal))
  {
    hide WrappingKey;
    hide IsExpired;
    hide Format;
  }

  /** A call that does not need the key answers the same whatever the cache holds. */
  lemma NoNeedSameAnswer(c: Suite, s: State, other: Cache, call: Call, env: Env)
    requires (call.Store? || call.Get?) && !NeedsKey(s.t, call, env)
    ensures SameVisible(Next(c, s, call, env), Next(c, s.(cache := other), call, env))
  {
    hide WrappingKey;
    hide IsExpired;
    hide Format;
  }

  // ---- the cache cannot be observed, unless a hit saves a call from a failing derivation ----

  predicate HasResident(cache: Cache, t: Tables, user: string) {
    user in t.users && Resident(cache.entries, t.users[user].id)
  }

  /** With fresh entries the key is the right one, but for a derivation that is needed and fails. */
  lemma FreshKey(c: Suite, t: Tables, cache: Cache, user: string, env: Env)
    requires WellKeyed(t) && Fresh(c, t, cache) && user in t.users && t.users[user].id in t.keks
    ensures if env.fails(DeriveOnMiss) && !HasResident(cache, t, user) then KeyFrom(c, t, cache, user, env).None?
            else RightKey(c, t, cache, user, env)
  {
    KeyedParts(t);
    FreshLookup(c, t, cache, user, env);
    hide Fresh;
    hide WellKeyed;
  }

  /** Of the two caches exactly one holds the user's key, and it is needed while derivation fails. */
  predicate CacheShows(s: State, other: Cache, call: Call, env: Env) {
    && env.fails(DeriveOnMiss) && NeedsKey(s.t, call, env)
    && HasResident(s.cache, s.t, call.user) != HasResident(other, s.t, call.user)
  }

  lemma KeyCallTransparent(c: Suite, s: State, other: Cache, call: Call, env: Env)
    requires Ideal(c) && Intact(c, s) && KekUnwraps(c, s.t, call.user) && Fresh(c, s.t, other)
    requires (call.Store? || call.Get?)
    ensures var o, o' := Next(c, s, call, env), Next(c, s.(cache := other), call, env);
      && (o.reply == o'.reply <==> !CacheShows(s, other, call, env))
      && (!CacheShows(s, other, call, env) ==> SameVisible(o, o'))
  {
    hide Ideal;
    hide Fresh;
    hide WellKeyed;
    hide KekUnwraps;
    hide KeyFrom;
    hide Next;
    hide HasResident;
    var u := call.user;
    if !NeedsKey(s.t, call, env) {
      NoNeedSameAnswer(c, s, other, call, env);
    } else {
      FreshKey(c, s.t, s.cache, u, env);
      FreshKey(c, s.t, other, u, env);
      if !CacheShows(s, other, call, env) {
        SameKeySameAnswer(c, s, other, call, env);
      } else if HasResident(s.cache, s.t, u) {
        RightKeyAnswers(c, s, call, env);
        NoKeyNoAnswer(c, s.(cache := other), call, env);
      } else {
        RightKeyAnswers(c, s.(cache := other), call, env);
        NoKeyNoAnswer(c, s, call, env);
      }
    }
  }

  lemma ChangeTransparent(c: Suite, s: State, other: Cache, user: string, password: string, newPassword: string,
                          env: Env)
    ensures SameVisible(ChangePasswordOp(c, s, user, password, newPassword, env),
                        ChangePasswordOp(c, s.(cache := other), user, password, newPassword, env))
  {
  }

  lemma RotateTransparent(c: Suite, s: State, other: Cache, user: string, env: Env)
    ensures SameVisible(RotateOp(c, s, user, env), RotateOp(c, s.(cache := other), user, env))
  {
    hide RotateTx;
    hide LookupUser;
  }

  lemma RegisterTransparent(c: Suite, s: State, other: Cache, user: string, password: string, env: Env)
    ensures SameVisible(RegisterOp(c, s, user, password, env), RegisterOp(c, s.(cache := other), user, password, env))
  {
    hide ExpiresAt;
    hide InsertUser;
    hide InsertKek;
    hide ValidUsername;
  }

  /** The other calls never read the cache. */
  lemma CachelessTransparent(c: Suite, s: State, other: Cache, call: Call, env: Env)
    requires !call.Store? && !call.Get?
    ensures SameVisible(Next(c, s, call, env), Next(c, s.(cache := other), call, env))
  {
    hide IsExpired;
    hide ExpiresAt;
    hide DeleteUser;
    hide Items;
    hide Rows;
    hide RegisterOp;
    hide ChangePasswordOp;
    hide RotateOp;
    match call
    case Register(u, p) => RegisterTransparent(c, s, other, u, p, env);
    case Rotate(u) => RotateTransparent(c, s, other, u, env);
    case ChangePassword(u, p, q) => ChangeTransparent(c, s, other, u, p, q, env);
    case _ =>
  }

  /**
   One call with any two fresh caches gives the same reply if and only if it is not one that needs a key
   which only one of them holds while derivation fails; and then also the same tables and audit log.
   */
  lemma CallTransparent(c: Suite, s: State, other: Cache, call: Call, env: Env)
    requires Ideal(c) && Intact(c, s) && KekUnwraps(c, s.t, call.user) && Fresh(c, s.t, other)
    ensures var o, o' := Next(c, s, call, env), Next(c, s.(cache := other), call, env);
      && (o.reply == o'.reply <==> !CacheShows(s, other, call, env))
      && (!CacheShows(s, other, call, env) ==> SameVisible(o, o'))
  {
    hide Ideal;
    hide Intact;
    hide KekUnwraps;
    hide Fresh;
    hide Next;
    if call.Store? || call.Get? {
      KeyCallTransparent(c, s, other, call, env);
    } else {
      CachelessTransparent(c, s, other, call, env);
    }
  }

  /** A run of calls, each in its own environment: the replies and the final state. */
  function Run(c: Suite, s: State, calls: seq<(Call, Env)>): (seq<Reply>, State) {
    if calls == [] then ([], s)
    else
      var (replies, s1) := Run(c, s, calls[..|calls| - 1]);
      var (call, env) := calls[|calls| - 1];
      var o := Next(c, s1, call, env);
      (replies + [o.reply], o.state)
  }

  lemma {:induction false} RunKeeps(c: Suite, s: State, calls: seq<(Call, Env)>)
    requires Intact(c, s)
    ensures Intact(c, Run(c, s, calls).1)
  {
    hide WellKeyed;
    hide Fresh;
    hide Next;
    if calls == [] {
    } else {
      var n := |calls| - 1;
      RunKeeps(c, s, calls[..n]);
      var s1 := Run(c, s, calls[..n]).1;
      CallKeeps(c, s1, calls[n].0, calls[n].1);
      assert Kept(c, s1, Run(c, s, calls).1, calls[n].0.user);
    }
  }

  lemma {:induction false} RunUnwraps(c: Suite, s: State, calls: seq<(Call, Env)>)
    requires Ideal(c) && Intact(c, s) && AllUnwrap(c, s.t)
    ensures AllUnwrap(c, Run(c, s, calls).1.t)
  {
    hide Ideal;
    hide AllUnwrap;
    hide WellKeyed;
    hide Fresh;
    hide Next;
    if calls == [] {
    } else {
      var n := |calls| - 1;
      RunUnwraps(c, s, calls[..n]);
      RunKeeps(c, s, calls[..n]);
      CallUnwraps(c, Run(c, s, calls[..n]).1, calls[n].0, calls[n].1);
    }
  }

  /** A call that is answered from the cache although the derivation that it replaces would fail. */
  predicate HitSaves(s: State, call: Call, env: Env) {
    env.fails(DeriveOnMiss) && NeedsKey(s.t, call, env) && HasResident(s.cache, s.t, call.user)
  }

  predicate NoHitSaves(c: Suite, s: State, calls: seq<(Call, Env)>) {
    calls == [] ||
    (var before, last := calls[..|calls| - 1], calls[|calls| - 1];
     NoHitSaves(c, s, before) && !HitSaves(Run(c, s, before).1, last.0, last.1))
  }

  lemma SlotsKept(c: Suite, s: State, call: Call, env: Env)
    ensures |Next(c, s, call, env).state.cache.entries| == |s.cache.entries|
  {
    hide IsExpired;
    hide Format;
    hide Deliver;
    hide RotateTx;
    hide ChangeTx;
    hide Items;
    hide Rows;
  }

  lemma {:induction false} RunSlotsKept(c: Suite, s: State, calls: seq<(Call, Env)>)
    ensures |Run(c, s, calls).1.cache.entries| == |s.cache.entries|
  {
    hide Next;
    if calls == [] {
    } else {
      var n := |calls| - 1;
      RunSlotsKept(c, s, calls[..n]);
      SlotsKept(c, Run(c, s, calls[..n]).1, calls[n].0, calls[n].1);
    }
  }

  /**
   The run with the cache and the run in which every lookup misses (a cache without slots) give the same
   replies if and only if no call is saved by a hit from a derivation that fails; and then also the same
   tables and audit log.
   */
  lemma {:induction false} CacheIsInvisible(c: Suite, s: State, calls: seq<(Call, Env)>)
    requires Ideal(c) && Intact(c, s) && AllUnwrap(c, s.t)
    ensures var (replies, s1) := Run(c, s, calls);
      var (replies', s1') := Run(c, s.(cache := Empty(0)), calls);
      && (replies == replies' <==> NoHitSaves(c, s, calls))
      && (NoHitSaves(c, s, calls) ==> s1.t == s1'.t && s1.log == s1'.log)
  {
    hide Ideal;
    hide AllUnwrap;
    hide WellKeyed;
    hide Fresh;
    hide Next;
    if calls == [] {
    } else {
      var n := |calls| - 1;
      var before := calls[..n];
      var bare := s.(cache := Empty(0));
      CacheIsInvisible(c, s, before);
      var (replies, s1) := Run(c, s, before);
      var (replies', s2) := Run(c, bare, before);
      hide HitSaves;
      if NoHitSaves(c, s, before) {
        NoSlots(c, s.t);
        RunKeeps(c, s, before);
        RunKeeps(c, bare, before);
        RunUnwraps(c, s, before);
        RunSlotsKept(c, bare, before);
        assert s2 == s1.(cache := s2.cache);
        LastCallInvisible(c, s1, s2.cache, calls[n].0, calls[n].1);
      }
      SameWithLast(replies, replies', Next(c, s1, calls[n].0, calls[n].1).reply,
                   Next(c, s2, calls[n].0, calls[n].1).reply);
    }
  }

  lemma SameWithLast<T>(a: seq<T>, b: seq<T>, x: T, y: T)
    ensures a + [x] == b + [y] <==> a == b && x == y
  {
    if a + [x] == b + [y] {
      assert (a + [x])[..|a|] == a && (b + [y])[..|b|] == b;
      assert (a + [x])[|a|] == x && (b + [y])[|b|] == y;
    }
  }

  lemma LastCallInvisible(c: Suite, s: State, empty: Cache, call: Call, env: Env)
    requires Ideal(c) && Intact(c, s) && AllUnwrap(c, s.t) && empty.entries == []
    ensures var o, o' := Next(c, s, call, env), Next(c, s.(cache := empty), call, env);
      && (o.reply == o'.reply <==> !HitSaves(s, call, env))
      && (!HitSaves(s, call, env) ==> SameVisible(o, o'))
  {
    hide Ideal;
    hide Next;
    hide NeedsKey;
    hide KekUnwraps;
    CallTransparent(c, s, empty, call, env);
  }

  lemma NoSlots(c: Suite, t: Tables)
    ensures Fresh(c, t, Empty(0))
  {
  }

  // ---- a cache that is not fresh ----

  /** The plaintext that a stored row stands for. */
  function Plaintext(c: Suite, t: Tables, user: string, name: string): Option<Bytes>
    requires user in t.users && t.users[user].id in t.keks && SecretKey(t.users[user].id, name) in t.secrets
  {
    var row := t.users[user];
    var secret := t.secrets[SecretKey(row.id, name)];
    match RawKek(c, row.hash, t.keks[row.id])
    case None => None
    case Some(raw) => c.open(raw, secret.nonce, secret.box)
  }

  /** Whatever the cache holds, the private key a get delivers is exactly the row's plaintext. */
  lemma StaleGetIsRight(c: Suite, s: State, user: string, name: string, privCap: nat, pubCap: Option<nat>, env: Env)
    requires Ideal(c) && KekUnwraps(c, s.t, user)
    requires GetOp(c, s, user, name, privCap, pubCap, env).reply.priv.Some?
    ensures user in s.t.users && s.t.users[user].id in s.t.keks && SecretKey(s.t.users[user].id, name) in s.t.secrets
    ensures GetOp(c, s, user, name, privCap, pubCap, env).reply.priv == Plaintext(c, s.t, user, name)
  {
    hide IsExpired;
    hide WrappingKey;
    var row := s.t.users[user];
    KeysAgree(c, row.hash, s.t.keks[row.id], WrappingKey(c, s.cache, row, s.t.keks[row.id], env).0);
  }

  /** A key that unwraps the stored blob is the derived one. */
  lemma KeysAgree(c: Suite, hash: Token, kek: KekRow, key: Option<Token>)
    requires Ideal(c) && RawKek(c, hash, kek).Some?
    ensures key.Some? && c.unwrap(key.value, kek.wrapped).Some? ==>
      key.value == c.derive(hash, kek.salt) && c.unwrap(key.value, kek.wrapped) == RawKek(c, hash, kek)
  {
  }

  /** Whatever the cache holds, a store that answers Ok adds a row that the current KEK opens. */
  lemma StaleStoreIsRight(c: Suite, s: State, user: string, priv: Bytes, pub: Bytes, name: string, description: string,
                          env: Env)
    requires Ideal(c) && KekUnwraps(c, s.t, user)
    requires StoreOp(c, s, user, priv, pub, name, description, env).reply == Done(Ok)
    ensures var t' := StoreOp(c, s, user, priv, pub, name, description, env).state.t;
      && user in t'.users && t'.users[user].id in t'.keks && SecretKey(t'.users[user].id, name) in t'.secrets
      && Plaintext(c, t', user, name) == Some(priv)
  {
    hide IsExpired;
    hide WrappingKey;
    hide Format;
    var row := s.t.users[user];
    KeysAgree(c, row.hash, s.t.keks[row.id], WrappingKey(c, s.cache, row, s.t.keks[row.id], env).0);
  }

  /** The cache answers for this user, but with a key that is not the derived one. */
  predicate WrongHit(c: Suite, s: State, user: string) {
    user in s.t.users && s.t.users[user].id in s.t.keks &&
    var row := s.t.users[user];
    var hit := Lookup(s.cache, row.id, 0).0;
    hit.Some? && hit.value != c.derive(row.hash, s.t.keks[row.id].salt)
  }

  lemma WrongHitKey(c: Suite, s: State, user: string, env: Env)
    requires WrongHit(c, s, user)
    ensures var row := s.t.users[user];
      var (key, cache) := WrappingKey(c, s.cache, row, s.t.keks[row.id], env);
      && key.Some? && key.value != c.derive(row.hash, s.t.keks[row.id].salt)
      && WrongHit(c, s.(cache := cache), user)
  {
    var id := s.t.users[user].id;
    var entries := s.cache.entries;
    var i := KeyCache.Find(entries, id, 0);
    var entries' := entries[i := entries[i].(lastUsed := env.now)];
    var j := KeyCache.Find(entries', id, 0);
    assert forall k :: 0 <= k < i ==> !Matches(entries[k], id) && entries'[k] == entries[k];
    assert Matches(entries'[i], id);
  }

  /**
   A wrong cached key never yields Ok: past the guards the call answers ErrInternal. And it sticks:
   the failing call leaves the wrong key in the cache, so the next one fails the same way.
   */
  lemma WrongKeyOnlyFails(c: Suite, s: State, call: Call, env: Env)
    requires Ideal(c) && KekUnwraps(c, s.t, call.user) && WrongHit(c, s, call.user)
    requires call.Store? || call.Get?
    ensures var o := Next(c, s, call, env);
      && o.reply.status != Ok && o.reply.status != ErrIntegrity
      && o.state.t == s.t && WrongHit(c, o.state, call.user)
    ensures var row := s.t.users[call.user];
      !env.fails(FindUser) && !env.fails(FindKek) && !IsExpired(s.t.keks[row.id].expiresAt, env.now)
      && (call.Get? ==> !env.fails(FindSecret) && SecretKey(row.id, call.name) in s.t.secrets)
      ==> Next(c, s, call, env).reply.status == ErrInternal
  {
    hide IsExpired;
    hide WrappingKey;
    hide Format;
    WrongHitKey(c, s, call.user, env);
    var row := s.t.users[call.user];
    KeysAgree(c, row.hash, s.t.keks[row.id], WrappingKey(c, s.cache, row, s.t.keks[row.id], env).0);
    hide WrongHit;
  }

  /** A rotation does not look at the cache, and once committed leaves no entry of the user in it. */
  lemma RotationRepairs(c: Suite, s: State, other: Cache, user: string, env: Env)
    requires RotateOp(c, s, user, env).reply == Done(Ok)
    ensures var s' := RotateOp(c, s.(cache := other), user, env);
      && s'.reply == Done(Ok) && s'.state.t == RotateOp(c, s, user, env).state.t
      && !Resident(s'.state.cache.entries, s.t.users[user].id)
      && !WrongHit(c, s'.state, user)
  {
    hide RotateTx;
    var s' := RotateOp(c, s.(cache := other), user, env).state;
    var id := s.t.users[user].id;
    assert forall i :: 0 <= i < |other.entries| ==> !Matches(s'.cache.entries[i], id);
    RotationKeepsUsers(c, s.t, id, s.t.users[user].hash, env);
  }

  lemma RotationKeepsUsers(c: Suite, t: Tables, id: nat, hash: Token, env: Env)
    ensures var t' := RotateTx(c, t, id, hash, env); t'.Some? ==> t'.value.users == t.users
  {
  }

  // ---- restoring a backup ----

  /** A successful ssm_backup_restore: the database file is replaced, the handle keeps its cache. */
  function Restore(s: State, image: State): State { image.(cache := s.cache) }

  /** A valid slot of the old database's user, found by its id, gives the key derived there. */
  lemma ResidentKey(c: Suite, s: State, owner: string, kept: Tables, user: string, env: Env)
    requires Intact(c, s) && owner in s.t.users && s.t.users[owner].id in s.t.keks && HasResident(s.cache, s.t, owner)
    requires user in kept.users && kept.users[user].id == s.t.users[owner].id && kept.users[user].id in kept.keks
    ensures KeyFrom(c, kept, s.cache, user, env) ==
        Some(c.derive(s.t.users[owner].hash, s.t.keks[s.t.users[owner].id].salt))
  {
    KeyedParts(s.t);
    FreshLookup(c, s.t, s.cache, owner, env);
    hide Fresh;
    hide WellKeyed;
  }

  /**
   After a restore, a user of the restored database whose id a user of the old one had, with its key in
   the cache and the same salt in both: a store or get answers as with an empty cache if and only if the
   two password hashes are equal or the call does not need the key. Otherwise it answers ErrInternal.
   */
  lemma RestoreHarmless(c: Suite, s: State, image: State, owner: string, call: Call, env: Env)
    requires Ideal(c) && Intact(c, s) && owner in s.t.users && s.t.users[owner].id in s.t.keks
    requires HasResident(s.cache, s.t, owner) && (call.Store? || call.Get?)
    requires call.user in image.t.users && image.t.users[call.user].id == s.t.users[owner].id
    requires s.t.users[owner].id in image.t.keks && KekUnwraps(c, image.t, call.user) && !env.fails(DeriveOnMiss)
    requires image.t.keks[s.t.users[owner].id].salt == s.t.keks[s.t.users[owner].id].salt
    ensures var same := image.t.users[call.user].hash == s.t.users[owner].hash;
      var o, o' := Next(c, Restore(s, image), call, env), Next(c, image.(cache := Empty(0)), call, env);
      && (o.reply == o'.reply <==> same || !NeedsKey(image.t, call, env))
      && (same || !NeedsKey(image.t, call, env) ==> SameVisible(o, o'))
      && (!same && NeedsKey(image.t, call, env) ==>
            o.reply == if call.Get? then GetFailed(ErrInternal, call.privCap, call.pubCap) else Done(ErrInternal))
  {
    var u, s', bare := call.user, Restore(s, image), image.(cache := Empty(0));
    ResidentKey(c, s, owner, image.t, u, env);
    assert RightKey(c, image.t, bare.cache, u, env);
    assert RightKey(c, image.t, s.cache, u, env) <==> image.t.users[u].hash == s.t.users[owner].hash;
    hide Ideal;
    hide Intact;
    hide KekUnwraps;
    hide KeyFrom;
    hide Next;
    hide HasResident;
    if !NeedsKey(image.t, call, env) {
      NoNeedSameAnswer(c, s', bare.cache, call, env);
    } else if image.t.users[u].hash == s.t.users[owner].hash {
      SameKeySameAnswer(c, s', bare.cache, call, env);
    } else {
      RightKeyAnswers(c, bare, call, env);
      NoKeyNoAnswer(c, s', call, env);
    }
  }
}
