/**
 What a call that answers Ok leaves in the tables, column by column: where each value drawn at random and
 each time stamp ends up, and that everything else stays. Then what follows for whole runs: the length of
 user names, and nonces that never repeat.
 */
module Writes {
  import opened Types
  import opened Crypto
  import opened Calendar
  import opened Tables
  import opened Vault
  import opened Runs
  import Refinement
  import Transparency

  /** A new user with the hash of the password, and a new KEK for it, to expire in 90 days, as version 1. */
  lemma RegisterWrites(c: Suite, s: State, user: string, password: string, env: Env)
    requires user !in s.t.users && Next(c, s, Register(user, password), env).reply.status == Ok
    ensures var id, hash := s.t.lastUser + 1, c.hashPassword(password, env.hashSalt);
      var wrapped := c.wrap(c.derive(hash, env.kekSalt), env.kek);
      Next(c, s, Register(user, password), env).state.t == s.t.(
        users := s.t.users[user := UserRow(id, hash)],
        keks := s.t.keks[id := KekRow(wrapped, env.kekSalt, Format(env.now + 90 * 86400), 1)],
        lastUser := id)
  {
    hide Format;
  }

  /** One new row, sealed with the drawn nonce under the key that unwraps from the stored KEK. */
  lemma StoreWrites(c: Suite, s: State, call: Call, env: Env) returns (raw: Token)
    requires call.Store? && Next(c, s, call, env).reply.status == Ok
    ensures call.user in s.t.users && s.t.users[call.user].id in s.t.keks
    ensures var id := s.t.users[call.user].id;
      var key := SecretKey(id, call.name);
      && (exists w :: c.unwrap(w, s.t.keks[id].wrapped) == Some(raw)) && key !in s.t.secrets
      && Next(c, s, call, env).state.t == s.t.(
           secrets := s.t.secrets[key := SecretRow(s.t.lastSecret + 1, c.seal(raw, env.nonce, call.priv), env.nonce,
                                                   call.pub, call.description, Format(env.now))],
           lastSecret := s.t.lastSecret + 1)
  {
    var row := s.t.users[call.user];
    var kek := s.t.keks[row.id];
    var key := WrappingKey(c, s.cache, row, kek, env).0;
    hide WrappingKey;
    hide IsExpired;
    hide Format;
    raw := c.unwrap(key.value, kek.wrapped).value;
  }

  /** The row is gone. */
  lemma DeleteWrites(c: Suite, s: State, user: string, name: string, env: Env)
    requires Next(c, s, Delete(user, name), env).reply.status == Ok
    ensures user in s.t.users && SecretKey(s.t.users[user].id, name) in s.t.secrets
    ensures Next(c, s, Delete(user, name), env).state.t ==
            s.t.(secrets := s.t.secrets - {SecretKey(s.t.users[user].id, name)})
  {
    hide IsExpired;
  }

  /** The new hash, and the same KEK wrapped anew; its salt, deadline and version stay. */
  ghost predicate IsChanged(c: Suite, t: Tables, t': Tables, user: string, hash: Token)
    requires user in t.users && t.users[user].id in t.keks
  {
    var row := t.users[user];
    var kek := t.keks[row.id];
    && RawKek(c, row.hash, kek).Some?
    && var wrapped := c.wrap(c.derive(hash, kek.salt), RawKek(c, row.hash, kek).value);
       t' == t.(users := t.users[user := UserRow(row.id, hash)],
                keks := t.keks[row.id := KekRow(wrapped, kek.salt, kek.expiresAt, kek.version)])
  }

  lemma ChangeWrites(c: Suite, s: State, user: string, password: string, newPassword: string, env: Env)
    requires WellKeyed(s.t) && Next(c, s, ChangePassword(user, password, newPassword), env).reply.status == Ok
    ensures user in s.t.users && s.t.users[user].id in s.t.keks
    ensures IsChanged(c, s.t, Next(c, s, ChangePassword(user, password, newPassword), env).state.t, user,
                      c.hashPassword(newPassword, env.hashSalt))
  {
    ChangeTxWrites(c, s.t, user, c.hashPassword(newPassword, env.hashSalt), env);
    hide IsChanged;
    hide WellKeyed;
    hide ChangeTx;
  }

  lemma ChangeTxWrites(c: Suite, t: Tables, user: string, hash: Token, env: Env)
    requires WellKeyed(t) && user in t.users
    ensures var changed := ChangeTx(c, t, t.users[user].id, t.users[user].hash, hash, env);
      changed.Some? ==> t.users[user].id in t.keks && IsChanged(c, t, changed.value, user, hash)
  {
    var row := t.users[user];
    assert SetHash(t, row.id, hash).users == t.users[user := UserRow(row.id, hash)];
    hide WellKeyed;
    hide SetHash;
  }

  /** A secret's row after a rotation that scanned it: sealed again with a nonce of its own. */
  ghost predicate IsResealed(c: Suite, raw: Token, row: SecretRow, row': SecretRow, nonce: Token, env: Env) {
    && c.open(raw, row.nonce, row.box).Some?
    && row' == SecretRow(row.id, c.seal(env.kek, nonce, c.open(raw, row.nonce, row.box).value), nonce, row.pub,
                         row.description, Format(env.now))
  }

  /** A new KEK under a new salt, to expire in 90 days, one version up; the scanned rows sealed under it. */
  ghost predicate IsRotated(c: Suite, t: Tables, t': Tables, id: nat, hash: Token, env: Env)
    requires id in t.keks
  {
    var kek, wrapped := t.keks[id], c.wrap(c.derive(hash, env.kekSalt), env.kek);
    && RawKek(c, hash, kek).Some?
    && t' == t.(
         keks := t.keks[id := KekRow(wrapped, env.kekSalt, Format(env.now + 90 * 86400), kek.version + 1)],
         secrets := t'.secrets)
    && t'.secrets.Keys == t.secrets.Keys
    && forall k :: k in t.secrets ==>
         if k.owner == id && k.name in env.scan
         then IsResealed(c, RawKek(c, hash, kek).value, t.secrets[k], t'.secrets[k], env.nonceFor(k.name), env)
         else t'.secrets[k] == t.secrets[k]
  }

  lemma RotateWrites(c: Suite, s: State, user: string, env: Env)
    requires Next(c, s, Rotate(user), env).reply.status == Ok
    ensures user in s.t.users && s.t.users[user].id in s.t.keks
    ensures IsRotated(c, s.t, Next(c, s, Rotate(user), env).state.t, s.t.users[user].id, s.t.users[user].hash, env)
  {
    RotateTxWrites(c, s.t, s.t.users[user].id, s.t.users[user].hash, env);
    hide RotateTx;
    hide IsRotated;
  }

  lemma RotateTxWrites(c: Suite, t: Tables, id: nat, hash: Token, env: Env)
    ensures var rotated := RotateTx(c, t, id, hash, env);
      rotated.Some? ==> id in t.keks && IsRotated(c, t, rotated.value, id, hash, env)
  {
    hide Format;
  }

  /** A call that does not answer Ok changes no table, but a registration may leave a user without KEK. */
  lemma FailureWrites(c: Suite, s: State, call: Call, env: Env)
    requires Next(c, s, call, env).reply.status != Ok
    ensures var t' := Next(c, s, call, env).state.t;
      || t' == s.t
      || (&& call.Register? && call.user !in s.t.users
          && t' == s.t.(users := s.t.users[call.user :=
                          UserRow(s.t.lastUser + 1, c.hashPassword(call.password, env.hashSalt))],
                        lastUser := s.t.lastUser + 1))
  {
    hide RotateTx;
    hide ChangeTx;
    hide WrappingKey;
    hide IsExpired;
    hide Format;
    hide Items;
    hide Rows;
    hide DeleteUser;
    hide DeleteSecret;
    hide InsertSecret;
  }

  // ---- user names ----

  predicate HasGoodLength(user: string) { 1 <= |user| <= 255 }

  /** The calls that take a password refuse other names outright. */
  lemma BadNameRefused(c: Suite, s: State, call: Call, env: Env)
    requires call.Register? || call.Authenticate? || call.RemoveAccount? || call.ChangePassword?
    requires !HasGoodLength(call.user)
    ensures Next(c, s, call, env).state == s && Next(c, s, call, env).reply.status == ErrInternal
    ensures call.Authenticate? ==> Next(c, s, call, env).reply == Authenticated(ErrInternal, None)
  {
  }

  /** When nothing fails and the policy accepts the password, a new name is registered exactly if its length is good. */
  lemma GoodNameRegistered(c: Suite, s: State, user: string, password: string, env: Env)
    requires user !in s.t.users && env.policy(password) == Ok && forall step :: !env.fails(step)
    ensures var o := Next(c, s, Register(user, password), env);
      && (o.reply == Done(Ok) <==> HasGoodLength(user))
      && (user in o.state.t.users <==> HasGoodLength(user))
  {
    hide ExpiresAt;
  }

  lemma CallKeepsNames(c: Suite, s: State, call: Call, env: Env, user: string)
    requires WellKeyed(s.t) && user in Next(c, s, call, env).state.t.users
    ensures user in s.t.users || HasGoodLength(user)
  {
    hide WellKeyed;
    hide Refinement.Fresh;
    hide HasGoodLength;
    if user != call.user {
      Transparency.CallKeeps(c, s, call, env);
      hide Next;
      assert user in Next(c, s, call, env).state.t.users.Keys - {call.user};
    } else {
      NewName(c, s, call, env);
    }
  }

  lemma NewName(c: Suite, s: State, call: Call, env: Env)
    requires call.user in Next(c, s, call, env).state.t.users
    ensures call.user in s.t.users || HasGoodLength(call.user)
  {
    hide RotateTx;
    hide ChangeTx;
    hide WrappingKey;
    hide IsExpired;
    hide Format;
    hide Items;
    hide Rows;
    hide Deliver;
    hide DeleteUser;
  }

  /** In every run all user names have 1 to 255 characters. */
  lemma {:induction false} NamesHaveGoodLength(c: Suite, calls: Calls, user: string)
    requires user in StateAfter(c, calls).t.users
    ensures HasGoodLength(user)
  {
    if calls != [] {
      hide HasGoodLength;
      hide Next;
      var n := |calls| - 1;
      var before, last := calls[..n], calls[n];
      assert calls == before + [last];
      OneMoreCall(c, before, last.0, last.1);
      WellKeyedAfter(c, before);
      hide StateAfter;
      CallKeepsNames(c, StateAfter(c, before), last.0, last.1, user);
      if user in StateAfter(c, before).t.users { NamesHaveGoodLength(c, before, user); }
    }
  }

  // ---- nonces ----

  /** The nonces that a call draws for sealing. */
  function Drawn(call: Call, env: Env): set<Token> {
    if call.Store? then {env.nonce}
    else if call.Rotate? then set n | n in env.scan :: env.nonceFor(n)
    else {}
  }

  function DrawnBefore(calls: Calls): set<Token> {
    if calls == [] then {}
    else DrawnBefore(calls[..|calls| - 1]) + Drawn(calls[|calls| - 1].0, calls[|calls| - 1].1)
  }

  /** The generator repeats itself neither within a rotation nor between calls. */
  ghost predicate DrawsApart(calls: Calls) {
    calls == [] ||
    (var before, last := calls[..|calls| - 1], calls[|calls| - 1];
     && DrawsApart(before) && Drawn(last.0, last.1) !! DrawnBefore(before)
     && (last.0.Rotate? ==> OnePerRow(last.1)))
  }

  ghost predicate OnePerRow(env: Env) {
    forall n, m :: n in env.scan && m in env.scan && n != m ==> env.nonceFor(n) != env.nonceFor(m)
  }

  /** Every row has one of the nonces, and no two rows the same. */
  ghost predicate NoncesApart(t: Tables, drawn: set<Token>) {
    && (forall k :: k in t.secrets ==> t.secrets[k].nonce in drawn)
    && forall k, l :: k in t.secrets && l in t.secrets && k != l ==> t.secrets[k].nonce != t.secrets[l].nonce
  }

  lemma StoreDraws(c: Suite, s: State, call: Call, env: Env, drawn: set<Token>)
    requires call.Store? && NoncesApart(s.t, drawn) && env.nonce !in drawn
    ensures NoncesApart(Next(c, s, call, env).state.t, drawn + {env.nonce})
  {
    if Next(c, s, call, env).reply.status == Ok {
      var raw := StoreWrites(c, s, call, env);
    } else {
      FailureWrites(c, s, call, env);
    }
    hide Next;
  }

  lemma RotatedNonces(c: Suite, t: Tables, t': Tables, id: nat, hash: Token, env: Env, drawn: set<Token>)
    requires id in t.keks && IsRotated(c, t, t', id, hash, env) && NoncesApart(t, drawn)
    requires Drawn(Rotate(""), env) !! drawn && OnePerRow(env)
    ensures NoncesApart(t', drawn + Drawn(Rotate(""), env))
  {
    var draws := Drawn(Rotate(""), env);
    forall k | k in t.secrets
      ensures if k.owner == id && k.name in env.scan
              then t'.secrets[k].nonce == env.nonceFor(k.name) && t'.secrets[k].nonce in draws
              else t'.secrets[k].nonce == t.secrets[k].nonce
    {
    }
    hide IsResealed;
  }

  lemma RotateDraws(c: Suite, s: State, call: Call, env: Env, drawn: set<Token>)
    requires call.Rotate? && NoncesApart(s.t, drawn) && Drawn(call, env) !! drawn && OnePerRow(env)
    ensures NoncesApart(Next(c, s, call, env).state.t, drawn + Drawn(call, env))
  {
    hide NoncesApart;
    if Next(c, s, call, env).reply.status == Ok {
      RotateWrites(c, s, call.user, env);
      var row := s.t.users[call.user];
      RotatedNonces(c, s.t, Next(c, s, call, env).state.t, row.id, row.hash, env, drawn);
    } else {
      FailureWrites(c, s, call, env);
      MoreDrawn(s.t, drawn, Drawn(call, env));
    }
    hide Next;
    hide IsRotated;
  }

  lemma MoreDrawn(t: Tables, drawn: set<Token>, more: set<Token>)
    requires NoncesApart(t, drawn)
    ensures NoncesApart(t, drawn + more)
  {
  }

  /** The other calls seal nothing: they leave rows as they are or remove them. */
  lemma OthersSealNothing(c: Suite, s: State, call: Call, env: Env)
    requires !call.Store? && !call.Rotate?
    ensures var t' := Next(c, s, call, env).state.t;
      forall k :: k in t'.secrets ==> k in s.t.secrets && t'.secrets[k] == s.t.secrets[k]
  {
    hide IsExpired;
    hide WrappingKey;
    hide Format;
    hide Items;
    hide Rows;
    hide Deliver;
  }

  lemma CallDraws(c: Suite, s: State, call: Call, env: Env, drawn: set<Token>)
    requires NoncesApart(s.t, drawn) && Drawn(call, env) !! drawn && (call.Rotate? ==> OnePerRow(env))
    ensures NoncesApart(Next(c, s, call, env).state.t, drawn + Drawn(call, env))
  {
    hide Next;
    if call.Store? {
      StoreDraws(c, s, call, env, drawn);
    } else if call.Rotate? {
      RotateDraws(c, s, call, env, drawn);
    } else {
      OthersSealNothing(c, s, call, env);
    }
  }

  /**
   In every run whose generator never repeats a nonce, no two stored secrets, of whatever users, are sealed
   with the same one: each encryption has drawn its own.
   */
  lemma {:induction false} NoncesNeverRepeat(c: Suite, calls: Calls)
    requires DrawsApart(calls)
    ensures NoncesApart(StateAfter(c, calls).t, DrawnBefore(calls))
  {
    if calls == [] {
    } else {
      hide NoncesApart;
      hide Drawn;
      hide OnePerRow;
      hide Next;
      var n := |calls| - 1;
      var before, last := calls[..n], calls[n];
      assert calls == before + [last];
      NoncesNeverRepeat(c, before);
      OneMoreCall(c, before, last.0, last.1);
      hide StateAfter;
      CallDraws(c, StateAfter(c, before), last.0, last.1, DrawnBefore(before));
    }
  }
}
