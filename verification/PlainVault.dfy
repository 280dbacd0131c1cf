/**
 What a client may think the vault is: a plain map from user names to a password, a key deadline
 and version, and the secrets in the clear. No hash, key, nonce, row id or cache appears here.
 */
module PlainVault {
  import opened Types
  import opened Calendar
  import opened Vault

  datatype Entry = Entry(priv: Bytes, pub: Bytes, description: string, updatedAt: string)

  datatype Key = Key(deadline: int, version: int)

  // key is None for a user whose registration failed between its two inserts
  datatype Account = Account(password: string, key: Option<Key>, secrets: map<string, Entry>)

  type Plain = map<string, Account>

  function NewKey(now: Now): Key { Key(now + KEK_LIFETIME, 1) }

  predicate Expired(key: Key, now: int) { now >= key.deadline }

  /** The account a call works on, if the call finds it. */
  function FindAccount(a: Plain, user: string, env: Env): Option<Account> {
    if env.fails(FindUser) || user !in a then None else Some(a[user])
  }

  /** What the calls on secrets answer before they touch any secret. */
  function Barrier(account: Option<Account>, env: Env): Status {
    match account
    case None => ErrAuth
    case Some(acc) =>
      if env.fails(FindKek) || acc.key.None? then ErrInternal
      else if Expired(acc.key.value, env.now) then ErrExpired
      else Ok
  }

  function PlainRegister(a: Plain, user: string, password: string, env: Env): (Reply, Plain) {
    if !ValidUsername(user) then (Done(ErrInternal), a)
    else if env.policy(password) != Ok then (Done(env.policy(password)), a)
    else if FindAccount(a, user, env).Some? then (Done(Ok), a)
    else if env.fails(HashPassword) || env.fails(AddUser) || user in a then (Done(ErrInternal), a)
    else if env.fails(Allocate) || env.fails(Derive) || env.fails(WrapKek) || env.fails(AddKek) then
      (Done(ErrInternal), a[user := Account(password, None, map[])])
    else (Done(Ok), a[user := Account(password, Some(NewKey(env.now)), map[])])
  }

  function PlainAuthenticate(a: Plain, user: string, password: string, env: Env): (Reply, Plain) {
    if !ValidUsername(user) then (Authenticated(ErrInternal, None), a)
    else
      var acc := FindAccount(a, user, env);
      (Authenticated(Ok, Some(acc.Some? && !env.fails(VerifyPassword) && acc.value.password == password)), a)
  }

  function PlainStore(a: Plain, user: string, priv: Bytes, pub: Bytes, name: string, description: string,
                      env: Env): (Reply, Plain)
  {
    var acc := FindAccount(a, user, env);
    if priv == [] then (Done(ErrInternal), a)
    else if Barrier(acc, env) != Ok then (Done(Barrier(acc, env)), a)
    else if env.fails(Allocate) || env.fails(UnwrapKek) || env.fails(SealSecret) || env.fails(AddSecret)
            || name in acc.value.secrets
    then (Done(ErrInternal), a)
    else
      var entry := Entry(priv, pub, description, Format(env.now));
      (Done(Ok), a[user := acc.value.(secrets := acc.value.secrets[name := entry])])
  }

  function PlainGet(a: Plain, user: string, name: string, privCap: nat, pubCap: Option<nat>, env: Env): (Reply, Plain) {
    var acc := FindAccount(a, user, env);
    if Barrier(acc, env) != Ok then (GetFailed(Barrier(acc, env), privCap, pubCap), a)
    else if env.fails(FindSecret) || name !in acc.value.secrets then (GetFailed(ErrNotFound, privCap, pubCap), a)
    else
      var entry := acc.value.secrets[name];
      if env.fails(Allocate) || env.fails(UnwrapKek) then (GetFailed(ErrInternal, privCap, pubCap), a)
      else if privCap < |entry.priv| then (GetFailed(ErrInternal, |entry.priv|, pubCap), a)
      else if env.fails(OpenSecret) then (GetFailed(ErrIntegrity, privCap, pubCap), a)
      else (Deliver(entry.priv, entry.pub, pubCap), a)
  }

  function PlainDelete(a: Plain, user: string, name: string, env: Env): (Reply, Plain) {
    var acc := FindAccount(a, user, env);
    if Barrier(acc, env) != Ok then (Done(Barrier(acc, env)), a)
    else if env.fails(RemoveSecret) || name !in acc.value.secrets then (Done(ErrNotFound), a)
    else (Done(Ok), a[user := acc.value.(secrets := acc.value.secrets - {name})])
  }

  function PlainItems(secrets: map<string, Entry>, scan: seq<string>): seq<Item> {
    if scan == [] then []
    else
      var rest := PlainItems(secrets, scan[..|scan| - 1]);
      var n := scan[|scan| - 1];
      if n in secrets
      then rest + [Item(n, secrets[n].description, secrets[n].updatedAt, |secrets[n].pub|)]
      else rest
  }

  function PlainList(a: Plain, user: string, env: Env): (Reply, Plain) {
    var acc := FindAccount(a, user, env);
    if Barrier(acc, env) != Ok then (Listed(Barrier(acc, env), []), a)
    else if env.fails(ListSecrets) then (Listed(ErrInternal, []), a)
    else (Listed(Ok, PlainItems(acc.value.secrets, env.scan)), a)
  }

  function PlainRemove(a: Plain, user: string, password: string, env: Env): (Reply, Plain) {
    var acc := FindAccount(a, user, env);
    if !ValidUsername(user) then (Done(ErrInternal), a)
    else if acc.None? || env.fails(VerifyPassword) || acc.value.password != password then (Done(ErrAuth), a)
    else if env.fails(RemoveUser) then (Done(ErrInternal), a)
    else (Done(Ok), a - {user})
  }

  predicate ChangeFails(acc: Account, env: Env) {
    || env.fails(HashPassword) || env.fails(UpdateHash) || env.fails(FindKek) || acc.key.None?
    || env.fails(Allocate) || env.fails(Derive) || env.fails(UnwrapKek) || env.fails(WrapKek) || env.fails(UpdateKek)
  }

  function PlainChange(a: Plain, user: string, password: string, newPassword: string, env: Env): (Reply, Plain) {
    var acc := FindAccount(a, user, env);
    if !ValidUsername(user) then (Done(ErrInternal), a)
    else if env.policy(newPassword) != Ok then (Done(env.policy(newPassword)), a)
    else if acc.None? || env.fails(VerifyPassword) || acc.value.password != password then (Done(ErrAuth), a)
    else if ChangeFails(acc.value, env) then (Done(ErrInternal), a)
    else (Done(Ok), a[user := acc.value.(password := newPassword)])
  }

  predicate RotateFails(acc: Account, env: Env) {
    || env.fails(FindKek) || acc.key.None? || env.fails(Allocate) || env.fails(Derive) || env.fails(UnwrapKek)
    || env.fails(ListSecrets) || env.fails(WrapKek) || env.fails(PrepareUpdate) || env.fails(UpdateKek)
    || exists n :: n in acc.secrets && env.fails(Reseal(n))
  }

  /** Rotation renews the key and the time stamps; contents and password stay. */
  function Renewed(acc: Account, now: Now): Account
    requires acc.key.Some?
  {
    acc.(key := Some(Key(now + KEK_LIFETIME, acc.key.value.version + 1)),
         secrets := map n | n in acc.secrets :: acc.secrets[n].(updatedAt := Format(now)))
  }

  function PlainRotate(a: Plain, user: string, env: Env): (Reply, Plain) {
    var acc := FindAccount(a, user, env);
    if acc.None? then (Done(ErrAuth), a)
    else if RotateFails(acc.value, env) then (Done(ErrInternal), a)
    else (Done(Ok), a[user := Renewed(acc.value, env.now)])
  }

  function PlainNext(a: Plain, call: Call, env: Env): (Reply, Plain) {
    match call
    case Register(u, p) => PlainRegister(a, u, p, env)
    case Authenticate(u, p) => PlainAuthenticate(a, u, p, env)
    case Store(u, priv, pub, n, d) => PlainStore(a, u, priv, pub, n, d, env)
    case Get(u, n, privCap, pubCap) => PlainGet(a, u, n, privCap, pubCap, env)
    case Delete(u, n) => PlainDelete(a, u, n, env)
    case List(u) => PlainList(a, u, env)
    case RemoveAccount(u, p) => PlainRemove(a, u, p, env)
    case ChangePassword(u, p, q) => PlainChange(a, u, p, q, env)
    case Rotate(u) => PlainRotate(a, u, env)
  }

  // ---- what a get tells its caller ----

  /**
   A private key is delivered whole with its length. The public key comes with it if the caller gave a
   buffer for it, there is one and it fits; if it does not fit, the call fails and only says how long it is.
   */
  predicate Delivers(reply: Reply, priv: Bytes, pub: Bytes, pubCap: Option<nat>) {
    && reply.Got? && reply.priv == Some(priv) && reply.privLen == |priv|
    && match pubCap
       case None => reply.status == Ok && reply.pub == None && reply.pubLen == None
       case Some(room) =>
         && reply.pubLen == Some(|pub|)
         && reply.status == (if |pub| <= room then Ok else ErrInternal)
         && reply.pub == (if 0 < |pub| <= room then Some(pub) else None)
  }

  /** Nothing is delivered, and the lengths are the caller's own, or the private key's if its buffer is too small. */
  predicate Withholds(reply: Reply, privLen: nat, pubCap: Option<nat>) {
    && reply.Got? && reply.status != Ok && reply.priv == None && reply.pub == None
    && reply.privLen == privLen && reply.pubLen == pubCap
  }

  /** Which entry a get delivers, or with which status and lengths it fails. */
  lemma GetTells(a: Plain, user: string, name: string, privCap: nat, pubCap: Option<nat>, env: Env)
    ensures var reply := PlainGet(a, user, name, privCap, pubCap, env).0;
      var found := !env.fails(FindUser) && user in a;
      var keyed := found && !env.fails(FindKek) && a[user].key.Some?;
      var inDate := keyed && env.now < a[user].key.value.deadline;
      var there := inDate && !env.fails(FindSecret) && name in a[user].secrets;
      var unwrapped := there && !env.fails(Allocate) && !env.fails(UnwrapKek);
      && (reply.status == ErrAuth <==> !found)
      && (reply.status == ErrExpired <==> keyed && !inDate)
      && (reply.status == ErrNotFound <==> inDate && !there)
      && (reply.status == ErrIntegrity <==>
            unwrapped && |a[user].secrets[name].priv| <= privCap && env.fails(OpenSecret))
      && (if unwrapped && |a[user].secrets[name].priv| <= privCap && !env.fails(OpenSecret)
          then Delivers(reply, a[user].secrets[name].priv, a[user].secrets[name].pub, pubCap)
          else if unwrapped && privCap < |a[user].secrets[name].priv|
          then Withholds(reply, |a[user].secrets[name].priv|, pubCap)
          else Withholds(reply, privCap, pubCap))
  {
  }
}
