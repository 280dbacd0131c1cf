/**
 The vault engine as functions on values: each public call maps the tables, the cache of wrapping
 keys and the audit log to a reply and a new state. The environment of a call supplies the clock,
 the random values, the row order of the SELECT over secrets, and which steps fail.
 */
module Vault {
  import opened Types
  import opened Crypto
  import opened Calendar
  import opened Tables
  import opened KeyCache

  const KEK_LIFETIME: int := 90 * SECONDS_PER_DAY  // KEK_DEFAULT_DAYS
  const USERNAME_MAX := 255                        // SSM_USERNAME_MAX

  /** Call times whose KEK deadline still falls in a four-digit year. */
  type Now = t: int | 0 <= t < MAX_TIME - 90 * 86400 witness 0

  /** Every step of a call that can fail on its own: SQL statements, allocations, crypto calls. */
  datatype Step =
    | HashPassword | VerifyPassword | FindUser | AddUser | Derive | WrapKek | AddKek
    | FindKek | Allocate | DeriveOnMiss | UnwrapKek | SealSecret | AddSecret | FindSecret | OpenSecret
    | RemoveSecret | ListSecrets | RemoveUser | UpdateHash | UpdateKek | PrepareUpdate
    | Reseal(name: string) | WriteAudit

  datatype Env = Env(
    now: Now,
    fails: Step -> bool,
    policy: string -> Status,    // the registered password validator
    hashSalt: Token, kek: Token, kekSalt: Token, nonce: Token,
    nonceFor: string -> Token,   // the nonce drawn for each row during a rotation
    scan: seq<string>)           // names in the order in which SELECT .. FROM secrets steps over rows

  datatype LogEntry = LogEntry(userId: nat, username: string, operation: string, result: Status, target: Option<string>)

  datatype State = State(t: Tables, cache: Cache, log: seq<LogEntry>)

  datatype Item = Item(name: string, description: string, updatedAt: string, pubLen: nat)

  datatype Reply =
    | Done(status: Status)
    | Authenticated(status: Status, valid: Option<bool>)
    | Got(status: Status, priv: Option<Bytes>, privLen: nat, pub: Option<Bytes>, pubLen: Option<nat>)
    | Listed(status: Status, items: seq<Item>)

  datatype Outcome = Outcome(reply: Reply, state: State)

  datatype Call =
    | Register(user: string, password: string)
    | Authenticate(user: string, password: string)
    | Store(user: string, priv: Bytes, pub: Bytes, name: string, description: string)
    | Get(user: string, name: string, privCap: nat, pubCap: Option<nat>)
    | Delete(user: string, name: string)
    | List(user: string)
    | RemoveAccount(user: string, password: string)
    | ChangePassword(user: string, password: string, newPassword: string)
    | Rotate(user: string)

  predicate ValidUsername(u: string) { 0 < |u| <= USERNAME_MAX }

  /** audit_write: a failed write is ignored. */
  function Note(s: State, env: Env, userId: nat, username: string, operation: string, result: Status,
                target: Option<string>): State
  {
    if env.fails(WriteAudit) then s
    else s.(log := s.log + [LogEntry(userId, username, operation, result, target)])
  }

  function LookupUser(t: Tables, user: string, env: Env): Option<UserRow> {
    if env.fails(FindUser) || user !in t.users then None else Some(t.users[user])
  }

  function LookupKek(t: Tables, userId: nat, env: Env): Option<KekRow> {
    if env.fails(FindKek) || userId !in t.keks then None else Some(t.keks[userId])
  }

  /** kek_expires_at(KEK_DEFAULT_DAYS) */
  function ExpiresAt(now: Now): string { Format(now + KEK_LIFETIME) }

  /** kek_is_expired: a time stamp that does not parse counts as expired. */
  predicate IsExpired(expiresAt: string, now: int) {
    match Parse(expiresAt)
    case None => true
    case Some(deadline) => now >= deadline
  }

  /** The wrapping key of a user: the cached one, or the derived one, which then fills the cache. */
  function WrappingKey(c: Suite, cache: Cache, user: UserRow, kek: KekRow, env: Env): (Option<Token>, Cache) {
    var (hit, looked) := Lookup(cache, user.id, env.now);
    if hit.Some? then (hit, looked)
    else if env.fails(DeriveOnMiss) then (None, looked)
    else
      var key := c.derive(user.hash, kek.salt);
      (Some(key), Insert(looked, user.id, key, env.now))
  }

  /** The new user's KEK; when it fails the user row stays without one. */
  function GiveKek(c: Suite, s: State, id: nat, user: string, hash: Token, env: Env): Outcome {
    if env.fails(Allocate) || env.fails(Derive) || env.fails(WrapKek) || env.fails(AddKek) then
      Outcome(Done(ErrInternal), s)
    else
      var wrapped := c.wrap(c.derive(hash, env.kekSalt), env.kek);
      var s1 := s.(t := InsertKek(s.t, id, wrapped, env.kekSalt, ExpiresAt(env.now)));
      Outcome(Done(Ok), Note(s1, env, id, user, "user_register", Ok, None))
  }

  /** The two inserts of a registration, outside any transaction. */
  function AddAccount(c: Suite, s: State, user: string, password: string, env: Env): Outcome {
    if env.fails(HashPassword) || env.fails(AddUser) || user in s.t.users then Outcome(Done(ErrInternal), s)
    else
      var hash := c.hashPassword(password, env.hashSalt);
      GiveKek(c, s.(t := InsertUser(s.t, user, hash)), s.t.lastUser + 1, user, hash, env)
  }

  function RegisterOp(c: Suite, s: State, user: string, password: string, env: Env): Outcome {
    if !ValidUsername(user) then Outcome(Done(ErrInternal), s)
    else if env.policy(password) != Ok then Outcome(Done(env.policy(password)), s)
    else if LookupUser(s.t, user, env).Some? then
      Outcome(Done(Ok), Note(s, env, 0, user, "user_register", Ok, None))
    else AddAccount(c, s, user, password, env)
  }

  function AuthenticateOp(c: Suite, s: State, user: string, password: string, env: Env): Outcome {
    if !ValidUsername(user) then Outcome(Authenticated(ErrInternal, None), s)
    else match LookupUser(s.t, user, env)
      case None =>
        Outcome(Authenticated(Ok, Some(false)), Note(s, env, 0, user, "user_authenticate", ErrAuth, None))
      case Some(row) =>
        var valid := !env.fails(VerifyPassword) && c.verifyPassword(password, row.hash);
        Outcome(Authenticated(Ok, Some(valid)),
                Note(s, env, row.id, user, "user_authenticate", if valid then Ok else ErrAuth, None))
  }

  /** Seal the secret under the raw KEK and insert its row. */
  function PutSecret(c: Suite, s: State, row: UserRow, user: string, raw: Token, priv: Bytes, pub: Bytes,
                     name: string, description: string, env: Env): Outcome
  {
    if env.fails(SealSecret) || env.fails(AddSecret) || SecretKey(row.id, name) in s.t.secrets then
      Outcome(Done(ErrInternal), s)
    else
      var box := c.seal(raw, env.nonce, priv);
      var s1 := s.(t := InsertSecret(s.t, row.id, name, box, env.nonce, pub, description, Format(env.now)));
      Outcome(Done(Ok), Note(s1, env, row.id, user, "secret_store", Ok, Some(name)))
  }

  function StoreOp(c: Suite, s: State, user: string, priv: Bytes, pub: Bytes, name: string,
                   description: string, env: Env): Outcome
  {
    if priv == [] then Outcome(Done(ErrInternal), s)
    else match LookupUser(s.t, user, env)
      case None => Outcome(Done(ErrAuth), Note(s, env, 0, user, "secret_store", ErrAuth, None))
      case Some(row) =>
        match LookupKek(s.t, row.id, env)
        case None => Outcome(Done(ErrInternal), s)
        case Some(kek) =>
          if IsExpired(kek.expiresAt, env.now) then
            Outcome(Done(ErrExpired), Note(s, env, row.id, user, "secret_store", ErrExpired, Some(name)))
          else if env.fails(Allocate) then Outcome(Done(ErrInternal), s)
          else
            var (key, cache) := WrappingKey(c, s.cache, row, kek, env);
            var s1 := s.(cache := cache);
            if key.None? || env.fails(UnwrapKek) then Outcome(Done(ErrInternal), s1)
            else match c.unwrap(key.value, kek.wrapped)
              case None => Outcome(Done(ErrInternal), s1)
              case Some(raw) => PutSecret(c, s1, row, user, raw, priv, pub, name, description, env)
  }

  /** How ssm_secret_get fills the caller's buffers once the private key is decrypted. */
  function Deliver(priv: Bytes, pub: Bytes, pubCap: Option<nat>): Reply {
    match pubCap
    case None => Got(Ok, Some(priv), |priv|, None, None)
    case Some(cap) =>
      if pub == [] then Got(Ok, Some(priv), |priv|, None, Some(0))
      else if |pub| <= cap then Got(Ok, Some(priv), |priv|, Some(pub), Some(|pub|))
      else Got(ErrInternal, Some(priv), |priv|, None, Some(|pub|))
  }

  function GetFailed(status: Status, privLen: nat, pubCap: Option<nat>): Reply {
    Got(status, None, privLen, None, pubCap)
  }

  function GetOp(c: Suite, s: State, user: string, name: string, privCap: nat, pubCap: Option<nat>, env: Env): Outcome {
    match LookupUser(s.t, user, env)
    case None =>
      Outcome(GetFailed(ErrAuth, privCap, pubCap), Note(s, env, 0, user, "secret_get", ErrAuth, None))
    case Some(row) =>
      match LookupKek(s.t, row.id, env)
      case None => Outcome(GetFailed(ErrInternal, privCap, pubCap), s)
      case Some(kek) =>
        if IsExpired(kek.expiresAt, env.now) then
          Outcome(GetFailed(ErrExpired, privCap, pubCap),
                  Note(s, env, row.id, user, "secret_get", ErrExpired, Some(name)))
        else if env.fails(FindSecret) || SecretKey(row.id, name) !in s.t.secrets then
          Outcome(GetFailed(ErrNotFound, privCap, pubCap), s)
        else if env.fails(Allocate) then Outcome(GetFailed(ErrInternal, privCap, pubCap), s)
        else
          var secret := s.t.secrets[SecretKey(row.id, name)];
          var (key, cache) := WrappingKey(c, s.cache, row, kek, env);
          var s1 := s.(cache := cache);
          if key.None? || env.fails(UnwrapKek) then Outcome(GetFailed(ErrInternal, privCap, pubCap), s1)
          else match c.unwrap(key.value, kek.wrapped)
            case None => Outcome(GetFailed(ErrInternal, privCap, pubCap), s1)
            case Some(raw) =>
              if privCap < |secret.box.ciphertext| then
                Outcome(GetFailed(ErrInternal, |secret.box.ciphertext|, pubCap), s1)
              else
                var plain := c.open(raw, secret.nonce, secret.box);
                if env.fails(OpenSecret) || plain.None? then
                  Outcome(GetFailed(ErrIntegrity, privCap, pubCap),
                          Note(s1, env, row.id, user, "secret_get", ErrIntegrity, Some(name)))
                else
                  var reply := Deliver(plain.value, secret.pub, pubCap);
                  Outcome(reply,
                          if reply.status == Ok then Note(s1, env, row.id, user, "secret_get", Ok, Some(name)) else s1)
  }

  function DeleteOp(s: State, user: string, name: string, env: Env): Outcome {
    match LookupUser(s.t, user, env)
    case None => Outcome(Done(ErrAuth), Note(s, env, 0, user, "secret_delete", ErrAuth, None))
    case Some(row) =>
      match LookupKek(s.t, row.id, env)
      case None => Outcome(Done(ErrInternal), s)
      case Some(kek) =>
        if IsExpired(kek.expiresAt, env.now) then
          Outcome(Done(ErrExpired), Note(s, env, row.id, user, "secret_delete", ErrExpired, Some(name)))
        else if env.fails(RemoveSecret) || SecretKey(row.id, name) !in s.t.secrets then
          Outcome(Done(ErrNotFound), s)
        else
          var s1 := s.(t := DeleteSecret(s.t, row.id, name));
          Outcome(Done(Ok), Note(s1, env, row.id, user, "secret_delete", Ok, Some(name)))
  }

  /** The rows that a scan delivers: a name that is not (or no longer) there is no row. */
  function Rows(t: Tables, userId: nat, scan: seq<string>): seq<(string, SecretRow)> {
    if scan == [] then []
    else
      var rest := Rows(t, userId, scan[..|scan| - 1]);
      var key := SecretKey(userId, scan[|scan| - 1]);
      if key in t.secrets then rest + [(key.name, t.secrets[key])] else rest
  }

  function Items(rows: seq<(string, SecretRow)>): seq<Item> {
    seq(|rows|, i requires 0 <= i < |rows| =>
      Item(rows[i].0, rows[i].1.description, rows[i].1.updatedAt, |rows[i].1.pub|))
  }

  function ListOp(s: State, user: string, env: Env): Outcome {
    match LookupUser(s.t, user, env)
    case None => Outcome(Listed(ErrAuth, []), Note(s, env, 0, user, "secret_list", ErrAuth, None))
    case Some(row) =>
      match LookupKek(s.t, row.id, env)
      case None => Outcome(Listed(ErrInternal, []), s)
      case Some(kek) =>
        if IsExpired(kek.expiresAt, env.now) then
          Outcome(Listed(ErrExpired, []), Note(s, env, row.id, user, "secret_list", ErrExpired, None))
        else if env.fails(ListSecrets) then Outcome(Listed(ErrInternal, []), s)
        else
          Outcome(Listed(Ok, Items(Rows(s.t, row.id, env.scan))),
                  Note(s, env, row.id, user, "secret_list", Ok, None))
  }

  function RemoveAccountOp(c: Suite, s: State, user: string, password: string, env: Env): Outcome {
    if !ValidUsername(user) then Outcome(Done(ErrInternal), s)
    else match LookupUser(s.t, user, env)
      case None => Outcome(Done(ErrAuth), Note(s, env, 0, user, "user_delete", ErrAuth, None))
      case Some(row) =>
        if env.fails(VerifyPassword) || !c.verifyPassword(password, row.hash) then
          Outcome(Done(ErrAuth), Note(s, env, row.id, user, "user_delete", ErrAuth, None))
        else if env.fails(RemoveUser) then Outcome(Done(ErrInternal), s)
        else
          var s1 := s.(t := DeleteUser(s.t, row.id));
          Outcome(Done(Ok), Note(s1, env, row.id, user, "user_delete", Ok, None))
  }

  /** The transaction of ssm_user_change_password; None when it rolls back. */
  function ChangeTx(c: Suite, t: Tables, userId: nat, oldHash: Token, newHash: Token, env: Env): Option<Tables> {
    if env.fails(UpdateHash) then None
    else
      var t1 := SetHash(t, userId, newHash);
      match LookupKek(t1, userId, env)
      case None => None
      case Some(kek) =>
        var raw := c.unwrap(c.derive(oldHash, kek.salt), kek.wrapped);
        if env.fails(Allocate) || env.fails(Derive) || env.fails(UnwrapKek) || raw.None?
           || env.fails(WrapKek) || env.fails(UpdateKek)
        then None
        else Some(SetWrapped(t1, userId, c.wrap(c.derive(newHash, kek.salt), raw.value)))
  }

  /** A committed change invalidates the user's cached key; a failed one leaves everything as it was. */
  function NewPassword(c: Suite, s: State, row: UserRow, user: string, newHash: Token, env: Env): Outcome {
    match ChangeTx(c, s.t, row.id, row.hash, newHash, env)
    case None => Outcome(Done(ErrInternal), Note(s, env, row.id, user, "user_change_password", ErrInternal, None))
    case Some(t') =>
      var s1 := s.(t := t', cache := Invalidate(s.cache, row.id));
      Outcome(Done(Ok), Note(s1, env, row.id, user, "user_change_password", Ok, None))
  }

  function ChangePasswordOp(c: Suite, s: State, user: string, password: string, newPassword: string,
                            env: Env): Outcome {
    if !ValidUsername(user) then Outcome(Done(ErrInternal), s)
    else if env.policy(newPassword) != Ok then Outcome(Done(env.policy(newPassword)), s)
    else match LookupUser(s.t, user, env)
      case None => Outcome(Done(ErrAuth), Note(s, env, 0, user, "user_change_password", ErrAuth, None))
      case Some(row) =>
        if env.fails(VerifyPassword) || !c.verifyPassword(password, row.hash) then
          Outcome(Done(ErrAuth), Note(s, env, row.id, user, "user_change_password", ErrAuth, None))
        else if env.fails(HashPassword) then Outcome(Done(ErrInternal), s)
        else NewPassword(c, s, row, user, c.hashPassword(newPassword, env.hashSalt), env)
  }

  /** The raw KEK under a password hash, if the stored blob unwraps. */
  function RawKek(c: Suite, hash: Token, kek: KekRow): Option<Token> {
    c.unwrap(c.derive(hash, kek.salt), kek.wrapped)
  }

  predicate Opens(c: Suite, raw: Token, row: SecretRow) { c.open(raw, row.nonce, row.box).Some? }

  /** One row re-encrypted under the new KEK. */
  function Resealed(c: Suite, raw: Token, name: string, row: SecretRow, env: Env): SecretRow
    requires Opens(c, raw, row)
  {
    var plain := c.open(raw, row.nonce, row.box).value;
    row.(box := c.seal(env.kek, env.nonceFor(name), plain), nonce := env.nonceFor(name), updatedAt := Format(env.now))
  }

  /** The rows of the user that the rotation's SELECT delivered. */
  predicate Scanned(k: SecretKey, userId: nat, scan: seq<string>) { k.owner == userId && k.name in scan }

  predicate AllOpen(c: Suite, t: Tables, userId: nat, raw: Token, scan: seq<string>) {
    forall k :: k in t.secrets && Scanned(k, userId, scan) ==> Opens(c, raw, t.secrets[k])
  }

  function ResealScanned(c: Suite, t: Tables, userId: nat, raw: Token, env: Env): map<SecretKey, SecretRow>
    requires AllOpen(c, t, userId, raw, env.scan)
  {
    map k | k in t.secrets ::
      if Scanned(k, userId, env.scan) then Resealed(c, raw, k.name, t.secrets[k], env) else t.secrets[k]
  }

  predicate SomeResealFails(t: Tables, userId: nat, env: Env) {
    exists k :: k in t.secrets && Scanned(k, userId, env.scan) && env.fails(Reseal(k.name))
  }

  /** The transaction of kek_rotate; None when it rolls back. */
  function RotateTx(c: Suite, t: Tables, userId: nat, hash: Token, env: Env): Option<Tables> {
    match LookupKek(t, userId, env)
    case None => None
    case Some(kek) =>
      var raw := RawKek(c, hash, kek);
      if env.fails(Allocate) || env.fails(Derive) || env.fails(UnwrapKek) || raw.None? || env.fails(ListSecrets)
         || env.fails(WrapKek) || env.fails(PrepareUpdate)
      then None
      else if !AllOpen(c, t, userId, raw.value, env.scan) || SomeResealFails(t, userId, env) then None
      else if env.fails(UpdateKek) || kek.version < 1 then None
      else
        var t1 := t.(secrets := ResealScanned(c, t, userId, raw.value, env));
        Some(ReplaceKek(t1, userId, c.wrap(c.derive(hash, env.kekSalt), env.kek), env.kekSalt,
                        ExpiresAt(env.now), kek.version))
  }

  function RotateOp(c: Suite, s: State, user: string, env: Env): Outcome {
    match LookupUser(s.t, user, env)
    case None => Outcome(Done(ErrAuth), Note(s, env, 0, user, "kek_rotate", ErrAuth, None))
    case Some(row) =>
      match RotateTx(c, s.t, row.id, row.hash, env)
      case None => Outcome(Done(ErrInternal), Note(s, env, row.id, user, "kek_rotate", ErrInternal, None))
      case Some(t') =>
        var s1 := s.(t := t', cache := Invalidate(s.cache, row.id));
        Outcome(Done(Ok), Note(s1, env, row.id, user, "kek_rotate", Ok, Some(user)))
  }

  function Next(c: Suite, s: State, call: Call, env: Env): Outcome {
    match call
    case Register(u, p) => RegisterOp(c, s, u, p, env)
    case Authenticate(u, p) => AuthenticateOp(c, s, u, p, env)
    case Store(u, priv, pub, n, d) => StoreOp(c, s, u, priv, pub, n, d, env)
    case Get(u, n, privCap, pubCap) => GetOp(c, s, u, n, privCap, pubCap, env)
    case Delete(u, n) => DeleteOp(s, u, n, env)
    case List(u) => ListOp(s, u, env)
    case RemoveAccount(u, p) => RemoveAccountOp(c, s, u, p, env)
    case ChangePassword(u, p, q) => ChangePasswordOp(c, s, u, p, q, env)
    case Rotate(u) => RotateOp(c, s, u, env)
  }
}
