/**
 Several handles on one database. A call reads the user row, a store then reads the KEK row, and what a
 call writes is one statement or transaction; other handles may run between any two of these. Nothing is
 assumed of the handles' caches: a store may unwrap the KEK with any key.
 */
module ManyHandles {
  import opened Types
  import opened Crypto
  import opened Tables
  import opened Vault
  import opened Representation
  import opened Refinement
  import opened Rotation
  import opened Transparency
  import KeyCache

  /** What a handle has read and not yet acted on. */
  datatype Pending =
    | Idle
    | Registering(id: nat, hash: Token)                 // user row inserted, KEK not yet
    | Rotating(id: nat, hash: Token)
    | Changing(id: nat, hash: Token, newHash: Token)
    | Removing(id: nat)
    | Deleting(id: nat, name: string)
    | Reading(id: nat, name: string, priv: Bytes, pub: Bytes, description: string)  // of a store, KEK not yet read
    | Storing(id: nat, raw: Token, name: string, box: Sealed, nonce: Token, pub: Bytes, description: string)

  /** The shared tables, each handle's pending call, and how often each user's KEK was rotated. */
  datatype World = World(t: Tables, pending: map<nat, Pending>, rotations: map<nat, nat>)

  datatype Event =
    | Begin(handle: nat, call: Call, env: Env)
    | Read(handle: nat, key: Token, env: Env)
    | Finish(handle: nat, env: Env)

  const START := World(EMPTY, map[], map[])

  function PendingOf(w: World, handle: nat): Pending {
    if handle in w.pending then w.pending[handle] else Idle
  }

  /** The reads of a call, and for a registration its first insert. */
  function Started(c: Suite, t: Tables, call: Call, env: Env): (Tables, Pending) {
    if call.Register? && call.user !in t.users && !env.fails(AddUser) && !env.fails(HashPassword) then
      var hash := c.hashPassword(call.password, env.hashSalt);
      (InsertUser(t, call.user, hash), Registering(t.lastUser + 1, hash))
    else match LookupUser(t, call.user, env)
      case None => (t, Idle)
      case Some(row) =>
        match call
        case Rotate(_) => (t, Rotating(row.id, row.hash))
        case ChangePassword(_, p, q) =>
          (t, if c.verifyPassword(p, row.hash) then Changing(row.id, row.hash, c.hashPassword(q, env.hashSalt))
              else Idle)
        case RemoveAccount(_, p) => (t, if c.verifyPassword(p, row.hash) then Removing(row.id) else Idle)
        case Delete(_, n) => (t, Deleting(row.id, n))
        case Store(_, priv, pub, n, d) => (t, Reading(row.id, n, priv, pub, d))
        case _ => (t, Idle)
  }

  /** A store reads the KEK row, unwraps it with the key that it has, and seals the secret. */
  function Fetched(c: Suite, t: Tables, p: Pending, key: Token, env: Env): Pending {
    if !p.Reading? then p
    else if p.id !in t.keks then Idle
    else match c.unwrap(key, t.keks[p.id].wrapped)
      case None => Idle
      case Some(raw) => Storing(p.id, raw, p.name, c.seal(raw, env.nonce, p.priv), env.nonce, p.pub, p.description)
  }

  /** The write of a pending call, as one transaction; None when it fails or rolls back. */
  function Committed(c: Suite, t: Tables, p: Pending, env: Env): Option<Tables> {
    match p
    case Idle => None
    case Reading(_, _, _, _, _) => None
    case Registering(id, hash) =>
      if env.fails(AddKek) || id in t.keks || !HasId(t.users, id) then None
      else Some(InsertKek(t, id, c.wrap(c.derive(hash, env.kekSalt), env.kek), env.kekSalt, ExpiresAt(env.now)))
    case Rotating(id, hash) => RotateTx(c, t, id, hash, env)
    case Changing(id, hash, newHash) => ChangeTx(c, t, id, hash, newHash, env)
    case Removing(id) => if env.fails(RemoveUser) || !HasId(t.users, id) then None else Some(DeleteUser(t, id))
    case Deleting(id, name) => if env.fails(RemoveSecret) then None else Some(DeleteSecret(t, id, name))
    case Storing(id, _, name, box, nonce, pub, description) =>
      if env.fails(AddSecret) || SecretKey(id, name) in t.secrets || !HasId(t.users, id) then None
      else Some(InsertSecret(t, id, name, box, nonce, pub, description, Calendar.Format(env.now)))
  }

  function Rotations(w: World, id: nat): nat { if id in w.rotations then w.rotations[id] else 0 }

  function Happen(c: Suite, w: World, e: Event): World {
    match e
    case Begin(h, call, env) =>
      var (t', p) := Started(c, w.t, call, env);
      w.(t := t', pending := w.pending[h := p])
    case Read(h, key, env) => w.(pending := w.pending[h := Fetched(c, w.t, PendingOf(w, h), key, env)])
    case Finish(h, env) =>
      var p := PendingOf(w, h);
      match Committed(c, w.t, p, env)
      case None => w.(pending := w.pending[h := Idle])
      case Some(t') =>
        World(t', w.pending[h := Idle],
              if p.Rotating? then w.rotations[p.id := Rotations(w, p.id) + 1] else w.rotations)
  }

  function Play(c: Suite, events: seq<Event>): World {
    if events == [] then START else Happen(c, Play(c, events[..|events| - 1]), events[|events| - 1])
  }

  // ---- the invariant ----

  /** A user's KEK, if there is one, unwraps under the stored hash and opens all its rows. */
  ghost predicate Openable(c: Suite, t: Tables, row: UserRow) {
    row.id in t.keks ==>
      && RawOf(c, row.hash, t.keks, row.id).Some?
      && OpenAccount(c, t, row.id, row.hash, RawOf(c, row.hash, t.keks, row.id).value)
  }

  ghost predicate AllOpenable(c: Suite, t: Tables) {
    forall u :: u in t.users ==> Openable(c, t, t.users[u])
  }

  /** A pending registration still owns its id: nobody has given it a KEK or another hash. */
  ghost predicate Reserved(t: Tables, p: Pending) {
    p.Registering? ==>
      && p.id <= t.lastUser && p.id !in t.keks
      && forall u :: u in t.users && t.users[u].id == p.id ==> t.users[u].hash == p.hash
  }

  ghost predicate PendingOk(t: Tables, pending: map<nat, Pending>, rotations: map<nat, nat>) {
    && (forall h :: h in pending ==> Reserved(t, pending[h]))
    && (forall h :: h in pending && pending[h].Registering? ==> pending[h].id !in rotations)
    && (forall h, g :: h in pending && g in pending && SameRegistration(pending[h], pending[g]) ==> h == g)
  }

  predicate SameRegistration(p: Pending, q: Pending) { p.Registering? && q.Registering? && p.id == q.id }

  /** A KEK's version is 1 plus the number of committed rotations. */
  ghost predicate VersionsCount(t: Tables, rotations: map<nat, nat>) {
    && (forall id :: id in t.keks ==> t.keks[id].version == 1 + if id in rotations then rotations[id] else 0)
    && (forall id :: id in rotations ==> id <= t.lastUser)
  }

  /** A secret waiting to be inserted was sealed under the KEK that its store read. */
  ghost predicate WellSealed(c: Suite, p: Pending) { p.Storing? ==> c.open(p.raw, p.nonce, p.box).Some? }

  ghost predicate AllSealed(c: Suite, pending: map<nat, Pending>) {
    forall h :: h in pending ==> WellSealed(c, pending[h])
  }

  /** The KEK that a store read is still the one that is stored, if its user still exists. */
  predicate StillCurrent(c: Suite, t: Tables, p: Pending) {
    p.Storing? ==> forall u :: u in t.users && t.users[u].id == p.id ==>
        RawOf(c, t.users[u].hash, t.keks, p.id) == Some(p.raw)
  }

  ghost predicate Safe(c: Suite, w: World) {
    && WellKeyed(w.t) && AllOpenable(c, w.t) && AllSealed(c, w.pending)
    && PendingOk(w.t, w.pending, w.rotations) && VersionsCount(w.t, w.rotations)
  }

  lemma OneUserOpenable(c: Suite, t: Tables, t': Tables, user: string)
    requires AllOpenable(c, t) && OthersSame(t, t', user)
    requires user in t'.users ==> Openable(c, t', t'.users[user])
    ensures AllOpenable(c, t')
  {
    forall u | u in t'.users ensures Openable(c, t', t'.users[u]) {
      if u != user {
        assert u in t'.users.Keys - {user};
        OpenableFrame(c, t, t', t.users[u]);
      }
    }
  }

  lemma OpenableFrame(c: Suite, t: Tables, t': Tables, row: UserRow)
    requires Openable(c, t, row) && SameAccount(t, t', row.id)
    ensures Openable(c, t', row)
  {
  }

  lemma ReservedKept(t: Tables, t': Tables, user: string, q: Pending)
    requires WellKeyed(t') && OthersSame(t, t', user) && Reserved(t, q) && t.lastUser <= t'.lastUser
    requires q.Registering? && user in t'.users && t'.users[user].id == q.id ==>
      q.id !in t'.keks && user in t.users && t'.users[user] == t.users[user]
    ensures Reserved(t', q)
  {
    hide SecretOwners;
    hide SecretIds;
    if q.Registering? {
      forall u | u in t'.users && t'.users[u].id == q.id
        ensures t'.users[u].hash == q.hash && q.id !in t'.keks
      {
        assert u != user ==> u in t'.users.Keys - {user};
      }
      assert q.id in t'.keks ==> HasId(t'.users, q.id);
    }
  }

  /** The user that a live id belongs to. */
  lemma UserOf(t: Tables, id: nat) returns (user: string)
    requires HasId(t.users, id)
    ensures user in t.users && t.users[user].id == id
  {
    user :| user in t.users && t.users[user].id == id;
  }

  lemma KekHasUser(t: Tables, id: nat)
    requires WellKeyed(t) && id in t.keks
    ensures HasId(t.users, id)
  {
  }

  // ---- each write, whatever happened since the read ----

  /** Every commit touches one user and leaves the tables well keyed and openable. */
  ghost predicate GoodCommit(c: Suite, t: Tables, t': Tables, id: nat, user: string) {
    && WellKeyed(t') && AllOpenable(c, t') && OthersSame(t, t', user) && t'.lastUser == t.lastUser
    && user in t.users && t.users[user].id == id
    && (user in t'.users ==> t'.users[user].id == id)
  }

  lemma RegistrationCommits(c: Suite, t: Tables, id: nat, hash: Token, env: Env) returns (user: string)
    requires Ideal(c) && WellKeyed(t) && AllOpenable(c, t) && Reserved(t, Registering(id, hash))
    requires Committed(c, t, Registering(id, hash), env).Some?
    ensures GoodCommit(c, t, Committed(c, t, Registering(id, hash), env).value, id, user)
  {
    hide Calendar.Format;
    hide HasId;
    user := UserOf(t, id);
    var wrapped := c.wrap(c.derive(hash, env.kekSalt), env.kek);
    var t' := InsertKek(t, id, wrapped, env.kekSalt, ExpiresAt(env.now));
    InsertKekKeyed(t, user, wrapped, env.kekSalt, ExpiresAt(env.now));
    NoOrphans(t, id) by { WellKeyedParts(t); }
    hide WellKeyed;
    hide OthersSame;
    assert Openable(c, t', t'.users[user]);
    OneUserOpenable(c, t, t', user);
  }

  lemma WellKeyedParts(t: Tables)
    requires WellKeyed(t)
    ensures SecretOwners(t.keks.Keys, t.secrets) && UserIds(t.users, t.lastUser)
  {
  }

  /** A rotation whose hash went stale cannot unwrap the KEK, so what commits used the stored hash. */
  lemma RotationUsesStoredHash(c: Suite, t: Tables, user: string, hash: Token, env: Env)
    requires Ideal(c) && user in t.users && Openable(c, t, t.users[user])
    requires RotateTx(c, t, t.users[user].id, hash, env).Some?
    ensures hash == t.users[user].hash
  {
  }

  lemma RotationCommits(c: Suite, t: Tables, id: nat, hash: Token, env: Env) returns (user: string)
    requires Ideal(c) && WellKeyed(t) && AllOpenable(c, t)
    requires ScanComplete(t, id, env.scan) && RotateTx(c, t, id, hash, env).Some?
    ensures GoodCommit(c, t, RotateTx(c, t, id, hash, env).value, id, user)
    ensures var t' := RotateTx(c, t, id, hash, env).value;
      id in t.keks && t'.users == t.users && t'.keks == t.keks[id := t'.keks[id]]
      && t'.keks[id].version == t.keks[id].version + 1
  {
    NewKek(c, t, id, hash, env);
    KekHasUser(t, id);
    user := UserOf(t, id);
    RotationUsesStoredHash(c, t, user, hash, env);
    var t' := RotateTx(c, t, id, hash, env).value;
    hide RotateTx;
    hide WellKeyed;
    RotateKeepsFresh(c, t, KeyCache.Empty(0), user, env);
    hide OthersSame;
    var raw := RawKek(c, hash, t.keks[id]).value;
    forall k | k in t'.secrets && k.owner == id ensures Opens(c, env.kek, t'.secrets[k]) {
      RotatedRow(c, t, id, raw, env, k);
    }
    assert Openable(c, t', t'.users[user]);
    OneUserOpenable(c, t, t', user);
  }

  /** The tables a committed password change leaves: a new hash, and the same KEK wrapped for it. */
  lemma ChangeShape(c: Suite, t: Tables, id: nat, hash: Token, newHash: Token, env: Env)
    requires Ideal(c) && ChangeTx(c, t, id, hash, newHash, env).Some?
    ensures var t' := ChangeTx(c, t, id, hash, newHash, env).value;
      && id in t.keks && id in t'.keks && t'.secrets == t.secrets
      && t' == SetHash(t, id, newHash).(keks := t.keks[id := t'.keks[id]])
      && t'.keks[id].version == t.keks[id].version
      && RawKek(c, hash, t.keks[id]).Some? && RawKek(c, newHash, t'.keks[id]) == RawKek(c, hash, t.keks[id])
  {
  }

  /** A KEK unwraps under the stored hash only. */
  lemma OneHashUnwraps(c: Suite, kek: KekRow, hash: Token, hash': Token)
    requires Ideal(c) && RawKek(c, hash, kek).Some? && RawKek(c, hash', kek).Some?
    ensures hash == hash'
  {
  }

  /** The same KEK under the new hash opens the same rows. */
  lemma ChangeStaysOpenable(c: Suite, t: Tables, t': Tables, row: UserRow, newHash: Token)
    requires Openable(c, t, row) && row.id in t.keks && row.id in t'.keks && t'.secrets == t.secrets
    requires RawKek(c, newHash, t'.keks[row.id]) == RawKek(c, row.hash, t.keks[row.id])
    ensures Openable(c, t', UserRow(row.id, newHash))
  {
  }

  lemma ChangeCommits(c: Suite, t: Tables, id: nat, hash: Token, newHash: Token, env: Env) returns (user: string)
    requires Ideal(c) && WellKeyed(t) && AllOpenable(c, t)
    requires ChangeTx(c, t, id, hash, newHash, env).Some?
    ensures GoodCommit(c, t, ChangeTx(c, t, id, hash, newHash, env).value, id, user)
    ensures var t' := ChangeTx(c, t, id, hash, newHash, env).value;
      id in t.keks && t'.keks == t.keks[id := t'.keks[id]] && t'.keks[id].version == t.keks[id].version
  {
    hide ChangeTx;
    hide WellKeyed;
    hide OthersSame;
    ChangeShape(c, t, id, hash, newHash, env);
    KekHasUser(t, id);
    user := UserOf(t, id);
    var row := t.users[user];
    assert Openable(c, t, row);
    SetHashKeyed(t, user, newHash);
    VersionsPositive(t);
    OneHashUnwraps(c, t.keks[id], hash, row.hash);
    var t1, t' := SetHash(t, id, newHash), ChangeTx(c, t, id, hash, newHash, env).value;
    ChangeStaysOpenable(c, t, t', row, newHash);
    hide SetHash;
    hide RawKek;
    hide Openable;
    hide AllOpenable;
    KekAndSecretsKeyed(t1, t', user);
    OthersSameTransitive(t, t1, t', user);
    OneUserOpenable(c, t, t', user);
  }

  lemma StoreCommits(c: Suite, t: Tables, p: Pending, env: Env) returns (user: string)
    requires WellKeyed(t) && AllOpenable(c, t) && p.Storing? && WellSealed(c, p) && StillCurrent(c, t, p)
    requires Committed(c, t, p, env).Some?
    ensures var t' := Committed(c, t, p, env).value;
      GoodCommit(c, t, t', p.id, user) && t'.keks == t.keks && t'.users == t.users
  {
    hide Calendar.Format;
    hide HasId;
    user := UserOf(t, p.id);
    var now := Calendar.Format(env.now);
    var t' := InsertSecret(t, p.id, p.name, p.box, p.nonce, p.pub, p.description, now);
    assert t.users[user].id in t.keks;
    InsertSecretKeyed(t, user, p.name, p.box, p.nonce, p.pub, p.description, now);
    hide WellKeyed;
    hide OthersSame;
    assert Openable(c, t, t.users[user]);
    assert Openable(c, t', t'.users[user]);
    OneUserOpenable(c, t, t', user);
  }

  lemma RemovalCommits(c: Suite, t: Tables, id: nat) returns (user: string)
    requires WellKeyed(t) && AllOpenable(c, t) && HasId(t.users, id)
    ensures GoodCommit(c, t, DeleteUser(t, id), id, user) && user !in DeleteUser(t, id).users
  {
    user := UserOf(t, id);
    DeleteUserKeyed(t, user);
    hide WellKeyed;
    hide OthersSame;
    hide AllOpenable;
    OneUserOpenable(c, t, DeleteUser(t, id), user);
  }

  lemma DeletionCommits(c: Suite, t: Tables, id: nat, name: string) returns (user: string)
    requires WellKeyed(t) && AllOpenable(c, t) && HasId(t.users, id)
    ensures GoodCommit(c, t, DeleteSecret(t, id, name), id, user)
  {
    user := UserOf(t, id);
    DeleteSecretKeyed(t, user, name);
    hide WellKeyed;
    hide OthersSame;
    assert Openable(c, t, t.users[user]);
    assert Openable(c, DeleteSecret(t, id, name), t.users[user]);
    OneUserOpenable(c, t, DeleteSecret(t, id, name), user);
  }

  lemma DeletionOfGoneUser(t: Tables, id: nat, name: string)
    requires WellKeyed(t) && !HasId(t.users, id)
    ensures DeleteSecret(t, id, name) == t
  {
  }

  // ---- events and runs ----

  /** Storing an idle marker, or anything that is not a registration, disturbs no reservation. */
  lemma PendingForgets(t: Tables, pending: map<nat, Pending>, rotations: map<nat, nat>, h: nat, p: Pending)
    requires PendingOk(t, pending, rotations) && !p.Registering?
    ensures PendingOk(t, pending[h := p], rotations)
  {
  }

  lemma ReadStaysSafe(c: Suite, w: World, h: nat, key: Token, env: Env)
    requires Ideal(c) && Safe(c, w)
    ensures Safe(c, Happen(c, w, Read(h, key, env)))
  {
    var p := Fetched(c, w.t, PendingOf(w, h), key, env);
    if PendingOf(w, h).Reading? {
      PendingForgets(w.t, w.pending, w.rotations, h, p);
    } else {
      PendingKept(w, h);
    }
    hide WellKeyed;
    hide AllOpenable;
    hide PendingOk;
    hide VersionsCount;
  }

  lemma PendingKept(w: World, h: nat)
    requires PendingOk(w.t, w.pending, w.rotations)
    ensures PendingOk(w.t, w.pending[h := PendingOf(w, h)], w.rotations)
  {
  }

  lemma BeginStaysSafe(c: Suite, w: World, h: nat, call: Call, env: Env)
    requires Safe(c, w)
    ensures Safe(c, Happen(c, w, Begin(h, call, env)))
  {
    hide Calendar.Format;
    hide WellKeyed;
    hide AllOpenable;
    hide PendingOk;
    var (t', p) := Started(c, w.t, call, env);
    if p.Registering? {
      var hash := c.hashPassword(call.password, env.hashSalt);
      hide Started;
      assert && t' == InsertUser(w.t, call.user, hash) && call.user !in w.t.users
             && p == Registering(w.t.lastUser + 1, hash) by {
        StartedRegistration(c, w.t, call, env);
      }
      InsertUserKeyed(w.t, call.user, hash);
      hide OthersSame;
      NewUserOpenable(c, w.t, call.user, hash);
      NewReservation(w, h, call.user, hash);
    } else {
      PendingForgets(w.t, w.pending, w.rotations, h, p);
    }
  }

  lemma StartedRegistration(c: Suite, t: Tables, call: Call, env: Env)
    requires Started(c, t, call, env).1.Registering?
    ensures call.Register? && call.user !in t.users
    ensures var hash := c.hashPassword(call.password, env.hashSalt);
      Started(c, t, call, env) == (InsertUser(t, call.user, hash), Registering(t.lastUser + 1, hash))
  {
  }

  lemma NewUserOpenable(c: Suite, t: Tables, user: string, hash: Token)
    requires AllOpenable(c, t) && OthersSame(t, InsertUser(t, user, hash), user) && t.lastUser + 1 !in t.keks
    ensures AllOpenable(c, InsertUser(t, user, hash))
  {
  }

  lemma NewReservation(w: World, h: nat, user: string, hash: Token)
    requires WellKeyed(w.t) && user !in w.t.users && PendingOk(w.t, w.pending, w.rotations)
    requires VersionsCount(w.t, w.rotations)
    ensures var t' := InsertUser(w.t, user, hash);
      && PendingOk(t', w.pending[h := Registering(w.t.lastUser + 1, hash)], w.rotations)
      && VersionsCount(t', w.rotations)
  {
  }

  lemma FinishKeepsPending(w: World, h: nat, t': Tables, id: nat, user: string)
    requires WellKeyed(w.t) && WellKeyed(t') && OthersSame(w.t, t', user) && t'.lastUser == w.t.lastUser
    requires user in w.t.users && w.t.users[user].id == id && (user in t'.users ==> t'.users[user].id == id)
    requires PendingOk(w.t, w.pending, w.rotations)
    requires forall g ::
               g in w.pending && g != h && w.pending[g].Registering? && w.pending[g].id == id && user in t'.users ==>
                 id !in t'.keks && t'.users[user] == w.t.users[user]
    ensures forall g :: g in w.pending && g != h ==> Reserved(t', w.pending[g])
  {
    hide WellKeyed;
    hide OthersSame;
    hide Reserved;
    forall g | g in w.pending && g != h ensures Reserved(t', w.pending[g]) {
      ReservedKept(w.t, t', user, w.pending[g]);
    }
  }

  /** A pending registration on the id that a commit touched was either its own or is still undisturbed. */
  lemma CommitSparesReservations(c: Suite, w: World, h: nat, t': Tables, id: nat, user: string,
                                 rotations: map<nat, nat>)
    requires WellKeyed(w.t) && GoodCommit(c, w.t, t', id, user) && PendingOk(w.t, w.pending, w.rotations)
    requires rotations == w.rotations || (id in w.t.keks && rotations == w.rotations[id := Rotations(w, id) + 1])
    requires id in w.t.keks || (PendingOf(w, h).Registering? && PendingOf(w, h).id == id)
             || (user in t'.users ==> t'.keks == w.t.keks && t'.users[user] == w.t.users[user])
    ensures PendingOk(t', w.pending[h := Idle], rotations)
  {
    hide WellKeyed;
    hide OthersSame;
    hide AllOpenable;
    forall g | g in w.pending && g != h && w.pending[g].Registering? && w.pending[g].id == id && user in t'.users
      ensures id !in t'.keks && t'.users[user] == w.t.users[user]
    {
      assert Reserved(w.t, w.pending[g]);
      assert PendingOf(w, h).Registering? && PendingOf(w, h).id == id ==> SameRegistration(w.pending[g], w.pending[h]);
    }
    FinishKeepsPending(w, h, t', id, user);
  }

  /** What a commit has to leave behind. */
  ghost predicate Settled(c: Suite, w: World, h: nat, t': Tables, rotations: map<nat, nat>) {
    && WellKeyed(t') && AllOpenable(c, t')
    && PendingOk(t', w.pending[h := Idle], rotations) && VersionsCount(t', rotations)
  }

  lemma RegistrationSettles(c: Suite, w: World, h: nat, env: Env)
    requires Ideal(c) && Safe(c, w) && PendingOf(w, h).Registering? && Committed(c, w.t, PendingOf(w, h), env).Some?
    ensures Settled(c, w, h, Committed(c, w.t, PendingOf(w, h), env).value, w.rotations)
  {
    hide WellKeyed;
    hide AllOpenable;
    hide PendingOk;
    hide HasId;
    hide ExpiresAt;
    var p := PendingOf(w, h);
    var t' := Committed(c, w.t, p, env).value;
    OwnReservation(w, h);
    var user := RegistrationCommits(c, w.t, p.id, p.hash, env);
    CommitSparesReservations(c, w, h, t', p.id, user, w.rotations);
  }

  lemma RotationSettles(c: Suite, w: World, h: nat, env: Env)
    requires Ideal(c) && Safe(c, w) && PendingOf(w, h).Rotating? && Committed(c, w.t, PendingOf(w, h), env).Some?
    requires ScanComplete(w.t, PendingOf(w, h).id, env.scan)
    ensures var id := PendingOf(w, h).id;
      Settled(c, w, h, Committed(c, w.t, PendingOf(w, h), env).value, w.rotations[id := Rotations(w, id) + 1])
  {
    hide WellKeyed;
    hide AllOpenable;
    hide PendingOk;
    hide RotateTx;
    hide ScanComplete;
    var p := PendingOf(w, h);
    var t' := Committed(c, w.t, p, env).value;
    var user := RotationCommits(c, w.t, p.id, p.hash, env);
    IdsInRange(w.t, user);
    CommitSparesReservations(c, w, h, t', p.id, user, w.rotations[p.id := Rotations(w, p.id) + 1]);
  }

  lemma ChangeSettles(c: Suite, w: World, h: nat, env: Env)
    requires Ideal(c) && Safe(c, w) && PendingOf(w, h).Changing? && Committed(c, w.t, PendingOf(w, h), env).Some?
    ensures Settled(c, w, h, Committed(c, w.t, PendingOf(w, h), env).value, w.rotations)
  {
    hide WellKeyed;
    hide AllOpenable;
    hide PendingOk;
    hide ChangeTx;
    var p := PendingOf(w, h);
    var t' := Committed(c, w.t, p, env).value;
    var user := ChangeCommits(c, w.t, p.id, p.hash, p.newHash, env);
    CommitSparesReservations(c, w, h, t', p.id, user, w.rotations);
  }

  lemma RemovalSettles(c: Suite, w: World, h: nat, env: Env)
    requires Ideal(c) && Safe(c, w) && PendingOf(w, h).Removing? && Committed(c, w.t, PendingOf(w, h), env).Some?
    ensures Settled(c, w, h, Committed(c, w.t, PendingOf(w, h), env).value, w.rotations)
  {
    hide WellKeyed;
    hide AllOpenable;
    hide PendingOk;
    hide DeleteUser;
    hide HasId;
    var p := PendingOf(w, h);
    var t' := Committed(c, w.t, p, env).value;
    var user := RemovalCommits(c, w.t, p.id);
    CommitSparesReservations(c, w, h, t', p.id, user, w.rotations);
    RemovalVersions(w.t, p.id, w.rotations);
  }

  lemma DeletionSettles(c: Suite, w: World, h: nat, env: Env)
    requires Ideal(c) && Safe(c, w) && PendingOf(w, h).Deleting? && Committed(c, w.t, PendingOf(w, h), env).Some?
    ensures Settled(c, w, h, Committed(c, w.t, PendingOf(w, h), env).value, w.rotations)
  {
    hide WellKeyed;
    hide AllOpenable;
    hide PendingOk;
    hide DeleteSecret;
    hide HasId;
    var p := PendingOf(w, h);
    if HasId(w.t.users, p.id) {
      var user := DeletionCommits(c, w.t, p.id, p.name);
      DeletionFrame(w.t, p.id, p.name);
      CommitSparesReservations(c, w, h, Committed(c, w.t, p, env).value, p.id, user, w.rotations);
    } else {
      DeletionOfGoneUser(w.t, p.id, p.name);
      PendingForgets(w.t, w.pending, w.rotations, h, Idle);
    }
  }

  lemma StoreSettles(c: Suite, w: World, h: nat, env: Env)
    requires Ideal(c) && Safe(c, w) && PendingOf(w, h).Storing? && Committed(c, w.t, PendingOf(w, h), env).Some?
    requires StillCurrent(c, w.t, PendingOf(w, h))
    ensures Settled(c, w, h, Committed(c, w.t, PendingOf(w, h), env).value, w.rotations)
  {
    assert WellSealed(c, PendingOf(w, h));
    hide WellKeyed;
    hide AllOpenable;
    hide PendingOk;
    hide HasId;
    hide WellSealed;
    hide StillCurrent;
    var p := PendingOf(w, h);
    var user := StoreCommits(c, w.t, p, env);
    CommitSparesReservations(c, w, h, Committed(c, w.t, p, env).value, p.id, user, w.rotations);
  }

  function RotationsAfter(w: World, p: Pending): map<nat, nat> {
    if p.Rotating? then w.rotations[p.id := Rotations(w, p.id) + 1] else w.rotations
  }

  lemma IdleCommitsNothing(c: Suite, t: Tables, p: Pending, env: Env)
    requires p.Idle? || p.Reading?
    ensures Committed(c, t, p, env).None?
  {
  }

  lemma IdleStaysSafe(c: Suite, w: World, h: nat)
    requires Safe(c, w)
    ensures Safe(c, w.(pending := w.pending[h := Idle]))
  {
    PendingForgets(w.t, w.pending, w.rotations, h, Idle);
    hide WellKeyed;
    hide AllOpenable;
    hide PendingOk;
    hide VersionsCount;
  }

  lemma CommitSettles(c: Suite, w: World, h: nat, env: Env)
    requires Ideal(c) && Safe(c, w) && Committed(c, w.t, PendingOf(w, h), env).Some?
    requires var p := PendingOf(w, h); p.Rotating? ==> ScanComplete(w.t, p.id, env.scan)
    requires StillCurrent(c, w.t, PendingOf(w, h))
    ensures Settled(c, w, h, Committed(c, w.t, PendingOf(w, h), env).value, RotationsAfter(w, PendingOf(w, h)))
  {
    hide Committed;
    hide Settled;
    hide Safe;
    hide StillCurrent;
    hide ScanComplete;
    hide PendingOf;
    match PendingOf(w, h)
    case Idle => IdleCommitsNothing(c, w.t, PendingOf(w, h), env);
    case Reading(_, _, _, _, _) => IdleCommitsNothing(c, w.t, PendingOf(w, h), env);
    case Registering(_, _) => RegistrationSettles(c, w, h, env);
    case Rotating(_, _) => RotationSettles(c, w, h, env);
    case Changing(_, _, _) => ChangeSettles(c, w, h, env);
    case Removing(_) => RemovalSettles(c, w, h, env);
    case Deleting(_, _) => DeletionSettles(c, w, h, env);
    case Storing(_, _, _, _, _, _, _) => StoreSettles(c, w, h, env);
  }

  lemma FinishStaysSafe(c: Suite, w: World, h: nat, env: Env)
    requires Ideal(c) && Safe(c, w)
    requires var p := PendingOf(w, h); p.Rotating? ==> ScanComplete(w.t, p.id, env.scan)
    requires StillCurrent(c, w.t, PendingOf(w, h))
    ensures Safe(c, Happen(c, w, Finish(h, env)))
  {
    hide Committed;
    hide WellKeyed;
    hide AllOpenable;
    hide AllSealed;
    hide PendingOk;
    hide VersionsCount;
    hide PendingOf;
    IdleStaysSafe(c, w, h);
    if Committed(c, w.t, PendingOf(w, h), env).Some? { CommitSettles(c, w, h, env); }
  }

  lemma OwnReservation(w: World, h: nat)
    requires PendingOk(w.t, w.pending, w.rotations) && PendingOf(w, h).Registering?
    ensures Reserved(w.t, PendingOf(w, h)) && PendingOf(w, h).id !in w.rotations
  {
  }

  lemma IdsInRange(t: Tables, user: string)
    requires WellKeyed(t) && user in t.users
    ensures t.users[user].id <= t.lastUser
  {
  }

  lemma RemovalVersions(t: Tables, id: nat, rotations: map<nat, nat>)
    requires VersionsCount(t, rotations)
    ensures VersionsCount(DeleteUser(t, id), rotations)
  {
  }

  lemma DeletionFrame(t: Tables, id: nat, name: string)
    ensures var t' := DeleteSecret(t, id, name); t'.keks == t.keks && t'.users == t.users && t'.lastUser == t.lastUser
  {
  }

  /**
   Along the run, every rotation's scan is complete when it commits, and every store commits while the
   KEK it read is still the stored one.
   */
  predicate Orderly(c: Suite, events: seq<Event>) {
    events == [] ||
    (var before, e := events[..|events| - 1], events[|events| - 1];
     && Orderly(c, before)
     && (e.Finish? ==>
           var w := Play(c, before);
           var p := PendingOf(w, e.handle);
           StillCurrent(c, w.t, p) && (p.Rotating? ==> ScanComplete(w.t, p.id, e.env.scan))))
  }

  /**
   Every such interleaving of calls by any number of handles, with any caches, keeps each stored KEK
   unwrapping under the stored hash and salt and opening all of its user's rows.
   */
  lemma {:induction false} InterleavingsStaySafe(c: Suite, events: seq<Event>)
    requires Ideal(c) && Orderly(c, events)
    ensures Safe(c, Play(c, events))
  {
    if events == [] {
    } else {
      var before, e := events[..|events| - 1], events[|events| - 1];
      InterleavingsStaySafe(c, before);
      hide Safe;
      hide Happen;
      hide ScanComplete;
      match e
      case Begin(h, call, env) => BeginStaysSafe(c, Play(c, before), h, call, env);
      case Read(h, key, env) => ReadStaysSafe(c, Play(c, before), h, key, env);
      case Finish(h, env) => FinishStaysSafe(c, Play(c, before), h, env);
    }
  }

  lemma SafeUnwraps(c: Suite, t: Tables, user: string)
    requires AllOpenable(c, t)
    ensures KekUnwraps(c, t, user)
  {
    assert user in t.users ==> Openable(c, t, t.users[user]);
  }

  /**
   The three reads of a get may see three states of the database. Whatever user row, KEK row and wrapping
   key it has by then, if it opens the secret row that it reads now, what it delivers is the row's plaintext.
   */
  lemma InterleavedGetIsRight(c: Suite, events: seq<Event>, user: string, name: string, key: Token, wrapped: Token)
    requires Ideal(c) && Orderly(c, events)
    requires var t := Play(c, events).t;
      user in t.users && t.users[user].id in t.keks && SecretKey(t.users[user].id, name) in t.secrets
    requires c.unwrap(key, wrapped).Some?
    ensures var t := Play(c, events).t;
      var row := t.secrets[SecretKey(t.users[user].id, name)];
      var delivered := c.open(c.unwrap(key, wrapped).value, row.nonce, row.box);
      delivered.Some? ==> delivered == Plaintext(c, t, user, name)
  {
    InterleavingsStaySafe(c, events);
    var t := Play(c, events).t;
    hide Play;
    assert Openable(c, t, t.users[user]);
  }

  /** In every such world, with any cache on the handle, the key a get delivers is the row's plaintext. */
  lemma PlayedGetIsRight(c: Suite, events: seq<Event>, cache: KeyCache.Cache, log: seq<LogEntry>, user: string,
                         name: string, privCap: nat, pubCap: Option<nat>, env: Env)
    requires Ideal(c) && Orderly(c, events)
    requires GetOp(c, State(Play(c, events).t, cache, log), user, name, privCap, pubCap, env).reply.priv.Some?
    ensures var t := Play(c, events).t;
      && user in t.users && t.users[user].id in t.keks && SecretKey(t.users[user].id, name) in t.secrets
      && GetOp(c, State(t, cache, log), user, name, privCap, pubCap, env).reply.priv == Plaintext(c, t, user, name)
  {
    InterleavingsStaySafe(c, events);
    SafeUnwraps(c, Play(c, events).t, user);
    StaleGetIsRight(c, State(Play(c, events).t, cache, log), user, name, privCap, pubCap, env);
  }

  // ---- the steps of a call, taken without interruption, are the call ----

  /** The key with which a store of this state unwraps the KEK, if it obtains one. */
  function StoreKey(c: Suite, s: State, call: Call, env: Env): Token {
    if call.user in s.t.users && s.t.users[call.user].id in s.t.keks
    then
      var key := KeyFrom(c, s.t, s.cache, call.user, env);
      if key.Some? then key.value else env.nonce
    else env.nonce
  }

  function Alone(c: Suite, w: World, h: nat, s: State, call: Call, env: Env): World {
    Happen(c, Happen(c, Happen(c, w, Begin(h, call, env)), Read(h, StoreKey(c, s, call, env), env)), Finish(h, env))
  }

  /** The tables after the steps of a call. */
  function Written(c: Suite, t: Tables, call: Call, key: Token, env: Env): Tables {
    var (t1, p) := Started(c, t, call, env);
    match Committed(c, t1, Fetched(c, t1, p, key, env), env)
    case None => t1
    case Some(t') => t'
  }

  lemma AloneWrites(c: Suite, s: State, w: World, h: nat, call: Call, env: Env)
    requires w.t == s.t
    ensures Alone(c, w, h, s, call, env).t == Written(c, s.t, call, StoreKey(c, s, call, env), env)
  {
    hide Started;
    hide Fetched;
    hide Committed;
    hide StoreKey;
  }

  /**
   A call that answers Ok does to the tables exactly what its steps do. Any other call changes nothing, or
   stops after the first insert of a registration, or did all of its steps.
   */
  lemma StepsAreTheCall(c: Suite, s: State, w: World, h: nat, call: Call, env: Env)
    requires WellKeyed(s.t) && w.t == s.t
    ensures var o, t1 := Next(c, s, call, env), Alone(c, w, h, s, call, env).t;
      && (o.reply.status == Ok ==> o.state.t == t1)
      && (o.state.t == s.t || o.state.t == t1 || (call.Register? && o.state.t == Happen(c, w, Begin(h, call, env)).t))
  {
    hide WellKeyed;
    hide WrappingKey;
    hide Alone;
    hide Happen;
    match call
    case Register(u, p) => RegisterSteps(c, s, w, h, u, p, env);
    case Store(_, _, _, _, _) => StoreSteps(c, s, w, h, call, env);
    case Delete(u, n) => DeleteSteps(c, s, w, h, u, n, env);
    case RemoveAccount(u, p) => RemoveSteps(c, s, w, h, u, p, env);
    case ChangePassword(u, p, q) => ChangeSteps(c, s, w, h, u, p, q, env);
    case Rotate(u) => RotateSteps(c, s, w, h, u, env);
    case _ => OnlyReads(c, s, w, h, call, env);
  }

  lemma OnlyReads(c: Suite, s: State, w: World, h: nat, call: Call, env: Env)
    requires w.t == s.t && (call.Authenticate? || call.Get? || call.List?)
    ensures Next(c, s, call, env).state.t == s.t == Alone(c, w, h, s, call, env).t
  {
    hide Alone;
    hide Happen;
    AloneWrites(c, s, w, h, call, env);
    hide StoreKey;
    hide WrappingKey;
    hide IsExpired;
    hide Deliver;
    hide Items;
    hide Rows;
  }

  /** What a registration leaves: nothing new, the user row, or the user row and its KEK, and then it answers Ok. */
  lemma RegisterTables(c: Suite, s: State, user: string, password: string, env: Env)
    ensures var o := RegisterOp(c, s, user, password, env);
      var hash := c.hashPassword(password, env.hashSalt);
      var t1 := InsertUser(s.t, user, hash);
      var t2 := InsertKek(t1, s.t.lastUser + 1, c.wrap(c.derive(hash, env.kekSalt), env.kek), env.kekSalt,
                          ExpiresAt(env.now));
      if user in s.t.users || env.fails(AddUser) || env.fails(HashPassword)
      then o.state.t == s.t && (o.reply.status == Ok ==> user in s.t.users)
      else
        || (o.reply.status != Ok && (o.state.t == s.t || o.state.t == t1))
        || (!env.fails(AddKek) && o.state.t == t2)
  {
    hide InsertUser;
    hide InsertKek;
    hide ExpiresAt;
  }

  lemma AloneRegisters(c: Suite, s: State, w: World, h: nat, user: string, password: string, env: Env)
    requires WellKeyed(s.t) && w.t == s.t && user !in s.t.users && !env.fails(AddUser) && !env.fails(HashPassword)
    ensures var call, hash := Register(user, password), c.hashPassword(password, env.hashSalt);
      var t1 := InsertUser(s.t, user, hash);
      && Happen(c, w, Begin(h, call, env)).t == t1
      && (!env.fails(AddKek) ==>
            Alone(c, w, h, s, call, env).t ==
            InsertKek(t1, s.t.lastUser + 1, c.wrap(c.derive(hash, env.kekSalt), env.kek), env.kekSalt,
                      ExpiresAt(env.now)))
  {
    hide Alone;
    AloneWrites(c, s, w, h, Register(user, password), env);
    NextIdIsUnused(s.t);
    InsertedHasId(s.t, user, c.hashPassword(password, env.hashSalt));
    InsertUserKeeps(s.t, user, c.hashPassword(password, env.hashSalt));
    hide WellKeyed;
    hide HasId;
    hide ExpiresAt;
    hide InsertKek;
    hide InsertUser;
    hide StoreKey;
  }

  lemma RegisterSteps(c: Suite, s: State, w: World, h: nat, user: string, password: string, env: Env)
    requires WellKeyed(s.t) && w.t == s.t
    ensures var o, call := RegisterOp(c, s, user, password, env), Register(user, password);
      && (o.reply.status == Ok ==> o.state.t == Alone(c, w, h, s, call, env).t)
      && (|| o.state.t == s.t || o.state.t == Alone(c, w, h, s, call, env).t
          || o.state.t == Happen(c, w, Begin(h, call, env)).t)
  {
    hide WellKeyed;
    hide RegisterOp;
    hide Alone;
    hide Happen;
    hide InsertUser;
    hide InsertKek;
    hide ExpiresAt;
    RegisterTables(c, s, user, password, env);
    if user in s.t.users {
      TakenNameSteps(c, s, w, h, user, password, env);
    } else if !env.fails(AddUser) && !env.fails(HashPassword) {
      AloneRegisters(c, s, w, h, user, password, env);
    }
  }

  lemma TakenNameSteps(c: Suite, s: State, w: World, h: nat, user: string, password: string, env: Env)
    requires w.t == s.t && user in s.t.users
    ensures Alone(c, w, h, s, Register(user, password), env).t == s.t
  {
    hide Alone;
    hide Happen;
    AloneWrites(c, s, w, h, Register(user, password), env);
    hide StoreKey;
  }

  /** The store finds a free name, unwraps the KEK with this key and inserts its row. */
  predicate Inserts(c: Suite, t: Tables, call: Call, key: Token, env: Env)
    requires call.Store?
  {
    && LookupUser(t, call.user, env).Some? && t.users[call.user].id in t.keks && !env.fails(AddSecret)
    && SecretKey(t.users[call.user].id, call.name) !in t.secrets
    && c.unwrap(key, t.keks[t.users[call.user].id].wrapped).Some?
  }

  function Inserted(c: Suite, t: Tables, call: Call, key: Token, env: Env): Tables
    requires call.Store? && Inserts(c, t, call, key, env)
  {
    var row := t.users[call.user];
    var raw := c.unwrap(key, t.keks[row.id].wrapped).value;
    InsertSecret(t, row.id, call.name, c.seal(raw, env.nonce, call.priv), env.nonce, call.pub, call.description,
                 Calendar.Format(env.now))
  }

  lemma StoreInserts(c: Suite, s: State, call: Call, env: Env)
    requires call.Store?
    ensures var o, key := Next(c, s, call, env), StoreKey(c, s, call, env);
      if o.reply.status == Ok then Inserts(c, s.t, call, key, env) && o.state.t == Inserted(c, s.t, call, key, env)
      else o.state.t == s.t
  {
    hide WrappingKey;
    hide IsExpired;
    hide Calendar.Format;
    hide InsertSecret;
  }

  lemma WritesInserted(c: Suite, t: Tables, call: Call, key: Token, env: Env)
    requires call.Store? && Inserts(c, t, call, key, env)
    ensures Written(c, t, call, key, env) == Inserted(c, t, call, key, env)
  {
    hide Calendar.Format;
    hide InsertSecret;
    assert HasId(t.users, t.users[call.user].id);
    hide HasId;
  }

  lemma StoreSteps(c: Suite, s: State, w: World, h: nat, call: Call, env: Env)
    requires w.t == s.t && call.Store?
    ensures var o, t1 := Next(c, s, call, env), Alone(c, w, h, s, call, env).t;
      (o.reply.status == Ok ==> o.state.t == t1) && (o.state.t == s.t || o.state.t == t1)
  {
    hide Alone;
    hide Happen;
    hide Written;
    hide Inserts;
    hide Inserted;
    hide Next;
    AloneWrites(c, s, w, h, call, env);
    StoreInserts(c, s, call, env);
    if Inserts(c, s.t, call, StoreKey(c, s, call, env), env) {
      WritesInserted(c, s.t, call, StoreKey(c, s, call, env), env);
    }
  }

  lemma DeleteSteps(c: Suite, s: State, w: World, h: nat, user: string, name: string, env: Env)
    requires w.t == s.t
    ensures var o := DeleteOp(s, user, name, env);
      var t1 := Alone(c, w, h, s, Delete(user, name), env).t;
      (o.reply.status == Ok ==> o.state.t == t1) && (o.state.t == s.t || o.state.t == t1)
  {
    hide Alone;
    hide Happen;
    AloneWrites(c, s, w, h, Delete(user, name), env);
    hide IsExpired;
    hide DeleteSecret;
    hide StoreKey;
  }

  lemma RemoveSteps(c: Suite, s: State, w: World, h: nat, user: string, password: string, env: Env)
    requires w.t == s.t
    ensures var o := RemoveAccountOp(c, s, user, password, env);
      var t1 := Alone(c, w, h, s, RemoveAccount(user, password), env).t;
      (o.reply.status == Ok ==> o.state.t == t1) && (o.state.t == s.t || o.state.t == t1)
  {
    hide Alone;
    hide Happen;
    AloneWrites(c, s, w, h, RemoveAccount(user, password), env);
    hide DeleteUser;
    hide StoreKey;
    assert user in s.t.users ==> HasId(s.t.users, s.t.users[user].id);
    hide HasId;
  }

  lemma ChangeSteps(c: Suite, s: State, w: World, h: nat, user: string, password: string, newPassword: string, env: Env)
    requires w.t == s.t
    ensures var o := ChangePasswordOp(c, s, user, password, newPassword, env);
      var t1 := Alone(c, w, h, s, ChangePassword(user, password, newPassword), env).t;
      (o.reply.status == Ok ==> o.state.t == t1) && (o.state.t == s.t || o.state.t == t1)
  {
    hide Alone;
    hide Happen;
    AloneWrites(c, s, w, h, ChangePassword(user, password, newPassword), env);
    hide ChangeTx;
    hide StoreKey;
  }

  lemma RotateSteps(c: Suite, s: State, w: World, h: nat, user: string, env: Env)
    requires w.t == s.t
    ensures var o := RotateOp(c, s, user, env);
      var t1 := Alone(c, w, h, s, Rotate(user), env).t;
      (o.reply.status == Ok ==> o.state.t == t1) && (o.state.t == s.t || o.state.t == t1)
  {
    hide Alone;
    hide Happen;
    AloneWrites(c, s, w, h, Rotate(user), env);
    hide RotateTx;
    hide StoreKey;
  }

  // ---- versions count rotations, in every interleaving and for every suite ----

  /** User ids are unique, KEKs have live owners, and a live user that was rotated still has its KEK. */
  ghost predicate Counted(w: World) {
    && UserIds(w.t.users, w.t.lastUser) && KekOwners(w.t.users, w.t.keks) && VersionsCount(w.t, w.rotations)
    && forall id :: id in w.rotations && HasId(w.t.users, id) ==> id in w.t.keks
  }

  lemma InsertedIds(t: Tables, user: string, hash: Token, id: nat)
    requires user !in t.users
    ensures HasId(InsertUser(t, user, hash).users, id) <==> HasId(t.users, id) || id == t.lastUser + 1
  {
    var t' := InsertUser(t, user, hash);
    if HasId(t.users, id) {
      var u :| u in t.users && t.users[u].id == id;
      assert t'.users[u].id == id;
    }
    if HasId(t'.users, id) {
      var u :| u in t'.users && t'.users[u].id == id;
      assert u != user ==> t.users[u].id == id;
    }
    assert t'.users[user].id == t.lastUser + 1;
  }

  lemma RegistrationCounted(c: Suite, w: World, h: nat, call: Call, env: Env)
    requires Counted(w) && call.Register? && call.user !in w.t.users
    ensures Counted(w.(t := InsertUser(w.t, call.user, c.hashPassword(call.password, env.hashSalt))))
  {
    var hash := c.hashPassword(call.password, env.hashSalt);
    forall id | id in w.t.keks || id in w.rotations
      ensures HasId(InsertUser(w.t, call.user, hash).users, id) <==> HasId(w.t.users, id) || id == w.t.lastUser + 1
    {
      InsertedIds(w.t, call.user, hash, id);
    }
    hide HasId;
  }

  lemma BeginCounted(c: Suite, w: World, h: nat, call: Call, env: Env)
    requires Counted(w)
    ensures Counted(Happen(c, w, Begin(h, call, env)))
  {
    if call.Register? && call.user !in w.t.users { RegistrationCounted(c, w, h, call, env); }
    hide Counted;
  }

  lemma KekCounted(w: World, id: nat, kek: KekRow)
    requires Counted(w) && HasId(w.t.users, id) && id !in w.t.keks && kek.version == 1
    ensures Counted(w.(t := w.t.(keks := w.t.keks[id := kek])))
  {
  }

  lemma RotationCounted(w: World, t': Tables, id: nat)
    requires Counted(w) && t'.users == w.t.users && t'.lastUser == w.t.lastUser && id in w.t.keks && id in t'.keks
    requires t'.keks == w.t.keks[id := t'.keks[id]] && t'.keks[id].version == w.t.keks[id].version + 1
    ensures Counted(World(t', w.pending, w.rotations[id := Rotations(w, id) + 1]))
  {
  }

  lemma HashCounted(w: World, id: nat, hash: Token)
    requires Counted(w)
    ensures Counted(w.(t := SetHash(w.t, id, hash)))
  {
    var t' := SetHash(w.t, id, hash);
    forall i | HasId(w.t.users, i) ensures HasId(t'.users, i) {
      var u :| u in w.t.users && w.t.users[u].id == i;
      assert t'.users[u].id == i;
    }
    forall i | HasId(t'.users, i) ensures HasId(w.t.users, i) {
      var u :| u in t'.users && t'.users[u].id == i;
      assert w.t.users[u].id == i;
    }
  }

  lemma ChangeKeepsVersions(c: Suite, t: Tables, id: nat, hash: Token, newHash: Token, env: Env)
    requires ChangeTx(c, t, id, hash, newHash, env).Some?
    ensures var t1, t' := SetHash(t, id, newHash), ChangeTx(c, t, id, hash, newHash, env).value;
      && t'.users == t1.users && t'.lastUser == t1.lastUser && t'.keks.Keys == t1.keks.Keys
      && forall k :: k in t'.keks ==> t'.keks[k].version == t1.keks[k].version
  {
    hide SetHash;
  }

  lemma SameVersionsCounted(w: World, t': Tables)
    requires Counted(w) && t'.users == w.t.users && t'.lastUser == w.t.lastUser && t'.keks.Keys == w.t.keks.Keys
    requires forall k :: k in t'.keks ==> t'.keks[k].version == w.t.keks[k].version
    ensures Counted(w.(t := t'))
  {
    hide HasId;
  }

  lemma ChangeCounted(c: Suite, w: World, id: nat, hash: Token, newHash: Token, env: Env)
    requires Counted(w) && ChangeTx(c, w.t, id, hash, newHash, env).Some?
    ensures Counted(w.(t := ChangeTx(c, w.t, id, hash, newHash, env).value))
  {
    hide Counted;
    hide ChangeTx;
    HashCounted(w, id, newHash);
    ChangeKeepsVersions(c, w.t, id, hash, newHash, env);
    hide SetHash;
    SameVersionsCounted(w.(t := SetHash(w.t, id, newHash)), ChangeTx(c, w.t, id, hash, newHash, env).value);
  }

  lemma RemovalCounted(w: World, id: nat)
    requires Counted(w)
    ensures Counted(w.(t := DeleteUser(w.t, id)))
  {
    var t' := DeleteUser(w.t, id);
    forall i | HasId(w.t.users, i) && i != id ensures HasId(t'.users, i) {
      var u :| u in w.t.users && w.t.users[u].id == i;
      assert u in t'.users && t'.users[u].id == i;
    }
    forall i | HasId(t'.users, i) ensures HasId(w.t.users, i) && i != id {
      var u :| u in t'.users && t'.users[u].id == i;
      assert u in w.t.users && w.t.users[u].id == i;
    }
  }

  lemma RowsCounted(w: World, t': Tables)
    requires Counted(w) && t'.users == w.t.users && t'.keks == w.t.keks && t'.lastUser == w.t.lastUser
    ensures Counted(w.(t := t'))
  {
  }

  lemma CommitCounted(c: Suite, w: World, h: nat, env: Env)
    requires Counted(w) && Committed(c, w.t, PendingOf(w, h), env).Some?
    ensures var p := PendingOf(w, h);
      Counted(World(Committed(c, w.t, p, env).value, w.pending, RotationsAfter(w, p)))
  {
    hide Counted;
    hide HasId;
    hide Calendar.Format;
    hide RotateTx;
    hide ChangeTx;
    hide DeleteUser;
    hide PendingOf;
    var p := PendingOf(w, h);
    var t' := Committed(c, w.t, p, env).value;
    match p
    case Idle => IdleCommitsNothing(c, w.t, p, env);
    case Reading(_, _, _, _, _) => IdleCommitsNothing(c, w.t, p, env);
    case Registering(id, hash) => KekCounted(w, id, t'.keks[id]);
    case Rotating(id, hash) =>
      RotationFields(c, w.t, id, hash, env);
      RotationCounted(w, t', id);
    case Changing(id, hash, newHash) => ChangeCounted(c, w, id, hash, newHash, env);
    case Removing(id) => RemovalCounted(w, id);
    case Deleting(id, name) => RowsCounted(w, t');
    case Storing(_, _, _, _, _, _, _) => RowsCounted(w, t');
  }

  lemma PendingIrrelevant(w: World, pending: map<nat, Pending>)
    requires Counted(w)
    ensures Counted(w.(pending := pending))
  {
  }

  /**
   In every interleaving whatsoever, also with stores that lose their race and scans that end early, and
   for every suite, a KEK's version is 1 plus the number of committed rotations of its user.
   */
  lemma {:induction false} VersionsCountRotations(c: Suite, events: seq<Event>)
    ensures Counted(Play(c, events)) && VersionsCount(Play(c, events).t, Play(c, events).rotations)
  {
    if events == [] {
    } else {
      var w, e := Play(c, events[..|events| - 1]), events[|events| - 1];
      VersionsCountRotations(c, events[..|events| - 1]);
      StepCounted(c, w, e);
    }
  }

  lemma StepCounted(c: Suite, w: World, e: Event)
    requires Counted(w)
    ensures Counted(Happen(c, w, e))
  {
    hide Counted;
    match e
    case Begin(h, call, env) => BeginCounted(c, w, h, call, env);
    case Read(h, key, env) => PendingIrrelevant(w, Happen(c, w, e).pending);
    case Finish(h, env) =>
      hide Committed;
      PendingIrrelevant(w, w.pending[h := Idle]);
      if Committed(c, w.t, PendingOf(w, h), env).Some? {
        CommitCounted(c, w, h, env);
        PendingIrrelevant(World(Committed(c, w.t, PendingOf(w, h), env).value, w.pending,
                                RotationsAfter(w, PendingOf(w, h))),
                          w.pending[h := Idle]);
      }
  }

  // ---- why stores need that condition ----

  /** A store that commits keeps the account in order if and only if the KEK it read is still the stored one. */
  lemma StoreCommitsExactly(c: Suite, t: Tables, user: string, raw: Token, name: string, nonce: Token, priv: Bytes,
                            pub: Bytes, description: string, env: Env)
    requires Ideal(c) && WellKeyed(t) && AllOpenable(c, t) && user in t.users && t.users[user].id in t.keks
    requires Committed(c, t, Storing(t.users[user].id, raw, name, c.seal(raw, nonce, priv), nonce, pub, description),
                       env).Some?
    ensures var row := t.users[user];
      var t' := Committed(c, t, Storing(row.id, raw, name, c.seal(raw, nonce, priv), nonce, pub, description),
                          env).value;
      AllOpenable(c, t') <==> RawOf(c, row.hash, t.keks, row.id) == Some(raw)
  {
    hide Calendar.Format;
    hide HasId;
    var row := t.users[user];
    var box := c.seal(raw, nonce, priv);
    var t' := InsertSecret(t, row.id, name, box, nonce, pub, description, Calendar.Format(env.now));
    var key := SecretKey(row.id, name);
    InsertSecretKeyed(t, user, name, box, nonce, pub, description, Calendar.Format(env.now));
    hide WellKeyed;
    hide OthersSame;
    assert Openable(c, t, row);
    var stored := RawOf(c, row.hash, t.keks, row.id).value;
    assert t'.secrets[key].box == box && t'.secrets[key].nonce == nonce;
    assert Opens(c, raw, t'.secrets[key]);
    if stored == raw {
      assert Openable(c, t', t'.users[user]);
      OneUserOpenable(c, t, t', user);
    } else {
      assert !Opens(c, stored, t'.secrets[key]);
      assert !Openable(c, t', t'.users[user]);
    }
  }

  /** A rotation by another handle between a store's read and its insert costs the stored row. */
  lemma StoreAcrossRotation(c: Suite, t: Tables, user: string, raw: Token, name: string, nonce: Token, priv: Bytes,
                            pub: Bytes, description: string, rotation: Env, env: Env)
    requires Ideal(c) && WellKeyed(t) && AllOpenable(c, t) && user in t.users
    requires RawOf(c, t.users[user].hash, t.keks, t.users[user].id) == Some(raw) && rotation.kek != raw
    requires ScanComplete(t, t.users[user].id, rotation.scan)
    requires RotateTx(c, t, t.users[user].id, t.users[user].hash, rotation).Some?
    requires var t1 := RotateTx(c, t, t.users[user].id, t.users[user].hash, rotation).value;
      Committed(c, t1, Storing(t.users[user].id, raw, name, c.seal(raw, nonce, priv), nonce, pub, description),
                env).Some?
    ensures var t1 := RotateTx(c, t, t.users[user].id, t.users[user].hash, rotation).value;
      !AllOpenable(c, Committed(c, t1, Storing(t.users[user].id, raw, name, c.seal(raw, nonce, priv), nonce, pub,
                                               description), env).value)
  {
    hide RotateTx;
    hide WellKeyed;
    hide AllOpenable;
    hide Committed;
    var row := t.users[user];
    var who := RotationCommits(c, t, row.id, row.hash, rotation);
    NewKek(c, t, row.id, row.hash, rotation);
    StoreCommitsExactly(c, RotateTx(c, t, row.id, row.hash, rotation).value, user, raw, name, nonce, priv, pub,
                        description, env);
  }

  // ---- only a rotation makes a store's KEK stale ----

  lemma StaysCurrent(c: Suite, t: Tables, t': Tables, id: nat, user: string, p: Pending)
    requires GoodCommit(c, t, t', id, user) && p.Storing? && StillCurrent(c, t, p)
    requires id == p.id && user in t'.users ==>
      RawOf(c, t'.users[user].hash, t'.keks, id) == RawOf(c, t.users[user].hash, t.keks, id)
    ensures StillCurrent(c, t', p)
  {
    hide WellKeyed;
    hide AllOpenable;
    forall u | u in t'.users && t'.users[u].id == p.id
      ensures RawOf(c, t'.users[u].hash, t'.keks, p.id) == Some(p.raw)
    {
      if u != user {
        assert u in t'.users.Keys - {user};
        assert t'.users[u] == t.users[u] && SameAccount(t, t', p.id);
      }
    }
  }

  lemma RegistrationKeepsCurrent(c: Suite, w: World, h: nat, env: Env, p: Pending)
    requires Ideal(c) && Safe(c, w) && PendingOf(w, h).Registering? && Committed(c, w.t, PendingOf(w, h), env).Some?
    requires p.Storing? && StillCurrent(c, w.t, p)
    ensures StillCurrent(c, Committed(c, w.t, PendingOf(w, h), env).value, p)
  {
    hide WellKeyed;
    hide AllOpenable;
    hide PendingOk;
    var q := PendingOf(w, h);
    OwnReservation(w, h);
    var user := RegistrationCommits(c, w.t, q.id, q.hash, env);
    assert q.id != p.id;
    hide Committed;
    hide StillCurrent;
    hide GoodCommit;
    StaysCurrent(c, w.t, Committed(c, w.t, q, env).value, q.id, user, p);
  }

  lemma ChangeKeepsCurrent(c: Suite, t: Tables, q: Pending, env: Env, p: Pending)
    requires Ideal(c) && WellKeyed(t) && AllOpenable(c, t) && q.Changing? && Committed(c, t, q, env).Some?
    requires p.Storing? && StillCurrent(c, t, p)
    ensures StillCurrent(c, Committed(c, t, q, env).value, p)
  {
    hide WellKeyed;
    hide ChangeTx;
    hide OthersSame;
    ChangeShape(c, t, q.id, q.hash, q.newHash, env);
    var user := ChangeCommits(c, t, q.id, q.hash, q.newHash, env);
    assert Openable(c, t, t.users[user]);
    OneHashUnwraps(c, t.keks[q.id], q.hash, t.users[user].hash);
    hide StillCurrent;
    hide AllOpenable;
    StaysCurrent(c, t, Committed(c, t, q, env).value, q.id, user, p);
  }

  /**
   The commit of any other call leaves a store's KEK current; so the only thing that can cost a stored
   row is a rotation of the same user that commits between the store's read and its insert.
   */
  lemma OnlyRotationStales(c: Suite, w: World, h: nat, env: Env, p: Pending)
    requires Ideal(c) && Safe(c, w) && p.Storing? && StillCurrent(c, w.t, p) && StillCurrent(c, w.t, PendingOf(w, h))
    requires var q := PendingOf(w, h); q.Rotating? ==> q.id != p.id && ScanComplete(w.t, q.id, env.scan)
    ensures StillCurrent(c, Happen(c, w, Finish(h, env)).t, p)
  {
    hide WellKeyed;
    hide AllOpenable;
    hide PendingOk;
    hide StillCurrent;
    hide GoodCommit;
    hide Committed;
    hide ScanComplete;
    hide PendingOf;
    var q, t := PendingOf(w, h), w.t;
    if Committed(c, t, q, env).Some? {
      var t' := Committed(c, t, q, env).value;
      match q
      case Idle => IdleCommitsNothing(c, t, q, env);
      case Reading(_, _, _, _, _) => IdleCommitsNothing(c, t, q, env);
      case Registering(_, _) => RegistrationKeepsCurrent(c, w, h, env, p);
      case Rotating(_, _) => RotationElsewhere(c, t, q, env, p);
      case Changing(_, _, _) => ChangeKeepsCurrent(c, t, q, env, p);
      case Removing(_) => RemovalKeepsCurrent(c, t, q, env, p);
      case Deleting(_, _) => DeletionKeepsCurrent(c, t, q, env, p);
      case Storing(_, _, _, _, _, _, _) => StoreKeepsCurrent(c, t, q, env, p);
    }
  }

  lemma RotationElsewhere(c: Suite, t: Tables, q: Pending, env: Env, p: Pending)
    requires Ideal(c) && WellKeyed(t) && AllOpenable(c, t) && q.Rotating? && Committed(c, t, q, env).Some?
    requires p.Storing? && StillCurrent(c, t, p) && q.id != p.id && ScanComplete(t, q.id, env.scan)
    ensures StillCurrent(c, Committed(c, t, q, env).value, p)
  {
    hide WellKeyed;
    hide RotateTx;
    hide AllOpenable;
    hide StillCurrent;
    hide ScanComplete;
    hide GoodCommit;
    var user := RotationCommits(c, t, q.id, q.hash, env);
    StaysCurrent(c, t, Committed(c, t, q, env).value, q.id, user, p);
  }

  lemma RemovalKeepsCurrent(c: Suite, t: Tables, q: Pending, env: Env, p: Pending)
    requires WellKeyed(t) && AllOpenable(c, t) && q.Removing? && Committed(c, t, q, env).Some?
    requires p.Storing? && StillCurrent(c, t, p)
    ensures StillCurrent(c, Committed(c, t, q, env).value, p)
  {
    hide WellKeyed;
    hide AllOpenable;
    hide StillCurrent;
    hide DeleteUser;
    hide HasId;
    hide GoodCommit;
    var user := RemovalCommits(c, t, q.id);
    StaysCurrent(c, t, DeleteUser(t, q.id), q.id, user, p);
  }

  lemma DeletionKeepsCurrent(c: Suite, t: Tables, q: Pending, env: Env, p: Pending)
    requires q.Deleting? && Committed(c, t, q, env).Some? && p.Storing? && StillCurrent(c, t, p)
    ensures StillCurrent(c, Committed(c, t, q, env).value, p)
  {
    DeletionFrame(t, q.id, q.name);
  }

  lemma StoreKeepsCurrent(c: Suite, t: Tables, q: Pending, env: Env, p: Pending)
    requires q.Storing? && Committed(c, t, q, env).Some? && p.Storing? && StillCurrent(c, t, p)
    ensures StillCurrent(c, Committed(c, t, q, env).value, p)
  {
    hide Calendar.Format;
  }

  // ---- the race, step by step ----

  function Smooth(kek: Token): Env {
    Env(0, (_: Step) => false, (_: string) => Ok, Raw(1), kek, Raw(2), Raw(3), (_: string) => Raw(4), ["key"])
  }

  /** Handle 1 registers and starts a store; handle 2 rotates; handle 1 inserts. */
  function Race(): seq<Event> {
    [Begin(1, Register("alice", "password"), Smooth(Raw(10))), Finish(1, Smooth(Raw(10))),
     Begin(1, Store("alice", [7], [], "key", ""), Smooth(Raw(11))), Read(1, Pair(ALICE, Raw(2)), Smooth(Raw(11))),
     Begin(2, Rotate("alice"), Smooth(Raw(12))), Finish(2, Smooth(Raw(12))), Finish(1, Smooth(Raw(13)))]
  }

  lemma PlayPrefix(c: Suite, events: seq<Event>, n: nat)
    requires n < |events|
    ensures Play(c, events[..n + 1]) == Happen(c, Play(c, events[..n]), events[n])
  {
    assert events[..n + 1][..n] == events[..n];
  }

  const ALICE := Pair(Text("password"), Raw(1))

  function Registered(): Tables {
    InsertKek(InsertUser(EMPTY, "alice", ALICE), 1, Pair(Pair(ALICE, Raw(2)), Raw(10)), Raw(2), ExpiresAt(0))
  }

  function HalfStored(): Pending { Storing(1, Raw(10), "key", Sealed([7], Pair(Raw(10), Raw(3))), Raw(3), [], "") }

  lemma RaceRegisters()
    ensures Play(Symbolic(), Race()[..2]) == World(Registered(), map[1 := Idle], map[])
  {
    hide Calendar.Format;
    var c, e := Symbolic(), Race();
    assert e[..0] == [];
    PlayPrefix(c, e, 0);
    var w1 := World(InsertUser(EMPTY, "alice", ALICE), map[1 := Registering(1, ALICE)], map[]);
    assert Play(c, e[..1]) == w1;
    PlayPrefix(c, e, 1);
    assert HasId(w1.t.users, 1) by { assert w1.t.users["alice"].id == 1; }
    assert w1.pending[1 := Idle] == map[1 := Idle];
  }

  function HalfRead(): Pending { Reading(1, "key", [7], [], "") }

  lemma RaceBegins()
    ensures Play(Symbolic(), Race()[..3]) == World(Registered(), map[1 := HalfRead()], map[])
  {
    hide Calendar.Format;
    RaceRegisters();
    PlayPrefix(Symbolic(), Race(), 2);
    assert map[1 := Idle][1 := HalfRead()] == map[1 := HalfRead()];
  }

  lemma RaceFetches()
    ensures Play(Symbolic(), Race()[..4]) == World(Registered(), map[1 := HalfStored()], map[])
  {
    hide Calendar.Format;
    hide Play;
    RaceBegins();
    PlayPrefix(Symbolic(), Race(), 3);
    assert map[1 := HalfRead()][1 := HalfStored()] == map[1 := HalfStored()];
  }

  lemma RaceReads()
    ensures Play(Symbolic(), Race()[..5]) == World(Registered(), map[1 := HalfStored(), 2 := Rotating(1, ALICE)], map[])
  {
    hide Calendar.Format;
    hide Play;
    RaceFetches();
    PlayPrefix(Symbolic(), Race(), 4);
    assert map[1 := HalfStored()][2 := Rotating(1, ALICE)] == map[1 := HalfStored(), 2 := Rotating(1, ALICE)];
  }

  lemma RotatedRegistered()
    ensures RotateTx(Symbolic(), Registered(), 1, ALICE, Smooth(Raw(12))).Some?
    ensures var t := RotateTx(Symbolic(), Registered(), 1, ALICE, Smooth(Raw(12))).value;
      && t.users == Registered().users && t.secrets == map[]
      && RawOf(Symbolic(), ALICE, t.keks, 1) == Some(Raw(12))
  {
  }

  lemma SecondHandleCommits()
    ensures var w := Happen(Symbolic(), World(Registered(), map[1 := HalfStored(), 2 := Rotating(1, ALICE)], map[]),
                            Finish(2, Smooth(Raw(12))));
      && w.t.users == Registered().users && w.t.secrets == map[] && PendingOf(w, 1) == HalfStored()
      && RawOf(Symbolic(), ALICE, w.t.keks, 1) == Some(Raw(12))
  {
    hide RotateTx;
    hide Registered;
    hide HalfStored;
    hide Smooth;
    RotatedRegistered();
  }

  lemma RaceRotates()
    ensures var w := Play(Symbolic(), Race()[..6]);
      && w.t.users == Registered().users && w.t.secrets == map[] && PendingOf(w, 1) == HalfStored()
      && RawOf(Symbolic(), ALICE, w.t.keks, 1) == Some(Raw(12))
  {
    hide Happen;
    hide Play;
    hide Registered;
    hide HalfStored;
    hide Smooth;
    RaceReads();
    PlayPrefix(Symbolic(), Race(), 5);
    SecondHandleCommits();
  }

  /** The stored row does not open under the KEK that is now in force. */
  lemma RaceLosesRow()
    ensures Ideal(Symbolic())
    ensures var t := Play(Symbolic(), Race()).t;
      && "alice" in t.users && t.users["alice"].id in t.keks && SecretKey(t.users["alice"].id, "key") in t.secrets
      && RawOf(Symbolic(), t.users["alice"].hash, t.keks, t.users["alice"].id) == Some(Raw(12))
      && !Opens(Symbolic(), Raw(12), t.secrets[SecretKey(t.users["alice"].id, "key")])
  {
    hide Calendar.Format;
    hide Play;
    var c, e := Symbolic(), Race();
    SymbolicIsIdeal();
    RaceRotates();
    var t6 := Play(c, e[..6]).t;
    PlayPrefix(c, e, 6);
    assert e[..7] == e;
    assert HasId(t6.users, 1) by { assert t6.users["alice"].id == 1; }
  }
}
