/** Whole runs of one handle from an empty database: expiry, refinement, and survival of secrets. */
module Runs {
  import opened Types
  import opened Crypto
  import opened Calendar
  import opened Tables
  import opened KeyCache
  import opened Vault
  import opened PlainVault
  import opened Representation
  import opened Refinement
  import opened Transparency

  type Calls = seq<(Call, Env)>

  const START := State(EMPTY, Empty(CAPACITY), [])

  function StateAfter(c: Suite, calls: Calls): State { Run(c, START, calls).1 }

  lemma OneMoreCall(c: Suite, calls: Calls, call: Call, env: Env)
    ensures var o := Next(c, StateAfter(c, calls), call, env);
      && StateAfter(c, calls + [(call, env)]) == o.state
      && Run(c, START, calls + [(call, env)]).0 == Run(c, START, calls).0 + [o.reply]
  {
    hide Next;
    assert (calls + [(call, env)])[..|calls|] == calls;
  }

  lemma WellKeyedAfter(c: Suite, calls: Calls)
    ensures WellKeyed(StateAfter(c, calls).t)
  {
    assert Intact(c, START);
    RunKeeps(c, START, calls);
  }

  // ---- expiry and versions, for every run and every suite ----

  /** When a user's key was last made, and how many rotations it has seen. */
  datatype Age = Age(since: int, rotations: nat)

  /** The ages after a call that answered with the given status, its user registered before or not. */
  function Track(ages: map<string, Age>, known: bool, call: Call, status: Status, now: Now): map<string, Age> {
    var u := call.user;
    if status != Ok then ages
    else match call
      case Register(_, _) => if known then ages else ages[u := Age(now, 0)]
      case RemoveAccount(_, _) => ages - {u}
      case Rotate(_) => if u in ages then ages[u := Age(now, ages[u].rotations + 1)] else ages
      case _ => ages
  }

  /** The ages after a call of the engine. */
  function Tracked(c: Suite, ages: map<string, Age>, s: State, call: Call, env: Env): map<string, Age> {
    Track(ages, call.user in s.t.users, call, Next(c, s, call, env).reply.status, env.now)
  }

  function Ages(c: Suite, calls: Calls): map<string, Age> {
    if calls == [] then map[]
    else
      var before := calls[..|calls| - 1];
      Tracked(c, Ages(c, before), StateAfter(c, before), calls[|calls| - 1].0, calls[|calls| - 1].1)
  }

  /** The deadline and the version of a user's KEK row. */
  datatype View = NoKek | Kek(deadline: Option<int>, version: int)

  function ViewOf(t: Tables, user: string): View {
    if user in t.users && t.users[user].id in t.keks
    then Kek(Parse(t.keks[t.users[user].id].expiresAt), t.keks[t.users[user].id].version)
    else NoKek
  }

  function ViewOfAge(ages: map<string, Age>, user: string): View {
    if user in ages then Kek(Some(ages[user].since + KEK_LIFETIME), 1 + ages[user].rotations) else NoKek
  }

  ghost predicate Aged(t: Tables, ages: map<string, Age>) { forall u :: ViewOf(t, u) == ViewOfAge(ages, u) }

  lemma OthersView(t: Tables, t': Tables, user: string, other: string)
    requires OthersSame(t, t', user) && other != user
    ensures ViewOf(t', other) == ViewOf(t, other)
  {
    assert other in t.users.Keys - {user} <==> other in t'.users.Keys - {user};
  }

  lemma NewDeadline(now: Now)
    ensures Parse(ExpiresAt(now)) == Some(now + KEK_LIFETIME)
  {
    hide Format;
    hide Parse;
    ParseFormat(now + KEK_LIFETIME);
  }

  lemma GiveKekView(c: Suite, s: State, id: nat, user: string, hash: Token, env: Env)
    requires user in s.t.users && s.t.users[user].id == id && id !in s.t.keks
    ensures var o := GiveKek(c, s, id, user, hash, env);
      ViewOf(o.state.t, user) == if o.reply.status == Ok then Kek(Some(env.now + KEK_LIFETIME), 1) else NoKek
  {
    NewDeadline(env.now);
    hide ExpiresAt;
    hide Parse;
  }

  lemma AddAccountView(c: Suite, s: State, user: string, password: string, env: Env)
    requires WellKeyed(s.t) && user !in s.t.users
    ensures var o := AddAccount(c, s, user, password, env);
      ViewOf(o.state.t, user) == if o.reply.status == Ok then Kek(Some(env.now + KEK_LIFETIME), 1) else NoKek
  {
    hide WellKeyed;
    hide HasId;
    hide ViewOf;
    hide GiveKek;
    hide Parse;
    hide ViewOfAge;
    NextIdIsUnused(s.t);
    NoUserNoKek(s.t, user);
    var hash := c.hashPassword(password, env.hashSalt);
    GiveKekView(c, s.(t := InsertUser(s.t, user, hash)), s.t.lastUser + 1, user, hash, env);
  }

  lemma RegisterView(c: Suite, s: State, user: string, password: string, env: Env)
    requires WellKeyed(s.t)
    ensures var o := RegisterOp(c, s, user, password, env);
      ViewOf(o.state.t, user) ==
      if o.reply.status == Ok && user !in s.t.users then Kek(Some(env.now + KEK_LIFETIME), 1) else ViewOf(s.t, user)
  {
    NoUserNoKek(s.t, user);
    hide WellKeyed;
    hide ViewOf;
    if user in s.t.users {
      TakenName(c, s, user, password, env);
    } else {
      AddAccountView(c, s, user, password, env);
    }
    hide AddAccount;
  }

  lemma TakenName(c: Suite, s: State, user: string, password: string, env: Env)
    requires user in s.t.users
    ensures AddAccount(c, s, user, password, env) == Outcome(Done(ErrInternal), s)
  {
  }

  lemma RotateView(c: Suite, s: State, user: string, env: Env)
    ensures var o := RotateOp(c, s, user, env);
      if o.reply.status != Ok then ViewOf(o.state.t, user) == ViewOf(s.t, user)
      else
        && ViewOf(s.t, user).Kek?
        && ViewOf(o.state.t, user) == Kek(Some(env.now + KEK_LIFETIME), ViewOf(s.t, user).version + 1)
  {
    hide RotateTx;
    hide ExpiresAt;
    hide Parse;
    NewDeadline(env.now);
    if user in s.t.users { RotationFields(c, s.t, s.t.users[user].id, s.t.users[user].hash, env); }
  }

  lemma ChangeView(c: Suite, s: State, user: string, password: string, newPassword: string, env: Env)
    ensures ViewOf(ChangePasswordOp(c, s, user, password, newPassword, env).state.t, user) == ViewOf(s.t, user)
  {
    hide Parse;
  }

  lemma OtherCallsView(c: Suite, s: State, call: Call, env: Env)
    requires !call.Register? && !call.Rotate? && !call.ChangePassword?
    ensures var o := Next(c, s, call, env);
      ViewOf(o.state.t, call.user) == if call.RemoveAccount? && o.reply.status == Ok then NoKek
                                      else ViewOf(s.t, call.user)
  {
    hide Parse;
    hide Format;
    hide IsExpired;
    hide WrappingKey;
    hide Deliver;
    hide Items;
    hide Rows;
  }

  /** What a call with the given status does to the view of its user, registered before or not. */
  function Advance(v: View, known: bool, call: Call, status: Status, now: Now): View {
    if status != Ok then v
    else match call
      case Register(_, _) => if known then v else Kek(Some(now + KEK_LIFETIME), 1)
      case RemoveAccount(_, _) => NoKek
      case Rotate(_) => if v.Kek? then Kek(Some(now + KEK_LIFETIME), v.version + 1) else v
      case _ => v
  }

  lemma NextAdvances(c: Suite, s: State, call: Call, env: Env)
    requires WellKeyed(s.t)
    ensures var o := Next(c, s, call, env);
      ViewOf(o.state.t, call.user) ==
      Advance(ViewOf(s.t, call.user), call.user in s.t.users, call, o.reply.status, env.now)
  {
    hide WellKeyed;
    hide ViewOf;
    hide RegisterOp;
    hide RotateOp;
    hide ChangePasswordOp;
    hide StoreOp;
    hide GetOp;
    hide DeleteOp;
    hide ListOp;
    hide AuthenticateOp;
    hide RemoveAccountOp;
    match call
    case Register(u, p) => RegisterView(c, s, u, p, env);
    case Rotate(u) => RotateView(c, s, u, env);
    case ChangePassword(u, p, q) => ChangeView(c, s, u, p, q, env);
    case _ => OtherCallsView(c, s, call, env);
  }

  lemma TrackAdvances(ages: map<string, Age>, known: bool, call: Call, status: Status, now: Now)
    ensures ViewOfAge(Track(ages, known, call, status, now), call.user) ==
        Advance(ViewOfAge(ages, call.user), known, call, status, now)
  {
  }

  lemma TrackSpares(ages: map<string, Age>, known: bool, call: Call, status: Status, now: Now, user: string)
    requires user != call.user
    ensures ViewOfAge(Track(ages, known, call, status, now), user) == ViewOfAge(ages, user)
  {
  }

  lemma OwnAge(c: Suite, s: State, ages: map<string, Age>, call: Call, env: Env)
    requires WellKeyed(s.t) && ViewOf(s.t, call.user) == ViewOfAge(ages, call.user)
    ensures ViewOf(Next(c, s, call, env).state.t, call.user) == ViewOfAge(Tracked(c, ages, s, call, env), call.user)
  {
    hide Advance;
    hide Track;
    hide Next;
    hide ViewOf;
    hide ViewOfAge;
    NextAdvances(c, s, call, env);
    TrackAdvances(ages, call.user in s.t.users, call, Next(c, s, call, env).reply.status, env.now);
  }

  lemma TrackAges(c: Suite, s: State, ages: map<string, Age>, call: Call, env: Env)
    requires WellKeyed(s.t) && Aged(s.t, ages)
    ensures Aged(Next(c, s, call, env).state.t, Tracked(c, ages, s, call, env))
  {
    hide WellKeyed;
    hide OthersSame;
    hide Fresh;
    hide ViewOf;
    hide ViewOfAge;
    hide Track;
    hide Next;
    CallKeeps(c, s, call, env);
    var t' := Next(c, s, call, env).state.t;
    forall u | u != call.user ensures ViewOf(t', u) == ViewOfAge(Tracked(c, ages, s, call, env), u) {
      OthersView(s.t, t', call.user, u);
      TrackSpares(ages, call.user in s.t.users, call, Next(c, s, call, env).reply.status, env.now, u);
    }
    OwnAge(c, s, ages, call, env);
  }

  lemma NoUserNoKek(t: Tables, user: string)
    ensures user !in t.users ==> ViewOf(t, user) == NoKek
  {
  }

  lemma {:induction false} RunAged(c: Suite, calls: Calls)
    ensures Aged(StateAfter(c, calls).t, Ages(c, calls))
  {
    if calls == [] {
    } else {
      hide Aged;
      hide Tracked;
      hide Next;
      hide WellKeyed;
      var n := |calls| - 1;
      RunAged(c, calls[..n]);
      WellKeyedAfter(c, calls[..n]);
      TrackAges(c, StateAfter(c, calls[..n]), Ages(c, calls[..n]), calls[n].0, calls[n].1);
    }
  }

  /** In every run the stored version counts the rotations, and the deadline is 90 days after the last one. */
  lemma KekRowTracksAge(c: Suite, calls: Calls, user: string)
    ensures var t := StateAfter(c, calls).t;
      && (user in Ages(c, calls) <==> user in t.users && t.users[user].id in t.keks)
      && (user in Ages(c, calls) ==>
            var kek := t.keks[t.users[user].id];
            kek.version == 1 + Ages(c, calls)[user].rotations
            && Parse(kek.expiresAt) == Some(Ages(c, calls)[user].since + KEK_LIFETIME))
  {
    hide Ages;
    hide StateAfter;
    hide Parse;
    RunAged(c, calls);
    assert ViewOf(StateAfter(c, calls).t, user) == ViewOfAge(Ages(c, calls), user);
  }

  /** The calls whose barrier is the key's deadline. */
  predicate Guarded(call: Call) {
    (call.Store? && call.priv != []) || call.Get? || call.Delete? || call.List?
  }

  lemma AgedAt(t: Tables, ages: map<string, Age>, user: string)
    requires Aged(t, ages)
    ensures ViewOf(t, user) == ViewOfAge(ages, user)
  {
  }

  /** The deadline check: user and KEK are found and the stored time stamp has passed. */
  predicate PastDeadline(t: Tables, user: string, env: Env) {
    !env.fails(FindUser) && !env.fails(FindKek)
    && user in t.users && t.users[user].id in t.keks && IsExpired(t.keks[t.users[user].id].expiresAt, env.now)
  }

  lemma DeadlinePassed(t: Tables, ages: map<string, Age>, user: string, env: Env)
    requires Aged(t, ages)
    ensures PastDeadline(t, user, env) <==>
      && !env.fails(FindUser) && !env.fails(FindKek)
      && user in ages && env.now >= ages[user].since + 90 * 86400
  {
    hide Aged;
    hide Parse;
    AgedAt(t, ages, user);
  }

  lemma StoreExpiry(c: Suite, s: State, user: string, priv: Bytes, pub: Bytes, name: string, description: string,
                    env: Env)
    requires priv != []
    ensures StoreOp(c, s, user, priv, pub, name, description, env).reply.status == ErrExpired <==>
        PastDeadline(s.t, user, env)
  {
    hide IsExpired;
    hide WrappingKey;
    hide InsertSecret;
    hide Format;
  }

  lemma GetExpiry(c: Suite, s: State, user: string, name: string, privCap: nat, pubCap: Option<nat>, env: Env)
    ensures GetOp(c, s, user, name, privCap, pubCap, env).reply.status == ErrExpired <==> PastDeadline(s.t, user, env)
  {
    hide IsExpired;
    hide WrappingKey;
  }

  lemma DeleteExpiry(s: State, user: string, name: string, env: Env)
    ensures DeleteOp(s, user, name, env).reply.status == ErrExpired <==> PastDeadline(s.t, user, env)
  {
    hide IsExpired;
  }

  lemma ListExpiry(s: State, user: string, env: Env)
    ensures ListOp(s, user, env).reply.status == ErrExpired <==> PastDeadline(s.t, user, env)
  {
    hide IsExpired;
    hide Items;
  }

  lemma ExpiryInState(c: Suite, s: State, ages: map<string, Age>, call: Call, env: Env)
    requires Aged(s.t, ages) && Guarded(call)
    ensures Next(c, s, call, env).reply.status == ErrExpired <==>
      && !env.fails(FindUser) && !env.fails(FindKek)
      && call.user in ages && env.now >= ages[call.user].since + 90 * 86400
  {
    hide Aged;
    hide PastDeadline;
    hide StoreOp;
    hide GetOp;
    hide DeleteOp;
    hide ListOp;
    DeadlinePassed(s.t, ages, call.user, env);
    match call
    case Store(u, priv, pub, n, d) => StoreExpiry(c, s, u, priv, pub, n, d, env);
    case Get(u, n, privCap, pubCap) => GetExpiry(c, s, u, n, privCap, pubCap, env);
    case Delete(u, n) => DeleteExpiry(s, u, n, env);
    case List(u) => ListExpiry(s, u, env);
  }

  /**
   In every run: store, get, delete and list answer ErrExpired exactly when the user's key was made
   90 days ago or earlier, by its registration or its last committed rotation.
   */
  lemma ExpiryOverRuns(c: Suite, calls: Calls, call: Call, env: Env)
    requires Guarded(call)
    ensures Last(Run(c, START, calls + [(call, env)]).0).status == ErrExpired <==>
      && !env.fails(FindUser) && !env.fails(FindKek)
      && call.user in Ages(c, calls) && env.now >= Ages(c, calls)[call.user].since + 90 * 86400
  {
    hide Next;
    hide Run;
    hide Aged;
    OneMoreCall(c, calls, call, env);
    RunAged(c, calls);
    ExpiryInState(c, StateAfter(c, calls), Ages(c, calls), call, env);
  }

  function Last(replies: seq<Reply>): Reply {
    if replies == [] then Done(ErrInternal) else replies[|replies| - 1]
  }

  // ---- refinement ----

  function PlainRun(a: Plain, calls: Calls): (seq<Reply>, Plain) {
    if calls == [] then ([], a)
    else
      var (replies, a1) := PlainRun(a, calls[..|calls| - 1]);
      var (call, env) := calls[|calls| - 1];
      var (reply, a2) := PlainNext(a1, call, env);
      (replies + [reply], a2)
  }

  /** The run as the plain map sees it: a failed derivation is a KEK that could not be unwrapped. */
  function Seen(c: Suite, calls: Calls): (seen: Calls)
    ensures |seen| == |calls|
  {
    if calls == [] then []
    else
      var before := calls[..|calls| - 1];
      var (call, env) := calls[|calls| - 1];
      Seen(c, before) + [(call, AsSeen(StateAfter(c, before), call, env))]
  }

  function PlainAfter(c: Suite, calls: Calls): Plain { PlainRun(map[], Seen(c, calls)).1 }

  lemma OneMorePlain(c: Suite, calls: Calls, call: Call, env: Env)
    ensures var env' := AsSeen(StateAfter(c, calls), call, env);
      var (reply, a') := PlainNext(PlainAfter(c, calls), call, env');
      && PlainAfter(c, calls + [(call, env)]) == a'
      && PlainRun(map[], Seen(c, calls + [(call, env)])).0 == PlainRun(map[], Seen(c, calls)).0 + [reply]
  {
    hide PlainNext;
    hide AsSeen;
    assert (calls + [(call, env)])[..|calls|] == calls;
    var seen := Seen(c, calls + [(call, env)]);
    assert seen[..|calls|] == Seen(c, calls);
  }

  /** Every rotation of the user that commits was delivered every row. */
  predicate ScansOk(c: Suite, calls: Calls, user: string) {
    calls == [] ||
    (var before, (call, env) := calls[..|calls| - 1], calls[|calls| - 1];
     && ScansOk(c, before, user)
     && (call.user == user ==> ScanOk(c, StateAfter(c, before), call, env)))
  }

  /** Position by position, the replies to the user's calls are the same. */
  predicate SameReplies(calls: Calls, replies: seq<Reply>, replies': seq<Reply>, user: string) {
    && |replies| == |calls| == |replies'|
    && forall i :: 0 <= i < |calls| && calls[i].0.user == user ==> replies[i] == replies'[i]
  }

  lemma OneMoreReply(calls: Calls, replies: seq<Reply>, replies': seq<Reply>, last: (Call, Env),
                     reply: Reply, reply': Reply, user: string)
    requires SameReplies(calls, replies, replies', user) && (last.0.user == user ==> reply == reply')
    ensures SameReplies(calls + [last], replies + [reply], replies' + [reply'], user)
  {
  }

  lemma CallElsewhere(c: Suite, s: State, a: Plain, call: Call, env: Env, env': Env, user: string)
    requires Simulates(c, s, a, user) && call.user != user
    ensures Simulates(c, Next(c, s, call, env).state, PlainNext(a, call, env').1, user)
  {
    hide WellKeyed;
    hide OthersSame;
    hide Fresh;
    hide Represents;
    hide Next;
    hide PlainNext;
    CallKeeps(c, s, call, env);
    PlainTouchesOne(a, call, env', user);
    OtherAccountChanged(c, s.t, Next(c, s, call, env).state.t, a, PlainNext(a, call, env').1, call.user, user);
  }

  lemma OneMoreSimulates(c: Suite, s: State, a: Plain, call: Call, env: Env, user: string)
    requires Ideal(c) && Simulates(c, s, a, user) && (call.user == user ==> ScanOk(c, s, call, env))
    ensures var o := Next(c, s, call, env);
      var (reply, a') := PlainNext(a, call, AsSeen(s, call, env));
      Simulates(c, o.state, a', user) && (call.user == user ==> o.reply == reply)
  {
    hide Simulates;
    hide Next;
    hide PlainNext;
    hide AsSeen;
    hide ScanOk;
    if call.user == user {
      CallSimulates(c, s, a, call, env);
    } else {
      CallElsewhere(c, s, a, call, env, AsSeen(s, call, env), user);
    }
  }

  /**
   For every run and every user all of whose committed rotations were delivered every row: the user's
   calls are answered as by the plain map, whatever failed in any call and whatever befell other users.
   */
  lemma {:induction false} UserRefines(c: Suite, calls: Calls, user: string)
    requires Ideal(c) && ScansOk(c, calls, user)
    ensures Simulates(c, StateAfter(c, calls), PlainAfter(c, calls), user)
    ensures SameReplies(calls, Run(c, START, calls).0, PlainRun(map[], Seen(c, calls)).0, user)
  {
    if calls == [] {
      StartSimulates(c, user);
    } else {
      hide Simulates;
      hide Next;
      hide PlainNext;
      hide AsSeen;
      hide ScanOk;
      hide PlainAfter;
      hide PlainRun;
      hide Run;
      hide StateAfter;
      hide Seen;
      hide SameReplies;
      var before := calls[..|calls| - 1];
      var (call, env) := calls[|calls| - 1];
      assert calls == before + [(call, env)];
      UserRefines(c, before, user);
      OneMoreCall(c, before, call, env);
      OneMorePlain(c, before, call, env);
      var s, a := StateAfter(c, before), PlainAfter(c, before);
      OneMoreSimulates(c, s, a, call, env, user);
      OneMoreReply(before, Run(c, START, before).0, PlainRun(map[], Seen(c, before)).0, (call, env),
                   Next(c, s, call, env).reply, PlainNext(a, call, AsSeen(s, call, env)).0, user);
    }
  }

  lemma StartSimulates(c: Suite, user: string)
    ensures Simulates(c, StateAfter(c, []), PlainAfter(c, []), user)
  {
  }

  /** When that holds for every user, all replies are those of the plain map. */
  lemma RunRefines(c: Suite, calls: Calls)
    requires Ideal(c) && forall user :: ScansOk(c, calls, user)
    ensures Run(c, START, calls).0 == PlainRun(map[], Seen(c, calls)).0
    ensures forall user :: Simulates(c, StateAfter(c, calls), PlainAfter(c, calls), user)
  {
    hide ScansOk;
    hide Simulates;
    hide Run;
    hide PlainRun;
    hide Seen;
    forall user
      ensures SameReplies(calls, Run(c, START, calls).0, PlainRun(map[], Seen(c, calls)).0, user)
      ensures Simulates(c, StateAfter(c, calls), PlainAfter(c, calls), user)
    {
      UserRefines(c, calls, user);
    }
    var replies, replies' := Run(c, START, calls).0, PlainRun(map[], Seen(c, calls)).0;
    assert SameReplies(calls, replies, replies', "");
    forall i | 0 <= i < |calls| ensures replies[i] == replies'[i] {
      assert SameReplies(calls, replies, replies', calls[i].0.user);
    }
  }

  // ---- a stored secret survives everything but its own deletion ----

  /** Neither the secret nor its user is deleted. */
  predicate Spares(calls: Calls, user: string, name: string) {
    forall i :: 0 <= i < |calls| ==> SparesOne(calls[i].0, user, name)
  }

  predicate SparesOne(call: Call, user: string, name: string) {
    !(call.user == user && (call.RemoveAccount? || (call.Delete? && call.name == name)))
  }

  predicate HasEntry(a: Plain, user: string, name: string, priv: Bytes, pub: Bytes, description: string) {
    && user in a && a[user].key.Some? && name in a[user].secrets
    && a[user].secrets[name].priv == priv && a[user].secrets[name].pub == pub
    && a[user].secrets[name].description == description
  }

  lemma PlainSpares(a: Plain, call: Call, env: Env, user: string, name: string, priv: Bytes, pub: Bytes,
                    description: string)
    requires HasEntry(a, user, name, priv, pub, description) && SparesOne(call, user, name)
    ensures HasEntry(PlainNext(a, call, env).1, user, name, priv, pub, description)
  {
    hide Format;
    hide RotateFails;
    hide ChangeFails;
    hide PlainItems;
  }

  lemma {:induction false} EntryStays(c: Suite, early: Calls, between: Calls, store: Call)
    requires store.Store? && Spares(between, store.user, store.name)
    requires HasEntry(PlainAfter(c, early), store.user, store.name, store.priv, store.pub, store.description)
    ensures HasEntry(PlainAfter(c, early + between), store.user, store.name, store.priv, store.pub, store.description)
  {
    if between == [] {
      assert early + between == early;
    } else {
      hide HasEntry;
      hide PlainNext;
      hide AsSeen;
      hide PlainAfter;
      hide SparesOne;
      var n := |between| - 1;
      EntryStays(c, early, between[..n], store);
      var calls := early + between[..n];
      var (call, env) := between[n];
      assert early + between == calls + [(call, env)];
      OneMorePlain(c, calls, call, env);
      PlainSpares(PlainAfter(c, calls), call, AsSeen(StateAfter(c, calls), call, env),
                  store.user, store.name, store.priv, store.pub, store.description);
    }
  }

  /** No step of a get fails, the key is in date and the caller's buffer is large enough. */
  predicate Smooth(ages: map<string, Age>, get: Call, env: Env, priv: Bytes)
    requires get.Get?
  {
    && !env.fails(FindUser) && !env.fails(FindKek) && !env.fails(FindSecret) && !env.fails(Allocate)
    && !env.fails(DeriveOnMiss) && !env.fails(UnwrapKek) && !env.fails(OpenSecret)
    && (get.user in ages ==> env.now < ages[get.user].since + KEK_LIFETIME)
    && |priv| <= get.privCap
  }

  lemma StorePuts(a: Plain, call: Call, env: Env)
    requires call.Store? && PlainNext(a, call, env).0 == Done(Ok)
    ensures HasEntry(PlainNext(a, call, env).1, call.user, call.name, call.priv, call.pub, call.description)
  {
    hide Format;
  }

  /** The deadline of the plain map is the one that the ages give. */
  lemma DeadlineIsAge(c: Suite, s: State, a: Plain, ages: map<string, Age>, user: string)
    requires Simulates(c, s, a, user) && Aged(s.t, ages) && user in a && a[user].key.Some?
    ensures user in ages && a[user].key.value.deadline == ages[user].since + KEK_LIFETIME
  {
    hide WellKeyed;
    hide Fresh;
    hide Parse;
    hide RepSecrets;
    hide IsPasswordOf;
    assert ViewOf(s.t, user) == ViewOfAge(ages, user);
  }

  lemma GetDelivers(a: Plain, get: Call, env: Env, store: Call)
    requires get.Get? && store.Store? && get.user == store.user && get.name == store.name
    requires HasEntry(a, store.user, store.name, store.priv, store.pub, store.description)
    ensures var reply := PlainNext(a, get, env).0;
      && (reply.Got? && reply.priv.Some? ==> Delivers(reply, store.priv, store.pub, get.pubCap))
      && (!env.fails(FindUser) && !env.fails(FindKek) && !env.fails(FindSecret) && !env.fails(Allocate)
          && !env.fails(UnwrapKek) && !env.fails(OpenSecret)
          && env.now < a[get.user].key.value.deadline && |store.priv| <= get.privCap
          ==> Delivers(reply, store.priv, store.pub, get.pubCap))
  {
  }

  /**
   In any run, a secret whose store answered Ok is what every later get delivers, byte for byte,
   through any rotations, password changes, stores, deletes of other secrets, and failed steps.
   */
  lemma StoredSecretSurvives(c: Suite, before: Calls, store: (Call, Env), between: Calls, get: (Call, Env))
    requires Ideal(c) && store.0.Store? && get.0.Get?
    requires get.0.user == store.0.user && get.0.name == store.0.name
    requires Spares(between, store.0.user, store.0.name)
    requires ScansOk(c, before + [store] + between + [get], store.0.user)
    requires Last(Run(c, START, before + [store]).0) == Done(Ok)
    ensures var reply := Last(Run(c, START, before + [store] + between + [get]).0);
      && (reply.Got? && reply.priv.Some? ==> Delivers(reply, store.0.priv, store.0.pub, get.0.pubCap))
      && (Smooth(Ages(c, before + [store] + between), get.0, get.1, store.0.priv) ==>
            Delivers(reply, store.0.priv, store.0.pub, get.0.pubCap))
  {
    var all := before + [store] + between;
    var user := store.0.user;
    PrefixScansOk(c, all, [get], user);
    EntryAfter(c, before, store, between);
    GetAfter(c, all, get, store.0);
  }

  lemma {:induction false} PrefixScansOk(c: Suite, calls: Calls, more: Calls, user: string)
    requires ScansOk(c, calls + more, user)
    ensures ScansOk(c, calls, user)
  {
    hide ScanOk;
    hide StateAfter;
    if more == [] {
      assert calls + more == calls;
    } else {
      assert (calls + more)[..|calls + more| - 1] == calls + more[..|more| - 1];
      PrefixScansOk(c, calls, more[..|more| - 1], user);
    }
  }

  lemma EntryAfter(c: Suite, before: Calls, store: (Call, Env), between: Calls)
    requires Ideal(c) && store.0.Store? && Spares(between, store.0.user, store.0.name)
    requires ScansOk(c, before + [store] + between, store.0.user)
    requires Last(Run(c, START, before + [store]).0) == Done(Ok)
    ensures HasEntry(PlainAfter(c, before + [store] + between), store.0.user, store.0.name, store.0.priv, store.0.pub,
                     store.0.description)
  {
    hide Next;
    hide PlainNext;
    hide AsSeen;
    hide HasEntry;
    hide Simulates;
    hide ScansOk;
    hide Run;
    hide StateAfter;
    hide PlainAfter;
    var (call, env) := store;
    PrefixScansOk(c, before + [store], between, call.user);
    PrefixScansOk(c, before, [store], call.user);
    UserRefines(c, before, call.user);
    UserRefines(c, before + [store], call.user);
    OneMoreCall(c, before, call, env);
    OneMorePlain(c, before, call, env);
    StorePuts(PlainAfter(c, before), call, AsSeen(StateAfter(c, before), call, env));
    EntryStays(c, before + [store], between, call);
  }

  lemma GetAfter(c: Suite, all: Calls, get: (Call, Env), store: Call)
    requires Ideal(c) && get.0.Get? && store.Store? && get.0.user == store.user && get.0.name == store.name
    requires ScansOk(c, all + [get], store.user)
    requires HasEntry(PlainAfter(c, all), store.user, store.name, store.priv, store.pub, store.description)
    ensures var reply := Last(Run(c, START, all + [get]).0);
      && (reply.Got? && reply.priv.Some? ==> Delivers(reply, store.priv, store.pub, get.0.pubCap))
      && (Smooth(Ages(c, all), get.0, get.1, store.priv) ==> Delivers(reply, store.priv, store.pub, get.0.pubCap))
  {
    hide Next;
    hide PlainNext;
    hide AsSeen;
    hide Simulates;
    hide ScansOk;
    hide Run;
    hide StateAfter;
    hide PlainAfter;
    hide Aged;
    hide Ages;
    hide Delivers;
    var (call, env) := get;
    PrefixScansOk(c, all, [get], call.user);
    UserRefines(c, all, call.user);
    UserRefines(c, all + [get], call.user);
    OneMoreCall(c, all, call, env);
    OneMorePlain(c, all, call, env);
    SeenSteps(StateAfter(c, all), call, env);
    RunAged(c, all);
    DeadlineIsAge(c, StateAfter(c, all), PlainAfter(c, all), Ages(c, all), call.user);
    GetDelivers(PlainAfter(c, all), call, AsSeen(StateAfter(c, all), call, env), store);
  }

  // ---- what rotation and password change do not touch ----

  datatype Content = Content(priv: Bytes, pub: Bytes, description: string)

  function Contents(acc: Account): map<string, Content> {
    map n | n in acc.secrets :: Content(acc.secrets[n].priv, acc.secrets[n].pub, acc.secrets[n].description)
  }

  /** Rotation changes no password and no content; password change no content, deadline or version. */
  lemma RotationAndChangeKeepContents(a: Plain, call: Call, env: Env, u: string)
    requires (call.Rotate? || call.ChangePassword?) && u in a
    ensures var a' := PlainNext(a, call, env).1;
      && a'.Keys == a.Keys && Contents(a'[u]) == Contents(a[u])
      && (call.Rotate? ==> a'[u].password == a[u].password)
      && (call.ChangePassword? ==> a'[u].key == a[u].key)
  {
    hide RotateFails;
    hide ChangeFails;
    hide Format;
  }
}
