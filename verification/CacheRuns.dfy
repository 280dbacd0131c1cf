/**
 The cache of a handle in whole runs of calls: it goes through exactly the lookups, fills and
 invalidations that module Recency is about, so what is proved there holds of every handle.
 */
module CacheRuns {
  import opened Types
  import opened Crypto
  import opened Tables
  import opened KeyCache
  import opened Vault
  import opened Runs
  import Recency

  /** A store or get that gets as far as asking for the wrapping key. */
  predicate LooksUp(t: Tables, call: Call, env: Env) {
    && (call.Store? || call.Get?)
    && !env.fails(FindUser) && call.user in t.users
    && !env.fails(FindKek) && t.users[call.user].id in t.keks
    && !IsExpired(t.keks[t.users[call.user].id].expiresAt, env.now) && !env.fails(Allocate)
    && if call.Store? then call.priv != []
       else !env.fails(FindSecret) && SecretKey(t.users[call.user].id, call.name) in t.secrets
  }

  /** It obtains a key: the cached one, or a derived one. */
  predicate ObtainsKey(s: State, call: Call, env: Env) {
    LooksUp(s.t, call, env) &&
    (Resident(s.cache.entries, s.t.users[call.user].id) || !env.fails(DeriveOnMiss))
  }

  /** A committed password change or rotation. */
  predicate Invalidates(c: Suite, s: State, call: Call, env: Env) {
    (call.ChangePassword? || call.Rotate?) && Next(c, s, call, env).reply.status == Ok && call.user in s.t.users
  }

  /** What a call is to the cache. */
  function Touch(c: Suite, s: State, call: Call, env: Env): seq<Recency.Event> {
    if ObtainsKey(s, call, env) then
      var row := s.t.users[call.user];
      [Recency.Access(row.id, c.derive(row.hash, s.t.keks[row.id].salt), env.now)]
    else if Invalidates(c, s, call, env) then [Recency.Drop(s.t.users[call.user].id)]
    else []
  }

  function Touches(c: Suite, calls: Calls): seq<Recency.Event> {
    if calls == [] then []
    else
      var before := calls[..|calls| - 1];
      Touches(c, before) + Touch(c, StateAfter(c, before), calls[|calls| - 1].0, calls[|calls| - 1].1)
  }

  /** The lookups that missed and whose derivation then failed. */
  function InVain(c: Suite, calls: Calls): nat {
    if calls == [] then 0
    else
      var before, (call, env) := calls[..|calls| - 1], calls[|calls| - 1];
      var s := StateAfter(c, before);
      InVain(c, before) + if LooksUp(s.t, call, env) && !ObtainsKey(s, call, env) then 1 else 0
  }

  // ---- one call ----

  lemma ResidentIsFound(cache: Cache, id: nat, now: int)
    ensures Lookup(cache, id, now).0.Some? <==> Resident(cache.entries, id)
  {
    var i := Find(cache.entries, id, 0);
    if i < |cache.entries| { assert Matches(cache.entries[i], id); }
  }

  /** What a key request does to the cache. */
  lemma KeyRequest(c: Suite, cache: Cache, row: UserRow, kek: KekRow, env: Env)
    ensures var cache' := WrappingKey(c, cache, row, kek, env).1;
      if Resident(cache.entries, row.id) || !env.fails(DeriveOnMiss)
      then cache' == Recency.Apply(cache, Recency.Access(row.id, c.derive(row.hash, kek.salt), env.now))
      else cache' == cache.(misses := cache.misses + 1)
  {
    ResidentIsFound(cache, row.id, env.now);
    hide Insert;
    hide Resident;
  }

  lemma StoreTouches(c: Suite, s: State, call: Call, env: Env)
    requires call.Store?
    ensures Next(c, s, call, env).state.cache ==
            if LooksUp(s.t, call, env)
            then WrappingKey(c, s.cache, s.t.users[call.user], s.t.keks[s.t.users[call.user].id], env).1
            else s.cache
  {
    hide WrappingKey;
    hide IsExpired;
    hide InsertSecret;
    hide Calendar.Format;
  }

  lemma GetTouches(c: Suite, s: State, call: Call, env: Env)
    requires call.Get?
    ensures Next(c, s, call, env).state.cache ==
            if LooksUp(s.t, call, env)
            then WrappingKey(c, s.cache, s.t.users[call.user], s.t.keks[s.t.users[call.user].id], env).1
            else s.cache
  {
    hide WrappingKey;
    hide IsExpired;
    hide Deliver;
  }

  lemma InvalidationTouches(c: Suite, s: State, call: Call, env: Env)
    requires call.ChangePassword? || call.Rotate?
    ensures Next(c, s, call, env).state.cache ==
            if Invalidates(c, s, call, env) then Invalidate(s.cache, s.t.users[call.user].id) else s.cache
  {
    hide ChangeTx;
    hide RotateTx;
    hide Invalidate;
  }

  lemma OthersTouchNothing(c: Suite, s: State, call: Call, env: Env)
    requires !call.Store? && !call.Get? && !call.ChangePassword? && !call.Rotate?
    ensures Next(c, s, call, env).state.cache == s.cache
  {
    hide IsExpired;
    hide Calendar.Format;
    hide Items;
    hide Rows;
    hide InsertUser;
    hide DeleteUser;
  }

  /** The cache after a call is the cache after its event, but for a miss that could not be filled. */
  lemma CallTouches(c: Suite, s: State, call: Call, env: Env)
    ensures var cache', touch := Next(c, s, call, env).state.cache, Touch(c, s, call, env);
      && |touch| <= 1
      && (touch != [] ==> cache' == Recency.Apply(s.cache, touch[0]))
      && (touch == [] ==> cache' == s.cache.(misses := s.cache.misses + if LooksUp(s.t, call, env) then 1 else 0))
  {
    hide Next;
    hide WrappingKey;
    hide Resident;
    hide IsExpired;
    hide Lookup;
    hide Insert;
    hide Invalidate;
    match call
    case Store(_, _, _, _, _) => StoreTouches(c, s, call, env); Requested(c, s, call, env);
    case Get(_, _, _, _) => GetTouches(c, s, call, env); Requested(c, s, call, env);
    case ChangePassword(_, _, _) => InvalidationTouches(c, s, call, env);
    case Rotate(_) => InvalidationTouches(c, s, call, env);
    case _ => OthersTouchNothing(c, s, call, env);
  }

  lemma Requested(c: Suite, s: State, call: Call, env: Env)
    ensures LooksUp(s.t, call, env) ==>
      var row := s.t.users[call.user];
      var kek := s.t.keks[row.id];
      var cache' := WrappingKey(c, s.cache, row, kek, env).1;
      if ObtainsKey(s, call, env)
      then cache' == Recency.Apply(s.cache, Recency.Access(row.id, c.derive(row.hash, kek.salt), env.now))
      else cache' == s.cache.(misses := s.cache.misses + 1)
  {
    hide Resident;
    hide WrappingKey;
    hide Recency.Apply;
    hide IsExpired;
    if LooksUp(s.t, call, env) {
      var row := s.t.users[call.user];
      KeyRequest(c, s.cache, row, s.t.keks[row.id], env);
    }
  }

  /** A lookup is a hit exactly when the user is resident, and a miss otherwise; other calls count nothing. */
  lemma HitExactly(c: Suite, s: State, call: Call, env: Env)
    ensures var cache' := Next(c, s, call, env).state.cache;
      var hit := LooksUp(s.t, call, env) && Resident(s.cache.entries, s.t.users[call.user].id);
      && cache'.hits == s.cache.hits + (if hit then 1 else 0)
      && cache'.misses == s.cache.misses + (if LooksUp(s.t, call, env) && !hit then 1 else 0)
  {
    CallTouches(c, s, call, env);
    hide Next;
    hide IsExpired;
    if LooksUp(s.t, call, env) { ResidentIsFound(s.cache, s.t.users[call.user].id, env.now); }
    hide Resident;
    hide Find;
    hide Victim;
  }

  /** A slot for the user: its own, a free one, or one that was not used in the future. */
  predicate HasSlot(entries: seq<CacheEntry>, id: nat, now: int) {
    exists i :: 0 <= i < |entries| && (Matches(entries[i], id) || !entries[i].valid || entries[i].lastUsed <= now)
  }

  lemma {:induction false} VictimFound(entries: seq<CacheEntry>, i: nat, best: int, oldest: int)
    requires i <= |entries| && -1 <= best < |entries|
    ensures Victim(entries, i, best, oldest) >= 0 <==>
            best >= 0 || exists j :: i <= j < |entries| && (!entries[j].valid || entries[j].lastUsed < oldest)
    decreases |entries| - i
  {
    if i < |entries| && entries[i].valid {
      if entries[i].lastUsed < oldest {
        VictimFound(entries, i + 1, i, entries[i].lastUsed);
      } else {
        VictimFound(entries, i + 1, best, oldest);
      }
    }
  }

  lemma AccessFills(cache: Cache, id: nat, key: Token, now: int)
    ensures Resident(Recency.Apply(cache, Recency.Access(id, key, now)).entries, id) <==>
            HasSlot(cache.entries, id, now)
  {
    var entries := cache.entries;
    var i, slot := Find(entries, id, 0), Victim(entries, 0, -1, now + 1);
    VictimFound(entries, 0, -1, now + 1);
    var after := Recency.Apply(cache, Recency.Access(id, key, now)).entries;
    if i < |entries| {
      assert Matches(entries[i], id) && Matches(after[i], id);
    } else if slot >= 0 {
      assert Matches(after[slot], id);
    }
  }

  /** A store or get that obtained a key leaves its user resident whenever there is a slot for it. */
  lemma KeyIsKept(c: Suite, s: State, call: Call, env: Env)
    requires ObtainsKey(s, call, env)
    ensures var id := s.t.users[call.user].id;
      Resident(Next(c, s, call, env).state.cache.entries, id) <==> HasSlot(s.cache.entries, id, env.now)
  {
    CallTouches(c, s, call, env);
    hide Next;
    hide IsExpired;
    hide Resident;
    var row := s.t.users[call.user];
    AccessFills(s.cache, row.id, c.derive(row.hash, s.t.keks[row.id].salt), env.now);
    hide Recency.Apply;
    hide HasSlot;
  }

  // ---- whole runs ----

  lemma MissesApart(cache: Cache, e: Recency.Event, k: nat)
    ensures Recency.Apply(cache.(misses := cache.misses + k), e) ==
            var after := Recency.Apply(cache, e); after.(misses := after.misses + k)
  {
  }

  lemma OneMoreTouch(cache: Cache, events: seq<Recency.Event>, touch: seq<Recency.Event>)
    requires |touch| <= 1
    ensures Recency.Run(cache, events + touch) ==
            if touch == [] then Recency.Run(cache, events) else Recency.Apply(Recency.Run(cache, events), touch[0])
  {
    if touch == [] {
      assert events + touch == events;
    } else {
      assert (events + touch)[..|events|] == events;
    }
  }

  /**
   After any run from an empty handle the cache is, counters included, the one that the run's accesses and
   invalidations leave, except that lookups in vain have been counted as misses too.
   */
  lemma {:induction false} CacheFollows(c: Suite, calls: Calls)
    ensures var after := Recency.Run(Empty(CAPACITY), Touches(c, calls));
      StateAfter(c, calls).cache == after.(misses := after.misses + InVain(c, calls))
  {
    if calls == [] {
    } else {
      hide Next;
      hide Touch;
      hide LooksUp;
      hide ObtainsKey;
      hide Recency.Apply;
      hide Recency.Run;
      var before := calls[..|calls| - 1];
      var (call, env) := calls[|calls| - 1];
      assert calls == before + [(call, env)];
      CacheFollows(c, before);
      OneMoreCall(c, before, call, env);
      CacheSteps(c, before, call, env);
    }
  }

  lemma LookupTouches(c: Suite, s: State, call: Call, env: Env)
    requires LooksUp(s.t, call, env)
    ensures Touch(c, s, call, env) != [] <==> ObtainsKey(s, call, env)
  {
    hide Next;
    hide Resident;
    hide IsExpired;
  }

  lemma CacheSteps(c: Suite, calls: Calls, call: Call, env: Env)
    requires var after := Recency.Run(Empty(CAPACITY), Touches(c, calls));
      StateAfter(c, calls).cache == after.(misses := after.misses + InVain(c, calls))
    ensures var s := StateAfter(c, calls);
      var after := Recency.Run(Empty(CAPACITY), Touches(c, calls) + Touch(c, s, call, env));
      var vain := if LooksUp(s.t, call, env) && !ObtainsKey(s, call, env) then 1 else 0;
      Next(c, s, call, env).state.cache == after.(misses := after.misses + InVain(c, calls) + vain)
  {
    var s, events := StateAfter(c, calls), Touches(c, calls);
    hide Next;
    hide Touch;
    CallTouches(c, s, call, env);
    if LooksUp(s.t, call, env) { LookupTouches(c, s, call, env); }
    var touch := Touch(c, s, call, env);
    hide Touches;
    hide InVain;
    hide StateAfter;
    hide LooksUp;
    hide ObtainsKey;
    OneMoreTouch(Empty(CAPACITY), events, touch);
    if touch != [] { MissesApart(Recency.Run(Empty(CAPACITY), events), touch[0], InVain(c, calls)); }
    hide Recency.Apply;
    hide Recency.Run;
  }

  /** The clock of the calls does not go back. */
  predicate Forward(calls: Calls) { forall i, j :: 0 <= i < j < |calls| ==> calls[i].1.now <= calls[j].1.now }

  predicate Strict(calls: Calls) { forall i, j :: 0 <= i < j < |calls| ==> calls[i].1.now < calls[j].1.now }

  lemma OneTouch(c: Suite, s: State, call: Call, env: Env)
    ensures var touch := Touch(c, s, call, env);
      |touch| <= 1 && forall e :: e in touch && e.Access? ==> e.now == env.now
  {
  }

  /** Every access has the time of a call. */
  lemma {:induction false} TouchTimes(c: Suite, calls: Calls, e: Recency.Event)
    requires e in Touches(c, calls) && e.Access?
    ensures exists i :: 0 <= i < |calls| && calls[i].1.now == e.now
  {
    var n := |calls| - 1;
    var before, last := calls[..n], calls[n];
    OneTouch(c, StateAfter(c, before), last.0, last.1);
    if e in Touches(c, before) {
      TouchTimes(c, before, e);
      var i :| 0 <= i < n && before[i].1.now == e.now;
      assert calls[i] == before[i];
    } else {
      assert e in Touch(c, StateAfter(c, before), last.0, last.1);
      hide Touch;
      assert calls[n].1.now == e.now;
    }
  }

  lemma EarlierTouches(c: Suite, calls: Calls)
    requires calls != []
    ensures var before, now := calls[..|calls| - 1], calls[|calls| - 1].1.now;
      && (Forward(calls) ==> Forward(before) && NoLater(Touches(c, before), now))
      && (Strict(calls) ==> Strict(before) && Earlier(Touches(c, before), now))
  {
    var n := |calls| - 1;
    var before := calls[..n];
    hide StateAfter;
    hide Touch;
    forall e | e in Touches(c, before) && e.Access?
      ensures Forward(calls) ==> e.now <= calls[n].1.now
      ensures Strict(calls) ==> e.now < calls[n].1.now
    {
      TouchTimes(c, before, e);
      var i :| 0 <= i < n && before[i].1.now == e.now;
      assert calls[i] == before[i];
    }
  }

  predicate NoLater(events: seq<Recency.Event>, now: int) { forall e :: e in events && e.Access? ==> e.now <= now }

  predicate Earlier(events: seq<Recency.Event>, now: int) { forall e :: e in events && e.Access? ==> e.now < now }

  /** Accesses follow each other as the calls do. */
  lemma {:induction false} TouchClock(c: Suite, calls: Calls)
    ensures Forward(calls) ==> Recency.ForwardClock(Touches(c, calls))
    ensures Strict(calls) ==> Recency.StrictClock(Touches(c, calls))
  {
    if calls == [] {
    } else {
      hide Touch;
      hide StateAfter;
      hide Forward;
      hide Strict;
      hide NoLater;
      hide Earlier;
      hide Recency.ForwardClock;
      hide Recency.StrictClock;
      var before, last := calls[..|calls| - 1], calls[|calls| - 1];
      TouchClock(c, before);
      OneTouch(c, StateAfter(c, before), last.0, last.1);
      EarlierTouches(c, calls);
      AppendClock(Touches(c, before), Touch(c, StateAfter(c, before), last.0, last.1), last.1.now);
    }
  }

  lemma AppendClock(events: seq<Recency.Event>, touch: seq<Recency.Event>, now: int)
    requires |touch| <= 1 && forall e :: e in touch && e.Access? ==> e.now == now
    ensures Recency.ForwardClock(events) && NoLater(events, now) ==>
              Recency.ForwardClock(events + touch)
    ensures Recency.StrictClock(events) && Earlier(events, now) ==>
              Recency.StrictClock(events + touch)
  {
    assert forall i :: 0 <= i < |events| ==> events[i] in events;
    assert forall i :: 0 <= i < |touch| ==> touch[i] in touch;
  }

  /**
   What the 256 slots hold after any run of calls whose clock never goes back: no user twice, no user that
   was invalidated since its last access, every other user that fewer than 256 have followed, and with a
   user everyone that came later. The valid entries reported are as many users, and no other slot has a key.
   */
  lemma HandleLru(c: Suite, calls: Calls)
    requires Forward(calls)
    ensures var entries, p := StateAfter(c, calls).cache.entries, Recency.History(Touches(c, calls));
      && |entries| == 256
      && Recency.NobodyTwice(entries)
      && (forall id :: Resident(entries, id) ==> Recency.Live(p, id))
      && (forall id :: Recency.Live(p, id) && |Recency.NotOlder(p.last, id)| < 256 ==> Resident(entries, id))
      && (forall u, v :: Resident(entries, u) && Recency.Live(p, v) && p.last[v] > p.last[u] ==> Resident(entries, v))
      && ValidCount(entries) == |Recency.Users(entries)|
      && (forall id :: id in Recency.Users(entries) <==> Resident(entries, id))
      && Recency.FreeSlotsErased(entries)
  {
    Recency.NoKeyLeftBehind(CAPACITY, Touches(c, calls));
    TouchClock(c, calls);
    CacheFollows(c, calls);
    hide Touches;
    hide StateAfter;
    hide InVain;
    Recency.LruGuarantee(CAPACITY, Touches(c, calls));
    Recency.RunTracks(CAPACITY, Touches(c, calls));
    var entries := StateAfter(c, calls).cache.entries;
    Recency.ValidCountsUsers(entries);
    forall id ensures id in Recency.Users(entries) <==> Resident(entries, id) {
      Recency.UsersAreResidents(entries, id);
    }
    hide Recency.Users;
    hide Recency.Run;
    hide Recency.History;
    hide Recency.Tracks;
    hide ValidCount;
  }

  /** With no two calls at the same time, exactly who is resident. */
  lemma HandleResidents(c: Suite, calls: Calls, id: nat)
    requires Strict(calls) && Recency.Live(Recency.History(Touches(c, calls)), id)
    ensures Resident(StateAfter(c, calls).cache.entries, id) <==> !Recency.Crowded(Touches(c, calls), id, 256)
  {
    TouchClock(c, calls);
    CacheFollows(c, calls);
    hide Touches;
    hide StateAfter;
    Recency.ResidentExactly(CAPACITY, Touches(c, calls), id);
  }

  /** In such a run a store or get that obtained a key always leaves its user resident. */
  lemma JustUsedIsResident(c: Suite, calls: Calls, call: Call, env: Env)
    requires Forward(calls + [(call, env)]) && ObtainsKey(StateAfter(c, calls), call, env)
    ensures Resident(StateAfter(c, calls + [(call, env)]).cache.entries, StateAfter(c, calls).t.users[call.user].id)
  {
    var s := StateAfter(c, calls);
    var id := s.t.users[call.user].id;
    var all := calls + [(call, env)];
    assert all[|calls|] == (call, env) && forall i :: 0 <= i < |calls| ==> calls[i] == all[i];
    NotUsedLater(c, calls, env.now);
    assert !s.cache.entries[0].valid || s.cache.entries[0].lastUsed <= env.now;
    KeyIsKept(c, s, call, env);
    hide ObtainsKey;
    hide StateAfter;
    hide Forward;
    OneMoreCall(c, calls, call, env);
  }

  lemma NotUsedLater(c: Suite, calls: Calls, now: Now)
    requires Forward(calls) && forall i :: 0 <= i < |calls| ==> calls[i].1.now <= now
    ensures var entries := StateAfter(c, calls).cache.entries;
      |entries| == 256 && forall i :: 0 <= i < |entries| && entries[i].valid ==> entries[i].lastUsed <= now
  {
    TouchClock(c, calls);
    CacheFollows(c, calls);
    hide StateAfter;
    hide Touches;
    hide InVain;
    hide Forward;
    var events := Touches(c, calls);
    Recency.RunTracks(CAPACITY, events);
    hide Recency.Run;
    hide Recency.History;
    var entries := StateAfter(c, calls).cache.entries;
    forall i | 0 <= i < |entries| && entries[i].valid ensures entries[i].lastUsed <= now {
      var k := Recency.LastHappened(events, entries[i].userId);
      TouchTimes(c, calls, events[k]);
    }
  }
}
