/**
 The cache of derived wrapping keys inside the handle: a fixed array of slots, searched by user
 id, filled on a miss, evicting the least recently used slot when none is free.
 */
module KeyCache {
  import opened Types
  import opened Crypto

  const CAPACITY: nat := 256  // SSM_CACHE_MAX

  datatype CacheEntry = CacheEntry(userId: nat, key: Token, lastUsed: int, valid: bool)

  datatype Cache = Cache(entries: seq<CacheEntry>, hits: nat, misses: nat)

  const ERASED := Raw(0)

  function Empty(capacity: nat): Cache {
    Cache(seq(capacity, i => CacheEntry(0, ERASED, 0, false)), 0, 0)
  }

  predicate Matches(e: CacheEntry, userId: nat) { e.valid && e.userId == userId }

  /** The first slot at or after `from` that holds the user's key, or the number of slots. */
  function Find(entries: seq<CacheEntry>, userId: nat, from: nat): (i: nat)
    requires from <= |entries|
    ensures from <= i <= |entries|
    ensures i < |entries| ==> Matches(entries[i], userId)
    ensures forall j :: from <= j < i ==> !Matches(entries[j], userId)
    decreases |entries| - from
  {
    if from == |entries| || Matches(entries[from], userId) then from else Find(entries, userId, from + 1)
  }

  /** cache_lookup: the key and the cache with that slot touched and the hit or miss counted. */
  function Lookup(c: Cache, userId: nat, now: int): (Option<Token>, Cache) {
    var i := Find(c.entries, userId, 0);
    if i < |c.entries| then
      (Some(c.entries[i].key),
       c.(entries := c.entries[i := c.entries[i].(lastUsed := now)], hits := c.hits + 1))
    else
      (None, c.(misses := c.misses + 1))
  }

  /** The slot cache_insert picks from slot i on, given the best one so far; -1 for none. */
  function Victim(entries: seq<CacheEntry>, i: nat, best: int, oldest: int): (slot: int)
    requires i <= |entries| && -1 <= best < |entries|
    ensures -1 <= slot < |entries|
    decreases |entries| - i
  {
    if i == |entries| then best
    else if !entries[i].valid then i
    else if entries[i].lastUsed < oldest then Victim(entries, i + 1, i, entries[i].lastUsed)
    else Victim(entries, i + 1, best, oldest)
  }

  /** cache_insert */
  function Insert(c: Cache, userId: nat, key: Token, now: int): Cache {
    var slot := Victim(c.entries, 0, -1, now + 1);
    if slot < 0 then c else c.(entries := c.entries[slot := CacheEntry(userId, key, now, true)])
  }

  function Erase(e: CacheEntry): CacheEntry { e.(key := ERASED, valid := false) }

  /** cache_invalidate */
  function Invalidate(c: Cache, userId: nat): Cache {
    c.(entries := seq(|c.entries|,
      i requires 0 <= i < |c.entries| => if Matches(c.entries[i], userId) then Erase(c.entries[i]) else c.entries[i]))
  }

  predicate Resident(entries: seq<CacheEntry>, userId: nat) {
    exists i :: 0 <= i < |entries| && Matches(entries[i], userId)
  }

  function ValidCount(entries: seq<CacheEntry>): nat {
    if entries == [] then 0
    else ValidCount(entries[..|entries| - 1]) + if entries[|entries| - 1].valid then 1 else 0
  }

  /** The array itself, updated in place. */
  class Slots {
    const slots: array<CacheEntry>
    var hits: nat
    var misses: nat

    constructor (capacity: nat)
      ensures Value() == Empty(capacity) && fresh(slots)
    {
      slots := new CacheEntry[capacity](_ => CacheEntry(0, ERASED, 0, false));
      hits, misses := 0, 0;
    }

    ghost function Value(): Cache
      reads this, slots
    {
      Cache(slots[..], hits, misses)
    }

    method CacheLookup(userId: nat, now: int) returns (key: Option<Token>)
      modifies this, slots
      ensures (key, Value()) == Lookup(old(Value()), userId, now)
    {
      for i := 0 to slots.Length
        invariant Value() == old(Value())
        invariant Find(old(slots[..]), userId, 0) == Find(old(slots[..]), userId, i)
      {
        if slots[i].valid && slots[i].userId == userId {
          key := Some(slots[i].key);
          slots[i] := slots[i].(lastUsed := now);
          hits := hits + 1;
          return;
        }
      }
      misses := misses + 1;
      return None;
    }

    method CacheInsert(userId: nat, key: Token, now: int)
      modifies this, slots
      ensures Value() == Insert(old(Value()), userId, key, now)
    {
      var slot := -1;
      var oldest := now + 1;
      var i := 0;
      while i < slots.Length
        invariant i <= slots.Length && -1 <= slot < slots.Length
        invariant Value() == old(Value())
        invariant Victim(old(slots[..]), 0, -1, now + 1) == Victim(old(slots[..]), i, slot, oldest)
      {
        if !slots[i].valid {
          slot := i;
          break;
        }
        if slots[i].lastUsed < oldest {
          oldest := slots[i].lastUsed;
          slot := i;
        }
        i := i + 1;
      }
      if slot < 0 {
        return;
      }
      slots[slot] := CacheEntry(userId, key, now, true);
    }

    method CacheInvalidate(userId: nat)
      modifies this, slots
      ensures Value() == Invalidate(old(Value()), userId)
    {
      for i := 0 to slots.Length
        invariant hits == old(hits) && misses == old(misses)
        invariant slots[..i] == Invalidate(old(Value()), userId).entries[..i]
        invariant slots[i..] == old(slots[..])[i..]
      {
        if slots[i].valid && slots[i].userId == userId {
          slots[i] := Erase(slots[i]);
        }
      }
    }

    /** ssm_cache_get_stats */
    method CacheStats() returns (total: nat, validEntries: nat, hitCount: nat, missCount: nat)
      ensures total == slots.Length && validEntries == ValidCount(slots[..])
      ensures hitCount == hits && missCount == misses
    {
      total, hitCount, missCount := slots.Length, hits, misses;
      validEntries := 0;
      for i := 0 to slots.Length
        invariant validEntries == ValidCount(slots[..i])
      {
        assert slots[..i + 1][..i] == slots[..i];
        if slots[i].valid { validEntries := validEntries + 1; }
      }
      assert slots[..slots.Length] == slots[..];
    }
  }
}

/** What the cache guarantees over whole runs, when the clock never goes back and when it strictly increases. */
module Recency {
  import opened Types
  import opened Crypto
  import opened KeyCache

  datatype Event = Access(userId: nat, key: Token, now: int) | Drop(userId: nat)

  /** A lookup that fills the cache on a miss, or an invalidation. */
  function Apply(c: Cache, e: Event): Cache {
    match e
    case Access(u, key, now) =>
      var (hit, c1) := Lookup(c, u, now);
      if hit.Some? then c1 else Insert(c1, u, key, now)
    case Drop(u) => Invalidate(c, u)
  }

  function Run(c: Cache, events: seq<Event>): Cache {
    if events == [] then c else Apply(Run(c, events[..|events| - 1]), events[|events| - 1])
  }

  /** Every user's last access, and the users invalidated since theirs. */
  datatype Past = Past(last: map<nat, int>, dropped: set<nat>)

  function Remember(p: Past, e: Event): Past {
    match e
    case Access(u, _, now) => Past(p.last[u := now], p.dropped - {u})
    case Drop(u) => p.(dropped := p.dropped + {u})
  }

  function History(events: seq<Event>): Past {
    if events == [] then Past(map[], {}) else Remember(History(events[..|events| - 1]), events[|events| - 1])
  }

  function Accesses(events: seq<Event>): nat {
    if events == [] then 0
    else Accesses(events[..|events| - 1]) + if events[|events| - 1].Access? then 1 else 0
  }

  predicate StrictClock(events: seq<Event>) {
    forall i, j :: 0 <= i < j < |events| && events[i].Access? && events[j].Access? ==> events[i].now < events[j].now
  }

  /** The clock counts seconds, so that several accesses may have the same time. */
  predicate ForwardClock(events: seq<Event>) {
    forall i, j :: 0 <= i < j < |events| && events[i].Access? && events[j].Access? ==> events[i].now <= events[j].now
  }

  predicate NoDrop(events: seq<Event>) { forall i :: 0 <= i < |events| ==> events[i].Access? }

  /** The users, invalidated or not, whose last access is later than u's. */
  function Newer(last: map<nat, int>, u: nat): set<nat>
    requires u in last
  {
    set v | v in last && last[v] > last[u]
  }

  /** The other users, invalidated or not, whose last access is not earlier than u's. */
  function NotOlder(last: map<nat, int>, u: nat): set<nat>
    requires u in last
  {
    set v | v in last && v != u && last[v] >= last[u]
  }

  predicate Live(p: Past, u: nat) { u in p.last && u !in p.dropped }

  /** No user has two valid slots. */
  predicate NobodyTwice(entries: seq<CacheEntry>) {
    forall i, j :: 0 <= i < j < |entries| && entries[i].valid && entries[j].valid ==>
      entries[i].userId != entries[j].userId
  }

  ghost predicate Tracks(entries: seq<CacheEntry>, p: Past) {
    // a valid slot holds a user accessed and not invalidated since, with its last access
    && (forall i :: 0 <= i < |entries| && entries[i].valid ==>
          Live(p, entries[i].userId) && p.last[entries[i].userId] == entries[i].lastUsed)
    && NobodyTwice(entries)
    // no resident is older than a user that was evicted, nor are at least |entries| users
    && (forall u :: Live(p, u) && !Resident(entries, u) ==>
          forall i :: 0 <= i < |entries| && entries[i].valid ==> entries[i].lastUsed >= p.last[u])
    && (forall u :: Live(p, u) && !Resident(entries, u) ==> |NotOlder(p.last, u)| >= |entries|)
  }

  /** No two users have their last access at the same time. */
  predicate Apart(p: Past) { forall u, v :: u in p.last && v in p.last && u != v ==> p.last[u] != p.last[v] }

  lemma NotOlderIsNewer(p: Past, u: nat)
    requires Apart(p) && u in p.last
    ensures NotOlder(p.last, u) == Newer(p.last, u)
  {
  }

  lemma NotOlderGrows(last: map<nat, int>, u: nat, now: int, v: nat)
    requires forall w :: w in last ==> last[w] <= now
    requires v in last && v != u
    ensures |NotOlder(last, v)| <= |NotOlder(last[u := now], v)|
  {
    SubsetSize(NotOlder(last, v), NotOlder(last[u := now], v));
  }

  lemma SubsetSize<T>(a: set<T>, b: set<T>)
    requires a <= b
    ensures |a| <= |b|
  {
    assert b == a + (b - a);
  }

  /** Victim picks the first free slot; with none free, a slot with the least lastUsed. */
  lemma {:induction false} VictimIsOldest(entries: seq<CacheEntry>, i: nat, best: int, oldest: int)
    requires i <= |entries| && -1 <= best < |entries|
    requires best >= 0 ==> entries[best].valid && entries[best].lastUsed == oldest
    requires forall j :: 0 <= j < i ==> entries[j].valid && oldest <= entries[j].lastUsed
    ensures var slot := Victim(entries, i, best, oldest);
      && (slot == -1 ==> best == -1 && forall j :: 0 <= j < |entries| ==>
          entries[j].valid && oldest <= entries[j].lastUsed)
      && (slot >= 0 && entries[slot].valid ==>
            forall j :: 0 <= j < |entries| ==> entries[j].valid && entries[slot].lastUsed <= entries[j].lastUsed)
    decreases |entries| - i
  {
    if i < |entries| && entries[i].valid {
      if entries[i].lastUsed < oldest {
        VictimIsOldest(entries, i + 1, i, entries[i].lastUsed);
      } else {
        VictimIsOldest(entries, i + 1, best, oldest);
      }
    }
  }

  /** |entries| distinct users fill |entries| valid slots. */
  lemma {:induction false} DistinctUsers(entries: seq<CacheEntry>, users: set<nat>)
    requires forall i :: 0 <= i < |entries| ==> entries[i].userId in users
    requires forall i, j :: 0 <= i < j < |entries| ==> entries[i].userId != entries[j].userId
    ensures |users| >= |entries|
  {
    if entries == [] {
    } else {
      var u := entries[|entries| - 1].userId;
      DistinctUsers(entries[..|entries| - 1], users - {u});
    }
  }

  /** Writing user u's entry over slot k, when nobody but u or the holder of k is affected. */
  lemma WriteTracks(was: seq<CacheEntry>, p: Past, k: nat, u: nat, key: Token, now: int)
    requires Tracks(was, p) && k < |was|
    requires forall w :: w in p.last ==> p.last[w] <= now
    requires Matches(was[k], u) || !Resident(was, u)
    requires was[k].valid && was[k].userId != u ==>
      forall j :: 0 <= j < |was| ==> was[j].valid && was[k].lastUsed <= was[j].lastUsed
    ensures Tracks(was[k := CacheEntry(u, key, now, true)], Past(p.last[u := now], p.dropped - {u}))
  {
    var entries, p' := was[k := CacheEntry(u, key, now, true)], Past(p.last[u := now], p.dropped - {u});
    assert Matches(entries[k], u);
    if was[k].valid && was[k].userId != u { Evicted(was, p, k, u, key, now); }
    assert forall i :: 0 <= i < |was| && i != k ==> !Matches(was[i], u);
    forall v | Live(p', v) && !Resident(entries, v)
      ensures |NotOlder(p'.last, v)| >= |entries|
      ensures forall i :: 0 <= i < |entries| && entries[i].valid ==> entries[i].lastUsed >= p'.last[v]
    {
      NotOlderGrows(p.last, u, now, v);
      assert forall i :: 0 <= i < |was| && i != k ==> !Matches(entries[i], v) && entries[i] == was[i];
    }
  }

  lemma AccessTracks(c: Cache, p: Past, u: nat, key: Token, now: int)
    requires Tracks(c.entries, p)
    requires forall w :: w in p.last ==> p.last[w] <= now
    ensures Tracks(Apply(c, Access(u, key, now)).entries, Remember(p, Access(u, key, now)))
  {
    var was := c.entries;
    var k := Find(was, u, 0);
    if k < |was| {
      WriteTracks(was, p, k, u, was[k].key, now);
    } else {
      assert !Resident(was, u);
      var slot := Victim(was, 0, -1, now + 1);
      VictimIsOldest(was, 0, -1, now + 1);
      assert forall j :: 0 <= j < |was| && was[j].valid ==> was[j].lastUsed <= now;
      if slot >= 0 { WriteTracks(was, p, slot, u, key, now); }
    }
  }

  /** The evicted user is not newer than any resident of the full cache. */
  lemma Evicted(was: seq<CacheEntry>, p: Past, slot: nat, u: nat, key: Token, now: int)
    requires Tracks(was, p) && slot < |was| && !Resident(was, u)
    requires forall w :: w in p.last ==> p.last[w] <= now
    requires forall j :: 0 <= j < |was| ==> was[j].valid && was[slot].lastUsed <= was[j].lastUsed
    ensures var entries, p' := was[slot := CacheEntry(u, key, now, true)], Past(p.last[u := now], p.dropped - {u});
      var v := was[slot].userId;
      && v != u && !Resident(entries, v) && v in p'.last
      && (forall i :: 0 <= i < |entries| ==> entries[i].lastUsed >= p'.last[v])
      && |NotOlder(p'.last, v)| >= |entries|
  {
    var entries, p' := was[slot := CacheEntry(u, key, now, true)], Past(p.last[u := now], p.dropped - {u});
    var v := was[slot].userId;
    assert Matches(was[slot], v);
    assert forall j :: 0 <= j < |was| ==> Matches(was[j], was[j].userId);
    assert forall i :: 0 <= i < |entries| && i != slot ==> was[i].userId != v && was[i].userId != u;
    DistinctUsers(entries, NotOlder(p'.last, v));
  }

  /** Wiping user u's slots, whatever the other slots hold. */
  lemma WipedTracks(was: seq<CacheEntry>, entries: seq<CacheEntry>, p: Past, u: nat)
    requires Tracks(was, p) && |entries| == |was|
    requires forall i :: 0 <= i < |was| ==> entries[i] == if Matches(was[i], u) then Erase(was[i]) else was[i]
    ensures Tracks(entries, p.(dropped := p.dropped + {u}))
  {
    assert forall i :: 0 <= i < |was| && entries[i].valid ==> entries[i] == was[i] && was[i].userId != u;
    forall v | v != u && Resident(was, v)
      ensures Resident(entries, v)
    {
      var i :| 0 <= i < |was| && Matches(was[i], v);
      assert Matches(entries[i], v);
    }
  }

  lemma DropTracks(c: Cache, p: Past, u: nat)
    requires Tracks(c.entries, p)
    ensures Tracks(Apply(c, Drop(u)).entries, Remember(p, Drop(u)))
  {
    hide Tracks;
    WipedTracks(c.entries, Apply(c, Drop(u)).entries, p, u);
  }

  /** A user's last access is one of the accesses of the run. */
  lemma {:induction false} LastHappened(events: seq<Event>, u: nat) returns (i: nat)
    requires u in History(events).last
    ensures i < |events| && events[i].Access? && events[i].now == History(events).last[u]
  {
    var n := |events| - 1;
    if events[n].Access? && events[n].userId == u {
      i := n;
    } else {
      i := LastHappened(events[..n], u);
    }
  }

  lemma {:induction false} RunTracks(capacity: nat, events: seq<Event>)
    requires ForwardClock(events)
    ensures Tracks(Run(Empty(capacity), events).entries, History(events))
    ensures |Run(Empty(capacity), events).entries| == capacity
  {
    if events == [] {
    } else {
      hide Tracks;
      var n := |events| - 1;
      var before, e := events[..n], events[n];
      RunTracks(capacity, before);
      var c, p := Run(Empty(capacity), before), History(before);
      if e.Access? {
        forall w | w in p.last ensures p.last[w] <= e.now {
          var i := LastHappened(before, w);
          assert events[i] == before[i];
        }
        AccessTracks(c, p, e.userId, e.key, e.now);
      } else {
        DropTracks(c, p, e.userId);
      }
    }
  }

  /**
   After any run under a clock that does not go back: no user has two valid slots; a resident user was
   not invalidated since its last access; every user that fewer than `capacity` others
   (invalidated ones count) have followed is resident unless invalidated since; and what is resident is closed
   under recency, so evictions always remove the least recently used.
   */
  lemma LruGuarantee(capacity: nat, events: seq<Event>)
    requires ForwardClock(events)
    ensures var entries, p := Run(Empty(capacity), events).entries, History(events);
      && NobodyTwice(entries)
      && (forall u :: Resident(entries, u) ==> Live(p, u))
      && (forall u :: Live(p, u) && |NotOlder(p.last, u)| < capacity ==> Resident(entries, u))
      && (forall u, v :: Resident(entries, u) && Live(p, v) && p.last[v] > p.last[u] ==> Resident(entries, v))
  {
    RunTracks(capacity, events);
  }

  lemma StrictIsForward(events: seq<Event>)
    requires StrictClock(events)
    ensures ForwardClock(events)
  {
  }

  /** Under a strictly increasing clock the last accesses are apart. */
  lemma {:induction false} RunApart(events: seq<Event>)
    requires StrictClock(events)
    ensures Apart(History(events))
  {
    if events == [] {
    } else {
      var before, e := events[..|events| - 1], events[|events| - 1];
      RunApart(before);
      if e.Access? {
        forall w | w in History(before).last ensures History(before).last[w] < e.now {
          AccessIsNewest(events, |events| - 1, w);
        }
      }
    }
  }

  // ---- exactly when a user is resident ----

  /** The users accessed later than u and not invalidated since their last access. */
  function LiveNewer(p: Past, u: nat): set<nat>
    requires u in p.last
  {
    set v | v in p.last && p.last[v] > p.last[u] && v !in p.dropped
  }

  /** After n events u had its present last access, and `capacity` live users had a later one. */
  predicate CrowdedAt(events: seq<Event>, n: nat, u: nat, capacity: nat)
    requires n <= |events|
  {
    var p, q := History(events[..n]), History(events);
    u in p.last && u in q.last && p.last[u] == q.last[u] && |LiveNewer(p, u)| >= capacity
  }

  /** At some time since u's last access, `capacity` or more live users had a later access. */
  predicate Crowded(events: seq<Event>, u: nat, capacity: nat) {
    exists n :: 0 <= n <= |events| && CrowdedAt(events, n, u, capacity)
  }

  lemma SameMoment(events: seq<Event>, n: nat, u: nat, capacity: nat)
    requires n < |events| && u in History(events[..|events| - 1]).last && u in History(events).last
    requires History(events[..|events| - 1]).last[u] == History(events).last[u]
    ensures CrowdedAt(events[..|events| - 1], n, u, capacity) <==> CrowdedAt(events, n, u, capacity)
  {
    hide History;
    hide LiveNewer;
    assert events[..|events| - 1][..n] == events[..n];
  }

  lemma CrowdedEarlier(events: seq<Event>, u: nat, capacity: nat)
    requires events != [] && u in History(events[..|events| - 1]).last && u in History(events).last
    requires History(events[..|events| - 1]).last[u] == History(events).last[u]
    ensures Crowded(events, u, capacity) <==>
            Crowded(events[..|events| - 1], u, capacity) || |LiveNewer(History(events), u)| >= capacity
  {
    hide CrowdedAt;
    hide History;
    hide LiveNewer;
    CrowdedNow(events, u, capacity);
    var before := events[..|events| - 1];
    forall n: nat | n < |events| ensures CrowdedAt(before, n, u, capacity) <==> CrowdedAt(events, n, u, capacity) {
      SameMoment(events, n, u, capacity);
    }
  }

  lemma CrowdedNow(events: seq<Event>, u: nat, capacity: nat)
    requires u in History(events).last
    ensures CrowdedAt(events, |events|, u, capacity) <==> |LiveNewer(History(events), u)| >= capacity
  {
    assert events[..|events|] == events;
  }

  /** Under a strictly increasing clock nothing recorded before an access has its time. */
  lemma AccessIsNewest(events: seq<Event>, n: nat, u: nat)
    requires StrictClock(events) && n < |events| && events[|events| - 1].Access? && u in History(events[..n]).last
    ensures History(events[..n]).last[u] < events[|events| - 1].now
  {
    var early := events[..n];
    var i := LastHappened(early, u);
    assert early[i] == events[i];
  }

  lemma DropKeeps(c: Cache, w: nat, u: nat)
    ensures u != w && Resident(c.entries, u) ==> Resident(Apply(c, Drop(w)).entries, u)
  {
    var entries := Apply(c, Drop(w)).entries;
    assert forall i :: 0 <= i < |c.entries| && Matches(c.entries[i], u) && u != w ==> Matches(entries[i], u);
  }

  /** An access evicts a resident user only when every slot is valid, and then puts a newer user in its place. */
  lemma EvictionFull(c: Cache, u: nat, e: Event)
    requires e.Access? && e.userId != u && Resident(c.entries, u) && !Resident(Apply(c, e).entries, u)
    ensures var entries := Apply(c, e).entries;
      |entries| == |c.entries| && forall i :: 0 <= i < |entries| ==> entries[i].valid
  {
    var was := c.entries;
    var j :| 0 <= j < |was| && Matches(was[j], u);
    VictimIsOldest(was, 0, -1, e.now + 1);
    assert !Matches(Apply(c, e).entries[j], u);
  }

  lemma EvictionCrowds(c: Cache, p: Past, u: nat, e: Event)
    requires Tracks(Apply(c, e).entries, Remember(p, e)) && Live(Remember(p, e), u) && Apart(Remember(p, e))
    requires Resident(c.entries, u) && !Resident(Apply(c, e).entries, u) && !(e.Access? && e.userId == u)
    ensures |LiveNewer(Remember(p, e), u)| >= |c.entries|
  {
    if e.Drop? {
      DropKeeps(c, e.userId, u);
    } else {
      var entries, p' := Apply(c, e).entries, Remember(p, e);
      EvictionFull(c, u, e);
      hide Apply;
      forall i | 0 <= i < |entries| ensures entries[i].userId in LiveNewer(p', u) {
        assert entries[i].valid && Live(p', entries[i].userId);
      }
      DistinctUsers(entries, LiveNewer(p', u));
    }
  }

  /** What is resident is closed under recency. */
  lemma NewerIsResident(entries: seq<CacheEntry>, p: Past, u: nat, v: nat)
    requires Tracks(entries, p) && Resident(entries, u) && Live(p, v) && p.last[v] > p.last[u]
    ensures Resident(entries, v)
  {
  }

  lemma ResidentNotCrowded(entries: seq<CacheEntry>, p: Past, u: nat)
    requires Tracks(entries, p) && Live(p, u) && Resident(entries, u)
    ensures |LiveNewer(p, u)| < |entries|
  {
    var users := LiveNewer(p, u) + {u};
    forall v | v in LiveNewer(p, u) ensures Resident(entries, v) {
      NewerIsResident(entries, p, u, v);
    }
    hide Resident;
    FewResidents(entries, users);
  }

  lemma NotResidentBefore(c: Cache, e: Event, u: nat)
    requires !Resident(c.entries, u) && !(e.Access? && e.userId == u)
    ensures !Resident(Apply(c, e).entries, u)
  {
    var entries := Apply(c, e).entries;
    forall i | 0 <= i < |entries| ensures !Matches(entries[i], u) {
      assert i < |c.entries| && !Matches(c.entries[i], u);
    }
  }

  /**
   The exact condition, for every run with invalidations: a user that was not invalidated since its last
   access is resident if and only if at no time since then `capacity` or more live users had a later one.
   */
  lemma {:induction false} ResidentExactly(capacity: nat, events: seq<Event>, u: nat)
    requires StrictClock(events) && Live(History(events), u)
    ensures Resident(Run(Empty(capacity), events).entries, u) <==> !Crowded(events, u, capacity)
  {
    if events == [] {
    } else {
      var before, e := events[..|events| - 1], events[|events| - 1];
      var c, p := Run(Empty(capacity), before), History(before);
      var c', p' := Run(Empty(capacity), events), History(events);
      assert StrictClock(before);
      RunTracks(capacity, before);
      StrictIsForward(events);
    RunTracks(capacity, events);
      RunApart(events);
      hide Tracks;
      hide Apart;
      if e.Access? && e.userId == u {
        JustAccessed(capacity, events, u);
      } else {
        ResidentExactly(capacity, before, u);
        CrowdedEarlier(events, u, capacity);
        hide Crowded;
        if !Resident(c.entries, u) {
          NotResidentBefore(c, e, u);
        } else if Resident(c'.entries, u) {
          ResidentNotCrowded(c'.entries, p', u);
        } else {
          EvictionCrowds(c, p, u, e);
        }
      }
    }
  }

  lemma NobodyNewer(capacity: nat, events: seq<Event>, u: nat)
    requires StrictClock(events) && events != []
    requires events[|events| - 1].Access? && events[|events| - 1].userId == u
    ensures var p := History(events); u in p.last && Newer(p.last, u) == {} && LiveNewer(p, u) == {}
  {
    var before := events[..|events| - 1];
    forall v | v in History(before).last ensures History(before).last[v] < events[|events| - 1].now {
      AccessIsNewest(events, |events| - 1, v);
    }
  }

  lemma NotCrowdedBefore(capacity: nat, events: seq<Event>, u: nat, n: nat)
    requires StrictClock(events) && n < |events|
    requires events[|events| - 1].Access? && events[|events| - 1].userId == u
    ensures !CrowdedAt(events, n, u, capacity)
  {
    if u in History(events[..n]).last { AccessIsNewest(events, n, u); }
    hide LiveNewer;
  }

  lemma JustAccessed(capacity: nat, events: seq<Event>, u: nat)
    requires StrictClock(events) && events != []
    requires events[|events| - 1].Access? && events[|events| - 1].userId == u
    ensures Resident(Run(Empty(capacity), events).entries, u) <==> !Crowded(events, u, capacity)
  {
    NobodyNewer(capacity, events, u);
    RunApart(events);
    NotOlderIsNewer(History(events), u);
    hide NotOlder;
    hide Apart;
    StrictIsForward(events);
    RunTracks(capacity, events);
    forall n | 0 <= n < |events| ensures !CrowdedAt(events, n, u, capacity) {
      NotCrowdedBefore(capacity, events, u, n);
    }
    assert CrowdedAt(events, |events|, u, capacity) <==> capacity == 0 by { assert events[..|events|] == events; }
    assert Live(History(events), u);
    hide History;
    hide CrowdedAt;
    hide Run;
    hide Newer;
  }

  /** In a run without invalidations the residents are exactly the `capacity` most recent users. */
  lemma LruExact(capacity: nat, events: seq<Event>, u: nat)
    requires StrictClock(events) && NoDrop(events)
    requires u in History(events).last
    ensures Resident(Run(Empty(capacity), events).entries, u) <==> |Newer(History(events).last, u)| < capacity
  {
    StrictIsForward(events);
    RunTracks(capacity, events);
    NothingDropped(events);
    RunApart(events);
    NotOlderIsNewer(History(events), u);
    var entries, p := Run(Empty(capacity), events).entries, History(events);
    if Resident(entries, u) {
      var users := Newer(p.last, u) + {u};
      forall v | v in users ensures Resident(entries, v) {
        if v != u { assert Live(p, v); }
      }
      FewResidents(entries, users);
    } else {
      assert Live(p, u);
    }
  }

  lemma {:induction false} NothingDropped(events: seq<Event>)
    requires NoDrop(events)
    ensures History(events).dropped == {}
  {
    if events == [] {
    } else {
      NothingDropped(events[..|events| - 1]);
    }
  }

  /** No more than |entries| users can be resident. */
  lemma {:induction false} FewResidents(entries: seq<CacheEntry>, users: set<nat>)
    requires forall v :: v in users ==> Resident(entries, v)
    ensures |users| <= |entries|
  {
    if entries == [] {
      if u :| u in users { assert Resident(entries, u); }
    } else {
      var rest := entries[..|entries| - 1];
      var u := entries[|entries| - 1].userId;
      forall v | v in users - {u} ensures Resident(rest, v) {
        var i :| 0 <= i < |entries| && Matches(entries[i], v);
        assert Matches(rest[i], v);
      }
      FewResidents(rest, users - {u});
      SubsetSize(users, (users - {u}) + {u});
    }
  }

  /** A slot that holds nobody's key holds no key at all. */
  ghost predicate FreeSlotsErased(entries: seq<CacheEntry>) {
    forall i :: 0 <= i < |entries| && !entries[i].valid ==> entries[i].key == Raw(0)
  }

  /** Keys are erased when their slot is freed, so that a free slot never keeps one. */
  lemma {:induction false} NoKeyLeftBehind(capacity: nat, events: seq<Event>)
    ensures FreeSlotsErased(Run(Empty(capacity), events).entries)
  {
    if events == [] {
    } else {
      NoKeyLeftBehind(capacity, events[..|events| - 1]);
    }
  }

  function Users(entries: seq<CacheEntry>): set<nat> {
    set i | 0 <= i < |entries| && entries[i].valid :: entries[i].userId
  }

  lemma UsersAreResidents(entries: seq<CacheEntry>, u: nat)
    ensures u in Users(entries) <==> Resident(entries, u)
  {
    if u in Users(entries) {
      var i :| 0 <= i < |entries| && entries[i].valid && entries[i].userId == u;
      assert Matches(entries[i], u);
    }
  }

  lemma UsersSnoc(rest: seq<CacheEntry>, e: CacheEntry)
    requires NobodyTwice(rest + [e])
    ensures NobodyTwice(rest)
    ensures Users(rest + [e]) == if e.valid then Users(rest) + {e.userId} else Users(rest)
    ensures e.valid ==> e.userId !in Users(rest)
  {
    var entries := rest + [e];
    assert entries[|rest|] == e && forall i :: 0 <= i < |rest| ==> entries[i] == rest[i];
  }

  /** The valid entries that the statistics report are as many users with a key. */
  lemma {:induction false} ValidCountsUsers(entries: seq<CacheEntry>)
    requires NobodyTwice(entries)
    ensures ValidCount(entries) == |Users(entries)|
  {
    if entries == [] {
    } else {
      var rest, e := entries[..|entries| - 1], entries[|entries| - 1];
      assert entries == rest + [e];
      UsersSnoc(rest, e);
      hide Users;
      hide NobodyTwice;
      ValidCountsUsers(rest);
    }
  }

  /** Every lookup is counted once, as a hit or as a miss. */
  lemma {:induction false} HitsPlusMisses(capacity: nat, events: seq<Event>)
    ensures var c := Run(Empty(capacity), events); c.hits + c.misses == Accesses(events)
  {
    if events == [] {
    } else {
      HitsPlusMisses(capacity, events[..|events| - 1]);
    }
  }

  /** Users 0, 1, .., n accessed once each, in that order. */
  function Parade(n: nat): (events: seq<Event>)
    ensures StrictClock(events) && NoDrop(events)
  {
    seq(n + 1, i requires 0 <= i => Access(i, ERASED, i))
  }

  function TimesUpTo(n: nat): (last: map<nat, int>)
    ensures forall i: nat :: (i in last <==> i <= n) && (i in last ==> last[i] == i)
  {
    (if n == 0 then map[] else TimesUpTo(n - 1))[n := n]
  }

  function FirstUsers(n: nat): (s: set<nat>)
    ensures |s| == n
    ensures forall i: nat :: i in s <==> 1 <= i <= n
  {
    if n == 0 then {} else FirstUsers(n - 1) + {n}
  }

  lemma HistorySnoc(events: seq<Event>, e: Event)
    ensures History(events + [e]) == Remember(History(events), e)
    ensures forall c :: Run(c, events + [e]) == Apply(Run(c, events), e)
  {
  }

  lemma {:induction false} ParadeHistory(n: nat)
    ensures History(Parade(n)) == Past(TimesUpTo(n), {})
  {
    if n == 0 {
      HistorySnoc([], Access(0, ERASED, 0));
      assert Parade(0) == [] + [Access(0, ERASED, 0)];
    } else {
      ParadeHistory(n - 1);
      HistorySnoc(Parade(n - 1), Access(n, ERASED, n));
      assert Parade(n) == Parade(n - 1) + [Access(n, ERASED, n)];
    }
  }

  /** After the parade and the invalidation, seen from user 0. */
  lemma AfterParade(capacity: nat)
    requires capacity >= 1
    ensures Newer(TimesUpTo(capacity), 0) == FirstUsers(capacity)
    ensures LiveNewer(Past(TimesUpTo(capacity), {capacity}), 0) == FirstUsers(capacity - 1)
  {
  }

  lemma ParadeThenDrop(capacity: nat)
    ensures var events := Parade(capacity) + [Drop(capacity)];
      StrictClock(events) && History(events) == Past(TimesUpTo(capacity), {capacity})
  {
    HistorySnoc(Parade(capacity), Drop(capacity));
    ParadeHistory(capacity);
    hide History;
    hide TimesUpTo;
  }

  /**
   Counting only users not invalidated would be wrong: an invalidation frees a slot but brings no
   evicted user back. Here user 0 has only capacity - 1 live users after it, and is not resident.
   */
  lemma InvalidatedUsersMustCount(capacity: nat)
    requires capacity >= 1
    ensures var events := Parade(capacity) + [Drop(capacity)];
      var p := History(events);
      && StrictClock(events) && Live(p, 0) && |LiveNewer(p, 0)| == capacity - 1
      && !Resident(Run(Empty(capacity), events).entries, 0)
  {
    ParadeThenDrop(capacity);
    AfterParade(capacity);
    ParadeHistory(capacity);
    HistorySnoc(Parade(capacity), Drop(capacity));
    LruExact(capacity, Parade(capacity), 0);
    DropBringsNobodyBack(Run(Empty(capacity), Parade(capacity)), capacity, 0);
    hide History;
    hide Run;
    hide Parade;
    hide Newer;
    hide LiveNewer;
    hide Resident;
  }

  lemma DropBringsNobodyBack(c: Cache, u: nat, v: nat)
    requires !Resident(c.entries, v)
    ensures !Resident(Apply(c, Drop(u)).entries, v)
  {
  }
}
