/**
 Schema migrations over any contiguous chain. The database is its user_version, its indexes and the
 (user_id, name) pairs of the secrets table; a transaction is the snapshot that a rollback, or closing
 the connection, returns to.
 */
module Migrations {
  import opened Types

  datatype Index = Index(name: string, unique: bool)

  /** sql creates the index if it does not exist; rollback_sql, if there is one, drops it if it exists. */
  datatype Migration = Migration(from: int, to: int, index: Index, reversible: bool)

  type Row = (nat, string)

  datatype Schema = Schema(version: int, indexes: set<Index>, rows: seq<Row>)

  /** What the connection sees, and what a rollback would return to while a transaction is open. */
  datatype Conn = Conn(now: Schema, saved: Option<Schema>)

  datatype Step = ReadPrepare | ReadStep | Baseline | BeginTx(i: nat) | Body(i: nat) | Stamp(i: nat) | CommitTx(i: nat)

  // a failed COMMIT either leaves the transaction open or has rolled it back
  datatype Env = Env(fails: Step -> bool, commitFailureKeepsOpen: bool)

  const MIGRATIONS: seq<Migration> := [
    Migration(1, 2, Index("idx_secrets_user_id", false), true),
    Migration(2, 3, Index("idx_secrets_unique_name", true), true)]

  /** The version after the first k migrations; SSM_SCHEMA_VERSION is that of the whole chain. */
  function VersionAt(chain: seq<Migration>, k: nat): int
    requires k <= |chain|
  {
    if k == 0 then 1 else chain[k - 1].to
  }

  function Latest(chain: seq<Migration>): int { VersionAt(chain, |chain|) }

  /** Migration i starts from the version that the ones before it reach, and goes up. */
  predicate Link(chain: seq<Migration>, i: nat)
    requires i < |chain|
  {
    chain[i].from == VersionAt(chain, i) && chain[i].from < chain[i].to
  }

  /** Contiguous and ordered, starting from version 1, each migration with an index of its own. */
  ghost predicate Contiguous(chain: seq<Migration>) {
    && (forall i :: 0 <= i < |chain| ==> Link(chain, i))
    && (forall i, j :: 0 <= i < j < |chain| ==> chain[i].index != chain[j].index)
  }

  function IndexesAt(chain: seq<Migration>, k: nat): set<Index>
    requires k <= |chain|
  {
    if k == 0 then {} else IndexesAt(chain, k - 1) + {chain[k - 1].index}
  }

  predicate Duplicates(rows: seq<Row>) { exists i, j :: 0 <= i < j < |rows| && rows[i] == rows[j] }

  predicate HasUnique(indexes: set<Index>) { exists ix :: ix in indexes && ix.unique }

  // ---- statements ----

  /** CREATE [UNIQUE] INDEX IF NOT EXISTS */
  function CreateIndex(s: Schema, ix: Index): Option<Schema> {
    if ix in s.indexes then Some(s)
    else if ix.unique && Duplicates(s.rows) then None
    else Some(s.(indexes := s.indexes + {ix}))
  }

  function Undo(c: Conn): Conn
    requires c.saved.Some?
  {
    Conn(c.saved.value, None)
  }

  /** A transaction around one schema change and one PRAGMA user_version. */
  function Transact(c: Conn, i: nat, changed: Option<Schema>, version: int, env: Env): (bool, Conn) {
    if env.fails(BeginTx(i)) || c.saved.Some? then (false, c)
    else if env.fails(Body(i)) || changed.None? || env.fails(Stamp(i)) then (false, c)
    else
      var after := changed.value.(version := version);
      if env.fails(CommitTx(i)) then
        (false, if env.commitFailureKeepsOpen then Conn(after, Some(c.now)) else c)
      else (true, Conn(after, None))
  }

  // ---- db_migrate and db_rollback ----

  /** db_get_version: -1 if the statement cannot be prepared; a failed step reads as 0. */
  function GetVersion(c: Conn, env: Env): int {
    if env.fails(ReadPrepare) then -1 else if env.fails(ReadStep) then 0 else c.now.version
  }

  function Up(chain: seq<Migration>, i: nat, current: int, c: Conn, env: Env): (bool, Conn)
    requires i <= |chain|
    decreases |chain| - i
  {
    if i == |chain| then (current == Latest(chain), c)
    else if chain[i].from != current then Up(chain, i + 1, current, c, env)
    else
      var (ok, c') := Transact(c, i, CreateIndex(c.now, chain[i].index), chain[i].to, env);
      if !ok then (false, c') else Up(chain, i + 1, chain[i].to, c', env)
  }

  function Migrate(chain: seq<Migration>, c: Conn, env: Env): (bool, Conn) {
    var read := GetVersion(c, env);
    if read < 0 then (false, c)
    else if read == 0 && env.fails(Baseline) then (false, c)
    else
      var current := if read == 0 then 1 else read;
      var c1 := if read == 0 then c.(now := c.now.(version := 1)) else c;
      if current >= Latest(chain) then (true, c1) else Up(chain, 0, current, c1, env)
  }

  function Down(chain: seq<Migration>, i: nat, current: int, target: int, c: Conn, env: Env): (bool, Conn)
    requires i <= |chain|
    decreases i
  {
    if i == 0 then (false, c)
    else if chain[i - 1].to != current then Down(chain, i - 1, current, target, c, env)
    else if !chain[i - 1].reversible then (false, c)
    else
      var dropped := c.now.(indexes := c.now.indexes - {chain[i - 1].index});
      var (ok, c') := Transact(c, i - 1, Some(dropped), chain[i - 1].from, env);
      if !ok then (false, c')
      else if chain[i - 1].from == target then (true, c')
      else Down(chain, i - 1, chain[i - 1].from, target, c', env)
  }

  function Rollback(chain: seq<Migration>, c: Conn, target: int, env: Env): (bool, Conn) {
    var current := GetVersion(c, env);
    if current < 0 || current <= target then (false, c) else Down(chain, |chain|, current, target, c, env)
  }

  /** The connection itself, changed in place one statement at a time. */
  class SchemaDb {
    const chain: seq<Migration>
    var version: int
    var indexes: set<Index>
    var rows: seq<Row>
    var saved: Option<Schema>

    constructor (chain: seq<Migration>, version: int, indexes: set<Index>, rows: seq<Row>)
      ensures this.chain == chain && Value() == Conn(Schema(version, indexes, rows), None)
    {
      this.chain, this.version, this.indexes, this.rows, saved := chain, version, indexes, rows, None;
    }

    function Value(): Conn
      reads this
    {
      Conn(Schema(version, indexes, rows), saved)
    }

    method ReadVersion(env: Env) returns (v: int)
      ensures v == GetVersion(Value(), env)
    {
      if env.fails(ReadPrepare) { return -1; }
      v := 0;
      if !env.fails(ReadStep) { v := version; }
    }

    method RollbackTx()
      requires saved.Some?
      modifies this
      ensures Value() == Undo(old(Value()))
    {
      version, indexes, rows := saved.value.version, saved.value.indexes, saved.value.rows;
      saved := None;
    }

    /** COMMIT */
    method Commit(i: nat, env: Env) returns (ok: bool)
      requires saved.Some?
      modifies this
      ensures ok == !env.fails(CommitTx(i))
      ensures Value() == if ok then Conn(old(Value()).now, None)
                         else if env.commitFailureKeepsOpen then old(Value()) else Undo(old(Value()))
    {
      if env.fails(CommitTx(i)) {
        if !env.commitFailureKeepsOpen { RollbackTx(); }
        return false;
      }
      saved := None;
      return true;
    }

    method DbMigrate(env: Env) returns (ok: bool)
      modifies this
      ensures (ok, Value()) == Migrate(chain, old(Value()), env)
    {
      var current := ReadVersion(env);
      if current < 0 { return false; }
      if current == 0 {
        if env.fails(Baseline) { return false; }
        version := 1;
        current := 1;
      }
      if current >= Latest(chain) { return true; }
      ghost var start, first := Value(), current;
      for i := 0 to |chain|
        invariant Up(chain, 0, first, start, env) == Up(chain, i, current, Value(), env)
      {
        if chain[i].from != current { continue; }
        if env.fails(BeginTx(i)) || saved.Some? { return false; }
        saved := Some(Schema(version, indexes, rows));
        var ix := chain[i].index;
        if env.fails(Body(i)) || (ix !in indexes && ix.unique && Duplicates(rows)) {
          RollbackTx();
          return false;
        }
        assert ix in indexes ==> indexes + {ix} == indexes;
        indexes := indexes + {ix};
        if env.fails(Stamp(i)) {
          RollbackTx();
          return false;
        }
        version := chain[i].to;
        var committed := Commit(i, env);
        if !committed { return false; }
        current := chain[i].to;
      }
      return current == Latest(chain);
    }

    method DbRollback(target: int, env: Env) returns (ok: bool)
      modifies this
      ensures (ok, Value()) == Rollback(chain, old(Value()), target, env)
    {
      var current := ReadVersion(env);
      if current < 0 || current <= target { return false; }
      ghost var start, first := Value(), current;
      var i := |chain|;
      while i > 0
        invariant 0 <= i <= |chain|
        invariant Down(chain, |chain|, first, target, start, env) == Down(chain, i, current, target, Value(), env)
      {
        i := i - 1;
        if chain[i].to != current { continue; }
        if !chain[i].reversible { return false; }
        if env.fails(BeginTx(i)) || saved.Some? { return false; }
        saved := Some(Schema(version, indexes, rows));
        if env.fails(Body(i)) {
          RollbackTx();
          return false;
        }
        indexes := indexes - {chain[i].index};
        if env.fails(Stamp(i)) {
          RollbackTx();
          return false;
        }
        version := chain[i].from;
        var committed := Commit(i, env);
        if !committed { return false; }
        current := chain[i].from;
        if current == target { return true; }
      }
      return false;
    }
  }

  // ---- version and schema agree ----

  /** The schema is exactly that of level k: its version, and the indexes of the first k migrations. */
  ghost predicate AtLevel(chain: seq<Migration>, k: nat, s: Schema) {
    k <= |chain| && s.version == VersionAt(chain, k) && s.indexes == IndexesAt(chain, k)
  }

  lemma {:induction false} VersionsAscend(chain: seq<Migration>, j: nat, k: nat)
    requires Contiguous(chain) && j < k <= |chain|
    ensures VersionAt(chain, j) < VersionAt(chain, k)
    ensures VersionAt(chain, j) >= 1
    decreases k
  {
    assert Link(chain, k - 1);
    if j < k - 1 { VersionsAscend(chain, j, k - 1); } else if j > 0 { VersionsAscend(chain, 0, j); }
  }

  lemma {:induction false} IndexesOfLevel(chain: seq<Migration>, k: nat, i: nat)
    requires Contiguous(chain) && k <= |chain| && i < |chain|
    ensures chain[i].index in IndexesAt(chain, k) <==> i < k
  {
    if k == 0 {
    } else {
      IndexesOfLevel(chain, k - 1, i);
    }
  }

  /** One migration step from level k: to level k + 1, or back to k, or k + 1 pending over k. */
  lemma UpStep(chain: seq<Migration>, k: nat, c: Conn, env: Env)
    requires Contiguous(chain) && k < |chain| && AtLevel(chain, k, c.now) && c.saved.None?
    ensures var (ok, c') := Transact(c, k, CreateIndex(c.now, chain[k].index), chain[k].to, env);
      && c'.now.rows == c.now.rows
      && (ok ==> AtLevel(chain, k + 1, c'.now) && c'.saved.None?)
      && (!ok ==> c' == c || (AtLevel(chain, k + 1, c'.now) && c'.saved == Some(c.now)))
      && (ok && chain[k].index.unique ==> !Duplicates(c.now.rows))
      && (c' != c && chain[k].index.unique ==> !Duplicates(c.now.rows))
  {
    assert Link(chain, k);
    IndexesOfLevel(chain, k, k);
  }

  /** The loop of db_migrate passes over the migrations below the current version. */
  lemma {:induction false} UpSkips(chain: seq<Migration>, i: nat, k: nat, c: Conn, env: Env)
    requires Contiguous(chain) && i <= k <= |chain|
    ensures Up(chain, i, VersionAt(chain, k), c, env) == Up(chain, k, VersionAt(chain, k), c, env)
    decreases k - i
  {
    if i == k {
    } else {
      assert Link(chain, i);
      VersionsAscend(chain, i, k);
      UpSkips(chain, i + 1, k, c, env);
    }
  }

  /** Some step that the upward loop from level k would take fails. */
  predicate UpFails(chain: seq<Migration>, k: nat, s: Schema, env: Env)
    requires k <= |chain|
  {
    exists i :: k <= i < |chain| &&
      (env.fails(BeginTx(i)) || env.fails(Body(i)) || env.fails(Stamp(i)) || env.fails(CommitTx(i))
       || (chain[i].index.unique && Duplicates(s.rows)))
  }

  lemma {:induction false} UpLevels(chain: seq<Migration>, k: nat, c: Conn, env: Env)
    requires Contiguous(chain) && k <= |chain| && AtLevel(chain, k, c.now) && c.saved.None?
    ensures var (ok, c') := Up(chain, k, VersionAt(chain, k), c, env);
      && c'.now.rows == c.now.rows
      && (ok <==> !UpFails(chain, k, c.now, env))
      && (ok ==> AtLevel(chain, |chain|, c'.now) && c'.saved.None?)
      && (exists j :: k <= j <= |chain| && AtLevel(chain, j, c'.now))
      && (c'.saved.Some? ==>
            c'.saved.value.rows == c.now.rows && c'.saved.value.indexes <= c'.now.indexes
            && exists j :: k <= j < |chain| && AtLevel(chain, j, c'.saved.value))
      && (HasUnique(c'.now.indexes) && !HasUnique(c.now.indexes) ==> !Duplicates(c.now.rows))
    decreases |chain| - k
  {
    if k == |chain| {
    } else {
      assert Link(chain, k);
      UpStep(chain, k, c, env);
      var (ok, c1) := Transact(c, k, CreateIndex(c.now, chain[k].index), chain[k].to, env);
      IndexesOfLevel(chain, k, k);
      if ok {
        UpLevels(chain, k + 1, c1, env);
        assert UpFails(chain, k + 1, c1.now, env) ==> UpFails(chain, k, c.now, env);
      } else {
        assert UpFails(chain, k, c.now, env);
      }
    }
  }

  /** Some step of the downward loop from level k to level t fails or cannot be undone. */
  predicate DownFails(chain: seq<Migration>, t: nat, k: nat, env: Env)
    requires k <= |chain|
  {
    exists i :: t <= i < k &&
      (!chain[i].reversible
       || env.fails(BeginTx(i)) || env.fails(Body(i)) || env.fails(Stamp(i)) || env.fails(CommitTx(i)))
  }

  lemma {:induction false} DownSkips(chain: seq<Migration>, i: nat, k: nat, target: int, c: Conn, env: Env)
    requires Contiguous(chain) && k <= i <= |chain|
    ensures Down(chain, i, VersionAt(chain, k), target, c, env) == Down(chain, k, VersionAt(chain, k), target, c, env)
    decreases i - k
  {
    if k < i {
      VersionsAscend(chain, k, i);
      DownSkips(chain, i - 1, k, target, c, env);
    }
  }

  /** One rollback step from level k: to level k - 1, or back to k, or k - 1 pending over k. */
  lemma DownStep(chain: seq<Migration>, k: nat, c: Conn, env: Env)
    requires Contiguous(chain) && 0 < k <= |chain| && AtLevel(chain, k, c.now) && c.saved.None?
    ensures var dropped := c.now.(indexes := c.now.indexes - {chain[k - 1].index});
      var (ok, c') := Transact(c, k - 1, Some(dropped), chain[k - 1].from, env);
      && c'.now.rows == c.now.rows && c'.now.indexes <= c.now.indexes
      && (ok ==> AtLevel(chain, k - 1, c'.now) && c'.saved.None?)
      && (!ok ==> c' == c || (AtLevel(chain, k - 1, c'.now) && c'.saved == Some(c.now)))
  {
    assert Link(chain, k - 1);
    IndexesOfLevel(chain, k - 1, k - 1);
  }

  lemma {:induction false} DownLevels(chain: seq<Migration>, k: nat, target: int, c: Conn, env: Env)
    requires Contiguous(chain) && k <= |chain| && AtLevel(chain, k, c.now) && c.saved.None?
    ensures var (ok, c') := Down(chain, k, VersionAt(chain, k), target, c, env);
      && c'.now.rows == c.now.rows && c'.now.indexes <= c.now.indexes
      && (ok ==> c'.saved.None?)
      && (exists j :: 0 <= j <= k && AtLevel(chain, j, c'.now))
      && (c'.saved.Some? ==>
            c'.saved.value.rows == c.now.rows && c'.saved.value.indexes <= c.now.indexes
            && exists j :: 0 <= j <= k && AtLevel(chain, j, c'.saved.value))
  {
    if k == 0 {
    } else {
      assert Link(chain, k - 1);
      DownStep(chain, k, c, env);
      var dropped := c.now.(indexes := c.now.indexes - {chain[k - 1].index});
      var (ok, c1) := Transact(c, k - 1, Some(dropped), chain[k - 1].from, env);
      hide AtLevel;
      hide Transact;
      if ok { DownLevels(chain, k - 1, target, c1, env); }
    }
  }

  lemma {:induction false} DownHits(chain: seq<Migration>, k: nat, t: nat, c: Conn, env: Env)
    requires Contiguous(chain) && t < k <= |chain| && AtLevel(chain, k, c.now) && c.saved.None?
    ensures var (ok, c') := Down(chain, k, VersionAt(chain, k), VersionAt(chain, t), c, env);
      && (ok <==> !DownFails(chain, t, k, env))
      && (ok ==> AtLevel(chain, t, c'.now) && c'.saved.None?)
  {
    assert Link(chain, k - 1);
    DownStep(chain, k, c, env);
    var dropped := c.now.(indexes := c.now.indexes - {chain[k - 1].index});
    var (ok, c1) := Transact(c, k - 1, Some(dropped), chain[k - 1].from, env);
    hide AtLevel;
    if chain[k - 1].reversible && ok && t < k - 1 {
      VersionsAscend(chain, t, k - 1);
      DownHits(chain, k - 1, t, c1, env);
      assert DownFails(chain, t, k - 1, env) ==> DownFails(chain, t, k, env);
    } else if !chain[k - 1].reversible || !ok {
      assert DownFails(chain, t, k, env);
    }
  }

  lemma {:induction false} DownMisses(chain: seq<Migration>, k: nat, target: int, c: Conn, env: Env)
    requires Contiguous(chain) && k <= |chain| && AtLevel(chain, k, c.now) && c.saved.None?
    requires forall t :: 0 <= t < k ==> VersionAt(chain, t) != target
    ensures var (ok, c') := Down(chain, k, VersionAt(chain, k), target, c, env);
      !ok && (!DownFails(chain, 0, k, env) ==> AtLevel(chain, 0, c'.now))
  {
    if k == 0 {
    } else {
      assert Link(chain, k - 1);
      DownStep(chain, k, c, env);
      var dropped := c.now.(indexes := c.now.indexes - {chain[k - 1].index});
      var (ok, c1) := Transact(c, k - 1, Some(dropped), chain[k - 1].from, env);
      hide AtLevel;
      assert VersionAt(chain, k - 1) != target;
      if chain[k - 1].reversible && ok {
        DownMisses(chain, k - 1, target, c1, env);
        assert DownFails(chain, 0, k - 1, env) ==> DownFails(chain, 0, k, env);
      } else {
        assert DownFails(chain, 0, k, env);
      }
    }
  }

  // ---- the two calls from any level ----

  predicate ReadsVersion(env: Env) { !env.fails(ReadPrepare) && !env.fails(ReadStep) }

  /** From any level, migrate reaches the latest schema exactly when no step fails and no duplicate blocks it. */
  lemma MigrateReachesLatest(chain: seq<Migration>, k: nat, c: Conn, env: Env)
    requires Contiguous(chain) && AtLevel(chain, k, c.now) && c.saved.None? && ReadsVersion(env)
    ensures var (ok, c') := Migrate(chain, c, env);
      && (ok <==> !UpFails(chain, k, c.now, env))
      && (ok ==> AtLevel(chain, |chain|, c'.now) && c'.saved.None? && c'.now.rows == c.now.rows)
  {
    if k > 0 { VersionsAscend(chain, 0, k); }
    if k < |chain| {
      VersionsAscend(chain, k, |chain|);
      UpSkips(chain, 0, k, c, env);
      UpLevels(chain, k, c, env);
    }
  }

  /** A database from before migrations, version 0 without indexes, is first stamped version 1. */
  lemma MigrateFromZero(chain: seq<Migration>, c: Conn, env: Env)
    requires Contiguous(chain) && c.now.version == 0 && c.now.indexes == {} && c.saved.None? && ReadsVersion(env)
    ensures var (ok, c') := Migrate(chain, c, env);
      && (ok <==> !env.fails(Baseline) && !UpFails(chain, 0, c.now, env))
      && (ok ==> AtLevel(chain, |chain|, c'.now) && c'.now.rows == c.now.rows)
  {
    var c1 := c.(now := c.now.(version := 1));
    if |chain| > 0 {
      VersionsAscend(chain, 0, |chain|);
      UpLevels(chain, 0, c1, env);
      assert UpFails(chain, 0, c1.now, env) <==> UpFails(chain, 0, c.now, env);
    }
  }

  /** Rollback to a lower version of the chain lands exactly there, or reports failure. */
  lemma RollbackLands(chain: seq<Migration>, k: nat, t: nat, c: Conn, env: Env)
    requires Contiguous(chain) && t < k && AtLevel(chain, k, c.now) && c.saved.None? && ReadsVersion(env)
    ensures var (ok, c') := Rollback(chain, c, VersionAt(chain, t), env);
      && (ok <==> !DownFails(chain, t, k, env))
      && (ok ==> AtLevel(chain, t, c'.now) && c'.saved.None? && c'.now.rows == c.now.rows)
  {
    VersionsAscend(chain, t, k);
    DownSkips(chain, |chain|, k, VersionAt(chain, t), c, env);
    DownLevels(chain, k, VersionAt(chain, t), c, env);
    DownHits(chain, k, t, c, env);
  }

  /** Rollback goes down only: to the present version or above it does nothing and answers false. */
  lemma RollbackNeedsLower(chain: seq<Migration>, c: Conn, target: int, env: Env)
    requires ReadsVersion(env) && target >= c.now.version
    ensures Rollback(chain, c, target, env) == (false, c)
  {
  }

  const BY_USER := Index("idx_secrets_user_id", false)
  const UNIQUE_NAME := Index("idx_secrets_unique_name", true)

  /** The chain of the repository by its version numbers and index names, there and back. */
  lemma RepositoryChain(rows: seq<Row>, env: Env)
    requires (forall s :: !env.fails(s)) && !Duplicates(rows)
    ensures var one, two := Schema(1, {}, rows), Schema(2, {BY_USER}, rows);
      var three := Schema(3, {BY_USER, UNIQUE_NAME}, rows);
      && Migrate(MIGRATIONS, Conn(one.(version := 0), None), env) == (true, Conn(three, None))
      && Migrate(MIGRATIONS, Conn(one, None), env) == (true, Conn(three, None))
      && Migrate(MIGRATIONS, Conn(two, None), env) == (true, Conn(three, None))
      && Rollback(MIGRATIONS, Conn(three, None), 2, env) == (true, Conn(two, None))
      && Rollback(MIGRATIONS, Conn(three, None), 1, env) == (true, Conn(one, None))
  {
    var one, two := Schema(1, {}, rows), Schema(2, {BY_USER}, rows);
    var three := Schema(3, {BY_USER, UNIQUE_NAME}, rows);
    assert {BY_USER} + {UNIQUE_NAME} == {BY_USER, UNIQUE_NAME} && {} + {BY_USER} == {BY_USER};
    assert {BY_USER, UNIQUE_NAME} - {UNIQUE_NAME} == {BY_USER} && {BY_USER} - {BY_USER} == {};
    hide Duplicates;
    assert Up(MIGRATIONS, 2, 3, Conn(three, None), env) == (true, Conn(three, None));
    assert Up(MIGRATIONS, 1, 2, Conn(two, None), env) == (true, Conn(three, None));
    assert Up(MIGRATIONS, 0, 1, Conn(one, None), env) == (true, Conn(three, None));
    assert Up(MIGRATIONS, 0, 2, Conn(two, None), env) == (true, Conn(three, None));
    assert Down(MIGRATIONS, 1, 2, 1, Conn(two, None), env) == (true, Conn(one, None));
  }

  /** A target that is no version of the chain: everything is undone, and the answer is still false. */
  lemma RollbackToNowhere(chain: seq<Migration>, k: nat, target: int, c: Conn, env: Env)
    requires Contiguous(chain) && AtLevel(chain, k, c.now) && c.saved.None? && ReadsVersion(env)
    requires target < VersionAt(chain, k) && forall t :: 0 <= t < k ==> VersionAt(chain, t) != target
    ensures var (ok, c') := Rollback(chain, c, target, env);
      !ok && (!DownFails(chain, 0, k, env) ==> AtLevel(chain, 0, c'.now))
  {
    if k > 0 { VersionsAscend(chain, 0, k); }
    DownSkips(chain, |chain|, k, target, c, env);
    DownMisses(chain, k, target, c, env);
  }

  /** Rolling back and migrating again restores the schema. */
  lemma RollbackThenMigrate(chain: seq<Migration>, t: nat, c: Conn, down: Env, up: Env)
    requires Contiguous(chain) && t < |chain| && AtLevel(chain, |chain|, c.now) && c.saved.None?
    requires ReadsVersion(down) && ReadsVersion(up)
    requires Rollback(chain, c, VersionAt(chain, t), down).0
    ensures var c1 := Rollback(chain, c, VersionAt(chain, t), down).1;
      Migrate(chain, c1, up).0 ==> Migrate(chain, c1, up).1 == c
  {
    RollbackLands(chain, |chain|, t, c, down);
    MigrateReachesLatest(chain, t, Rollback(chain, c, VersionAt(chain, t), down).1, up);
  }

  // ---- every reachable state ----

  datatype Op = DoMigrate(env: Env) | DoRollback(target: int, env: Env) | Insert(row: Row) | Delete(i: nat) | Reopen

  /** INSERT is refused by a unique index; reopening the connection drops an open transaction. */
  function Apply(chain: seq<Migration>, c: Conn, op: Op): Conn {
    match op
    case DoMigrate(env) => Migrate(chain, c, env).1
    case DoRollback(target, env) => Rollback(chain, c, target, env).1
    case Insert(row) =>
      if HasUnique(c.now.indexes) && row in c.now.rows then c
      else c.(now := c.now.(rows := c.now.rows + [row]))
    case Delete(i) =>
      if i < |c.now.rows| then c.(now := c.now.(rows := c.now.rows[..i] + c.now.rows[i + 1..])) else c
    case Reopen => if c.saved.Some? then Undo(c) else c
  }

  function Reach(chain: seq<Migration>, c: Conn, ops: seq<Op>): Conn {
    if ops == [] then c else Apply(chain, Reach(chain, c, ops[..|ops| - 1]), ops[|ops| - 1])
  }

  /** Version and indexes agree, and where the unique index exists the names are unique. */
  ghost predicate Agrees(chain: seq<Migration>, s: Schema) {
    && ((s.version == 0 && s.indexes == {}) || exists k :: 0 <= k <= |chain| && AtLevel(chain, k, s))
    && (HasUnique(s.indexes) ==> !Duplicates(s.rows))
  }

  ghost predicate Sound(chain: seq<Migration>, c: Conn) {
    Agrees(chain, c.now) && (c.saved.Some? ==> Agrees(chain, c.saved.value))
  }

  /** Migrate reads the version as it is; what happens otherwise is the subject of MisreadVersion. */
  predicate ReadsOk(op: Op) { op.DoMigrate? ==> !op.env.fails(ReadStep) }

  lemma {:induction false} UpInOpenTransaction(chain: seq<Migration>, i: nat, current: int, c: Conn, env: Env)
    requires i <= |chain| && c.saved.Some?
    ensures Up(chain, i, current, c, env).1 == c
    decreases |chain| - i
  {
    if i < |chain| && chain[i].from != current { UpInOpenTransaction(chain, i + 1, current, c, env); }
  }

  lemma {:induction false} DownInOpenTransaction(chain: seq<Migration>, i: nat, current: int, target: int, c: Conn,
                                                 env: Env)
    requires i <= |chain| && c.saved.Some?
    ensures Down(chain, i, current, target, c, env).1 == c
  {
    if i > 0 && chain[i - 1].to != current { DownInOpenTransaction(chain, i - 1, current, target, c, env); }
  }

  lemma UniqueStays(s: Schema, s': Schema)
    requires s'.rows == s.rows && s'.indexes <= s.indexes
    requires HasUnique(s.indexes) ==> !Duplicates(s.rows)
    ensures HasUnique(s'.indexes) ==> !Duplicates(s'.rows)
  {
  }

  lemma NoLevelZeroVersion(chain: seq<Migration>, k: nat)
    requires Contiguous(chain) && k <= |chain|
    ensures VersionAt(chain, k) >= 1
  {
    if k > 0 { VersionsAscend(chain, 0, k); }
  }

  /** The level of a schema that agrees; version 0 counts as level 0 once it is stamped 1. */
  lemma LevelOf(chain: seq<Migration>, s: Schema) returns (k: nat)
    requires Contiguous(chain) && Agrees(chain, s)
    ensures k <= |chain| && AtLevel(chain, k, if s.version == 0 then s.(version := 1) else s)
    ensures s.version >= 0
  {
    if s.version == 0 && s.indexes == {} {
      k := 0;
    } else {
      k :| 0 <= k <= |chain| && AtLevel(chain, k, s);
      NoLevelZeroVersion(chain, k);
    }
  }

  lemma MigrateStaysSound(chain: seq<Migration>, c: Conn, env: Env)
    requires Contiguous(chain) && Sound(chain, c) && !env.fails(ReadStep)
    ensures Sound(chain, Migrate(chain, c, env).1)
  {
    var c1 := if c.now.version == 0 then c.(now := c.now.(version := 1)) else c;
    var k := LevelOf(chain, c.now);
    if c.saved.Some? {
      UpInOpenTransaction(chain, 0, c1.now.version, c1, env);
    } else {
      UpSkips(chain, 0, k, c1, env);
      UpLevels(chain, k, c1, env);
    }
  }

  lemma {:induction false} DownNothing(chain: seq<Migration>, i: nat, target: int, c: Conn, env: Env)
    requires Contiguous(chain) && i <= |chain|
    ensures Down(chain, i, 0, target, c, env) == (false, c)
  {
    if i == 0 {
    } else {
      NoLevelZeroVersion(chain, i);
      DownNothing(chain, i - 1, target, c, env);
    }
  }

  lemma RollbackStaysSound(chain: seq<Migration>, c: Conn, target: int, env: Env)
    requires Contiguous(chain) && Sound(chain, c)
    ensures Sound(chain, Rollback(chain, c, target, env).1)
  {
    if env.fails(ReadPrepare) {
    } else if env.fails(ReadStep) {
      DownNothing(chain, |chain|, target, c, env);
    } else if c.saved.Some? {
      DownInOpenTransaction(chain, |chain|, c.now.version, target, c, env);
    } else if c.now.version == 0 {
      DownNothing(chain, |chain|, target, c, env);
    } else {
      var k :| 0 <= k <= |chain| && AtLevel(chain, k, c.now);
      DownSkips(chain, |chain|, k, target, c, env);
      DownLevels(chain, k, target, c, env);
      var c' := Down(chain, k, c.now.version, target, c, env).1;
      UniqueStays(c.now, c'.now);
      if c'.saved.Some? { UniqueStays(c.now, c'.saved.value); }
    }
  }

  lemma RowsStaySound(chain: seq<Migration>, c: Conn, op: Op)
    requires Sound(chain, c) && !op.DoMigrate? && !op.DoRollback?
    ensures Sound(chain, Apply(chain, c, op))
  {
    var s, s' := c.now, Apply(chain, c, op).now;
    if k :| 0 <= k <= |chain| && AtLevel(chain, k, s) && !op.Reopen? {
      assert AtLevel(chain, k, s');
    }
  }

  /**
   In every reachable state, also inside a transaction that a failed COMMIT left open and after reopening,
   the version names exactly the migrations whose indexes exist, and a unique index means unique names.
   */
  lemma {:induction false} ReachableIsSound(chain: seq<Migration>, c: Conn, ops: seq<Op>)
    requires Contiguous(chain) && Sound(chain, c) && forall i :: 0 <= i < |ops| ==> ReadsOk(ops[i])
    ensures Sound(chain, Reach(chain, c, ops))
  {
    hide Sound;
    if ops == [] {
    } else {
      var n := |ops| - 1;
      ReachableIsSound(chain, c, ops[..n]);
      var c1 := Reach(chain, c, ops[..n]);
      match ops[n]
      case DoMigrate(env) => MigrateStaysSound(chain, c1, env);
      case DoRollback(target, env) => RollbackStaysSound(chain, c1, target, env);
      case _ => RowsStaySound(chain, c1, ops[n]);
    }
  }

  /** The chain of the repository: version 3 implies that (user_id, name) is unique. */
  lemma VersionThreeIsUnique(c: Conn, ops: seq<Op>)
    requires Sound(MIGRATIONS, c) && forall i :: 0 <= i < |ops| ==> ReadsOk(ops[i])
    ensures Contiguous(MIGRATIONS)
    ensures Reach(MIGRATIONS, c, ops).now.version == 3 ==> !Duplicates(Reach(MIGRATIONS, c, ops).now.rows)
  {
    assert Link(MIGRATIONS, 0) && Link(MIGRATIONS, 1);
    ReachableIsSound(MIGRATIONS, c, ops);
    var s := Reach(MIGRATIONS, c, ops).now;
    if s.version == 3 {
      var k :| 0 <= k <= 2 && AtLevel(MIGRATIONS, k, s);
      assert k == 2;
      assert MIGRATIONS[1].index in s.indexes;
    }
  }

  // ---- a misread version ----

  function Max(j: nat, k: nat): nat { if j < k then k else j }

  /** A schema whose indexes are those of level k or of its own version, whichever is higher. */
  ghost predicate Behind(chain: seq<Migration>, i: nat, k: nat, s: Schema)
    requires i <= |chain| && k <= |chain|
  {
    s.version == VersionAt(chain, i) && s.indexes == IndexesAt(chain, Max(i, k))
  }

  /** The loop run over indexes that are ahead of the version. */
  lemma {:induction false} UpBehind(chain: seq<Migration>, j: nat, k: nat, c: Conn, env: Env) returns (i: nat, i': nat)
    requires Contiguous(chain) && j <= |chain| && k <= |chain| && c.saved.None? && Behind(chain, j, k, c.now)
    ensures var c' := Up(chain, j, VersionAt(chain, j), c, env).1;
      && j <= i <= |chain| && Behind(chain, i, k, c'.now)
      && (c'.saved.Some? ==> j <= i' <= |chain| && Behind(chain, i', k, c'.saved.value))
    decreases |chain| - j
  {
    i, i' := j, j;
    if j == |chain| {
    } else {
      assert Link(chain, j);
      IndexesOfLevel(chain, Max(j, k), j);
      var (ok, c1) := Transact(c, j, CreateIndex(c.now, chain[j].index), chain[j].to, env);
      if ok {
        i, i' := UpBehind(chain, j + 1, k, c1, env);
      } else {
        assert Up(chain, j, VersionAt(chain, j), c, env).1 == c1;
        i := if c1 == c then j else j + 1;
      }
    }
  }

  /** Such a schema agrees with a level exactly when its version has caught up. */
  lemma CaughtUp(chain: seq<Migration>, i: nat, k: nat, s: Schema)
    requires Contiguous(chain) && i <= |chain| && k <= |chain| && Behind(chain, i, k, s)
    ensures (exists j :: 0 <= j <= |chain| && AtLevel(chain, j, s)) <==> s.version >= VersionAt(chain, k)
  {
    if i < k {
      VersionsAscend(chain, i, k);
      IndexesOfLevel(chain, k, i);
      IndexesOfLevel(chain, i, i);
      forall j | 0 <= j <= |chain| && AtLevel(chain, j, s) ensures j == i {
        if j < i { VersionsAscend(chain, j, i); } else if i < j { VersionsAscend(chain, i, j); }
      }
    } else {
      if k < i { VersionsAscend(chain, k, i); }
      assert AtLevel(chain, i, s);
    }
  }

  /** None of the migrations from j up to k fails to begin, to run or to stamp its version. */
  predicate Repeats(env: Env, j: nat, k: nat) {
    forall i :: j <= i < k ==> !env.fails(BeginTx(i)) && !env.fails(Body(i)) && !env.fails(Stamp(i))
  }

  /** Nor to commit, except that the last one may be left open, where it is still visible. */
  predicate CommitsVisibly(env: Env, j: nat, k: nat) {
    forall i :: j <= i < k && env.fails(CommitTx(i)) ==> i == k - 1 && env.commitFailureKeepsOpen
  }

  predicate CommitsAll(env: Env, j: nat, k: nat) { forall i :: j <= i < k ==> !env.fails(CommitTx(i)) }

  /** The versions reached inside and outside an open transaction, by what fails on the way up to level k. */
  lemma {:induction false} UpCatchesUp(chain: seq<Migration>, j: nat, k: nat, c: Conn, env: Env)
    requires Contiguous(chain) && j <= k <= |chain| && c.saved.None? && Behind(chain, j, k, c.now)
    ensures var c' := Up(chain, j, VersionAt(chain, j), c, env).1;
      && (c'.now.version >= VersionAt(chain, k) <==> Repeats(env, j, k) && CommitsVisibly(env, j, k))
      && (c'.now.version >= VersionAt(chain, k)
          && (c'.saved.Some? ==> c'.saved.value.version >= VersionAt(chain, k)) <==>
            Repeats(env, j, k) && CommitsAll(env, j, k))
    decreases k - j
  {
    if j == k {
      UpNeverBelow(chain, k, c, env);
    } else {
      assert Link(chain, j);
      VersionsAscend(chain, j, k);
      if j + 1 < k { VersionsAscend(chain, j + 1, k); }
      IndexesOfLevel(chain, k, j);
      var (ok, c1) := Transact(c, j, CreateIndex(c.now, chain[j].index), chain[j].to, env);
      if ok {
        UpCatchesUp(chain, j + 1, k, c1, env);
      } else {
        assert Up(chain, j, VersionAt(chain, j), c, env).1 == c1;
      }
    }
  }

  lemma UpNeverBelow(chain: seq<Migration>, k: nat, c: Conn, env: Env)
    requires Contiguous(chain) && k <= |chain| && c.saved.None? && Behind(chain, k, k, c.now)
    ensures var c' := Up(chain, k, VersionAt(chain, k), c, env).1;
      && c'.now.version >= VersionAt(chain, k)
      && (c'.saved.Some? ==> c'.saved.value.version >= VersionAt(chain, k))
  {
    var _, _ := UpBehind(chain, k, k, c, env);
    forall i | k < i <= |chain| ensures VersionAt(chain, k) < VersionAt(chain, i) { VersionsAscend(chain, k, i); }
  }

  /**
   If the step that reads the version fails, migrate takes the database for an unversioned one and repeats
   its migrations. At level k, the visible version and indexes then agree if and only if none of the first k
   fails, but for a COMMIT of the last that leaves its transaction open; and what a rollback of an open
   transaction would return to agrees as well if and only if none of those COMMITs fails either.
   */
  lemma MisreadVersion(chain: seq<Migration>, k: nat, c: Conn, env: Env)
    requires Contiguous(chain) && k <= |chain| && AtLevel(chain, k, c.now) && c.saved.None?
    requires !env.fails(ReadPrepare) && env.fails(ReadStep) && !env.fails(Baseline)
    ensures var c' := Migrate(chain, c, env).1;
      var agrees := exists j :: 0 <= j <= |chain| && AtLevel(chain, j, c'.now);
      var agreesBelow := c'.saved.Some? ==> exists j :: 0 <= j <= |chain| && AtLevel(chain, j, c'.saved.value);
      && (agrees <==> Repeats(env, 0, k) && CommitsVisibly(env, 0, k))
      && (agrees && agreesBelow <==> Repeats(env, 0, k) && CommitsAll(env, 0, k))
  {
    var c1 := c.(now := c.now.(version := 1));
    var c' := Migrate(chain, c, env).1;
    if |chain| > 0 { VersionsAscend(chain, 0, |chain|); }
    assert Behind(chain, 0, k, c1.now);
    var i, i' := UpBehind(chain, 0, k, c1, env);
    UpCatchesUp(chain, 0, k, c1, env);
    CaughtUp(chain, i, k, c'.now);
    if c'.saved.Some? { CaughtUp(chain, i', k, c'.saved.value); }
  }
}
