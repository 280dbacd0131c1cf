/**
 What the public calls write to the audit log, said from the call, its reply and the tables before it,
 and then of whole runs.
 */
module AuditTrail {
  import opened Types
  import opened Crypto
  import opened Tables
  import opened Vault
  import opened Runs

  function OperationText(call: Call): string {
    match call
    case Register(_, _) => "user_register"
    case Authenticate(_, _) => "user_authenticate"
    case Store(_, _, _, _, _) => "secret_store"
    case Get(_, _, _, _) => "secret_get"
    case Delete(_, _) => "secret_delete"
    case List(_) => "secret_list"
    case RemoveAccount(_, _) => "user_delete"
    case ChangePassword(_, _, _) => "user_change_password"
    case Rotate(_) => "kek_rotate"
  }

  /** The id of the user found, or of the user that a registration adds; 0 for nobody and for a taken name. */
  function Actor(t: Tables, call: Call, env: Env): nat {
    if call.Register? then (if call.user in t.users then 0 else t.lastUser + 1)
    else if env.fails(FindUser) || call.user !in t.users then 0
    else t.users[call.user].id
  }

  /** An answered authentication is recorded with its verdict, any other call with its status. */
  function Result(reply: Reply): Status {
    if reply.Authenticated? && reply.valid == Some(false) then ErrAuth else reply.status
  }

  /** The secret's name once the user is known, and the user's own name for a rotation that worked. */
  function Target(call: Call, reply: Reply): Option<string> {
    if call.Rotate? then (if reply.status == Ok then Some(call.user) else None)
    else if (call.Store? || call.Get? || call.Delete?) && reply.status != ErrAuth then Some(call.name)
    else None
  }

  /** Which replies leave an entry, if it can be written. */
  predicate IsRecorded(call: Call, reply: Reply, env: Env) {
    match call
    case Register(_, _) => reply.status == Ok
    case Authenticate(_, _) => reply.status == Ok
    case Store(_, _, _, _, _) => reply.status == Ok || reply.status == ErrAuth || reply.status == ErrExpired
    case Get(_, _, _, _) =>
      reply.status == Ok || reply.status == ErrAuth || reply.status == ErrExpired || reply.status == ErrIntegrity
    case Delete(_, _) => reply.status == Ok || reply.status == ErrAuth || reply.status == ErrExpired
    case List(_) => reply.status == Ok || reply.status == ErrAuth || reply.status == ErrExpired
    case RemoveAccount(_, _) => reply.status == Ok || reply.status == ErrAuth
    // neither a bad name, a password against the policy, nor a failed hash is recorded
    case ChangePassword(user, _, newPassword) =>
      1 <= |user| <= 255 && env.policy(newPassword) == Ok && (reply.status == ErrInternal ==> !env.fails(HashPassword))
    case Rotate(_) => true
  }

  function EntryOf(t: Tables, call: Call, reply: Reply, env: Env): Option<LogEntry> {
    if env.fails(WriteAudit) || !IsRecorded(call, reply, env) then None
    else Some(LogEntry(Actor(t, call, env), call.user, OperationText(call), Result(reply), Target(call, reply)))
  }

  ghost predicate Logged(s: State, call: Call, env: Env, o: Outcome) {
    match EntryOf(s.t, call, o.reply, env)
    case None => o.state.log == s.log
    case Some(entry) => o.state.log == s.log + [entry]
  }

  lemma RegisterLogged(c: Suite, s: State, call: Call, env: Env)
    requires call.Register?
    ensures Logged(s, call, env, Next(c, s, call, env))
  {
    hide ExpiresAt;
    hide InsertUser;
    hide InsertKek;
  }

  lemma StoreLogged(c: Suite, s: State, call: Call, env: Env)
    requires call.Store?
    ensures Logged(s, call, env, Next(c, s, call, env))
  {
    hide WrappingKey;
    hide IsExpired;
    hide InsertSecret;
    hide Calendar.Format;
  }

  lemma GetLogged(c: Suite, s: State, call: Call, env: Env)
    requires call.Get?
    ensures Logged(s, call, env, Next(c, s, call, env))
  {
    hide WrappingKey;
    hide IsExpired;
  }

  lemma ChangeLogged(c: Suite, s: State, call: Call, env: Env)
    requires call.ChangePassword?
    ensures Logged(s, call, env, Next(c, s, call, env))
  {
    hide ChangeTx;
  }

  lemma RotateLogged(c: Suite, s: State, call: Call, env: Env)
    requires call.Rotate?
    ensures Logged(s, call, env, Next(c, s, call, env))
  {
    hide RotateTx;
  }

  lemma OthersLogged(c: Suite, s: State, call: Call, env: Env)
    requires call.Authenticate? || call.Delete? || call.List? || call.RemoveAccount?
    ensures Logged(s, call, env, Next(c, s, call, env))
  {
    hide IsExpired;
    hide Items;
    hide Rows;
    hide DeleteUser;
    hide DeleteSecret;
  }

  /** Every call appends exactly its entry, or nothing. */
  lemma CallLogged(c: Suite, s: State, call: Call, env: Env)
    ensures match EntryOf(s.t, call, Next(c, s, call, env).reply, env)
      case None => Next(c, s, call, env).state.log == s.log
      case Some(entry) => Next(c, s, call, env).state.log == s.log + [entry]
  {
    hide Next;
    hide EntryOf;
    match call
    case Register(_, _) => RegisterLogged(c, s, call, env);
    case Store(_, _, _, _, _) => StoreLogged(c, s, call, env);
    case Get(_, _, _, _) => GetLogged(c, s, call, env);
    case ChangePassword(_, _, _) => ChangeLogged(c, s, call, env);
    case Rotate(_) => RotateLogged(c, s, call, env);
    case _ => OthersLogged(c, s, call, env);
  }

  // ---- whole runs ----

  /** The entry of call i of a run, if it leaves one. */
  function EntryAt(c: Suite, calls: Calls, i: nat): Option<LogEntry>
    requires i < |calls|
  {
    var s, (call, env) := StateAfter(c, calls[..i]), calls[i];
    EntryOf(s.t, call, Next(c, s, call, env).reply, env)
  }

  /** at lists, in their order, the calls that left an entry; the log is these entries. */
  ghost predicate IsTrail(c: Suite, calls: Calls, log: seq<LogEntry>, at: seq<nat>) {
    && |log| == |at|
    && (forall n, m :: 0 <= n < m < |at| ==> at[n] < at[m])
    && (forall n :: 0 <= n < |at| ==> at[n] < |calls| && EntryAt(c, calls, at[n]) == Some(log[n]))
    && forall i :: 0 <= i < |calls| && EntryAt(c, calls, i).Some? ==> i in at
  }

  lemma SameEntry(c: Suite, calls: Calls, last: (Call, Env), i: nat)
    requires i < |calls|
    ensures EntryAt(c, calls + [last], i) == EntryAt(c, calls, i)
  {
    assert (calls + [last])[..i] == calls[..i];
    hide EntryOf;
    hide StateAfter;
    hide Next;
  }

  lemma LongerTrail(c: Suite, calls: Calls, last: (Call, Env), log: seq<LogEntry>, at: seq<nat>)
    requires IsTrail(c, calls, log, at)
    ensures match EntryAt(c, calls + [last], |calls|)
      case None => IsTrail(c, calls + [last], log, at)
      case Some(entry) => IsTrail(c, calls + [last], log + [entry], at + [|calls|])
  {
    forall i | 0 <= i < |calls| ensures EntryAt(c, calls + [last], i) == EntryAt(c, calls, i) {
      SameEntry(c, calls, last, i);
    }
    hide EntryAt;
  }

  /**
   The log of a run from an empty handle: one entry for each call that leaves one, in the order of the
   calls, and nothing else; nothing is ever changed or removed.
   */
  lemma {:induction false} RunLogged(c: Suite, calls: Calls) returns (at: seq<nat>)
    ensures IsTrail(c, calls, StateAfter(c, calls).log, at)
  {
    if calls == [] {
      at := [];
    } else {
      var n := |calls| - 1;
      var before, last := calls[..n], calls[n];
      at := RunLogged(c, before);
      assert calls == before + [last];
      var s := StateAfter(c, before);
      LongerTrail(c, before, last, s.log, at);
      CallLogged(c, s, last.0, last.1);
      OneMoreCall(c, before, last.0, last.1);
      assert calls[..n] == before;
      assert EntryAt(c, calls, n) == EntryOf(s.t, last.0, Next(c, s, last.0, last.1).reply, last.1);
      hide IsTrail;
      hide EntryOf;
      hide StateAfter;
      hide Next;
      if EntryAt(c, calls, n).Some? { at := at + [n]; }
    }
  }
}
