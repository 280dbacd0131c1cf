/**
 The audit log: an append-only table with AUTOINCREMENT ids, a filtered query that returns the
 newest entries first one page at a time, and the removal of old entries by text comparison.
 */
module Audit {
  import opened Types
  import opened Text
  import opened Calendar

  datatype AuditRow = AuditRow(
    id: nat, userId: Option<nat>, username: string, operation: string,
    target: Option<string>, details: Option<string>, result: string, timestamp: string)

  /** What the query reports; missing texts are empty and a missing user id is zero. */
  datatype AuditEntry = AuditEntry(
    id: nat, userId: nat, username: string, operation: string,
    target: string, details: string, result: string, timestamp: string)

  datatype Filter = Filter(username: Option<string>, operation: Option<string>, result: Option<string>)

  // ---- the query ----

  predicate Allows(wanted: Option<string>, actual: string) { wanted.Some? ==> actual == wanted.value }

  predicate Matches(row: AuditRow, f: Filter) {
    Allows(f.username, row.username) && Allows(f.operation, row.operation) && Allows(f.result, row.result)
  }

  /** The matching rows, last inserted first. */
  function Matching(rows: seq<AuditRow>, f: Filter): seq<AuditRow> {
    if rows == [] then []
    else
      var newest := rows[|rows| - 1];
      (if Matches(newest, f) then [newest] else []) + Matching(rows[..|rows| - 1], f)
  }

  /** LIMIT and OFFSET; a negative limit means all rows and a negative offset none skipped. */
  function Page<T>(s: seq<T>, limit: int, offset: int): seq<T> {
    var skip := if offset < 0 then 0 else if offset > |s| then |s| else offset;
    if limit < 0 || limit > |s| - skip then s[skip..] else s[skip..skip + limit]
  }

  function OrEmpty(text: Option<string>): string { if text.Some? then text.value else "" }

  function Entry(row: AuditRow): AuditEntry {
    AuditEntry(row.id, if row.userId.Some? then row.userId.value else 0, row.username, row.operation,
               OrEmpty(row.target), OrEmpty(row.details), row.result, row.timestamp)
  }

  function Entries(rows: seq<AuditRow>): (es: seq<AuditEntry>)
    ensures |es| == |rows| && forall i :: 0 <= i < |rows| ==> es[i] == Entry(rows[i])
  {
    seq(|rows|, i requires 0 <= i < |rows| => Entry(rows[i]))
  }

  /** What a client of the query receives: the limit defaults to 100 and the offset to 0. */
  function Reply(rows: seq<AuditRow>, f: Filter, limit: int, offset: int): seq<AuditEntry> {
    Entries(Page(Matching(rows, f), if limit <= 0 then 100 else limit, if offset < 0 then 0 else offset))
  }

  // ---- the table ----

  /** Ids are positive and strictly ascending in insertion order, and none is above the last one issued. */
  ghost predicate Ascending(rows: seq<AuditRow>, lastId: nat) {
    && (forall i, j :: 0 <= i < j < |rows| ==> rows[i].id < rows[j].id)
    && forall i :: 0 <= i < |rows| ==> 0 < rows[i].id <= lastId
  }

  /** timestamp < strftime(..., 'now', '-N days'); no row precedes a cutoff outside the years 0000 to 9999. */
  predicate Outdated(row: AuditRow, now: Time, days: nat) {
    var cutoff := now - days * SECONDS_PER_DAY;
    cutoff >= MIN_TIME && Precedes(row.timestamp, Format(cutoff))
  }

  function Kept(rows: seq<AuditRow>, now: Time, days: nat): seq<AuditRow> {
    if rows == [] then []
    else (if Outdated(rows[0], now, days) then [] else [rows[0]]) + Kept(rows[1..], now, days)
  }

  class AuditLog {
    var rows: seq<AuditRow>
    var lastId: nat

    ghost predicate Valid()
      reads this
    {
      Ascending(rows, lastId)
    }

    constructor ()
      ensures Valid() && rows == [] && lastId == 0
    {
      rows, lastId := [], 0;
    }

    /** audit_log_write; the three mandatory texts may be null pointers, and the insert may fail. */
    method Write(userId: int, username: Option<string>, operation: Option<string>, result: Option<string>,
                 target: Option<string>, details: Option<string>, now: Time, fails: bool)
      returns (ok: bool)
      requires Valid()
      modifies this
      ensures Valid()
      ensures ok == (username.Some? && operation.Some? && result.Some? && !fails)
      ensures !ok ==> rows == old(rows) && lastId == old(lastId)
      ensures ok ==>
                && lastId == old(lastId) + 1
                && rows == old(rows) + [AuditRow(lastId, if userId > 0 then Some(userId) else None,
                                                 username.value, operation.value, target, details, result.value,
                                                 Format(now))]
    {
      hide Format;
      if username.None? || operation.None? || result.None? || fails {
        return false;
      }
      lastId := lastId + 1;
      var bound := if userId > 0 then Some(userId as nat) else None;
      rows := rows + [AuditRow(lastId, bound, username.value, operation.value, target, details, result.value,
                               Format(now))];
      return true;
    }

    /**
     audit_log_query: the statement may not be prepared; it delivers rows until a step gives something else,
     which may be before the page is complete and is not told from its end.
     */
    method Query(f: Filter, limit: int, offset: int, prepared: bool, steps: nat)
      returns (ok: bool, out: seq<AuditEntry>)
      ensures ok == prepared
      ensures ok ==> out == UpTo(Entries(Page(Matching(rows, f), limit, offset)), steps)
    {
      hide Matching;
      hide Page;
      if !prepared { return false, []; }
      var cursor := Page(Matching(rows, f), limit, offset);
      out := [];
      var i := 0;
      while i < steps && i < |cursor|
        invariant i <= |cursor| && out == Entries(cursor[..i])
        invariant i <= steps
      {
        var row := cursor[i];
        var userId := if row.userId.Some? then row.userId.value else 0;
        var target := if row.target.Some? then row.target.value else "";
        var details := if row.details.Some? then row.details.value else "";
        out := out + [AuditEntry(row.id, userId, row.username, row.operation, target, details, row.result,
                                 row.timestamp)];
        i := i + 1;
      }
      return true, out;
    }

    /** ssm_audit_log_query */
    method AuditLogQuery(f: Filter, limit: int, offset: int, prepared: bool, steps: nat)
      returns (status: Status, out: seq<AuditEntry>)
      ensures status == if prepared then Ok else ErrInternal
      ensures status == Ok ==> out == UpTo(Reply(rows, f, limit, offset), steps)
    {
      var n, skip := limit, offset;
      if n <= 0 { n := 100; }
      if skip < 0 { skip := 0; }
      var ok, entries := Query(f, n, skip, prepared, steps);
      if !ok { return ErrInternal, []; }
      return Ok, entries;
    }

    /** audit_log_prune; the statement may fail. */
    method Prune(days: int, now: Time, fails: bool) returns (ok: bool)
      requires Valid()
      modifies this`rows
      ensures Valid()
      ensures ok == (days > 0 && !fails)
      ensures rows == if ok then Kept(old(rows), now, days) else old(rows)
    {
      if days <= 0 || fails {
        return false;
      }
      hide Outdated;
      KeptAscending(rows, lastId, now, days);
      rows := Kept(rows, now, days);
      return true;
    }
  }

  // ---- the query answers with exactly the matching rows, newest first ----

  ghost predicate Descending(s: seq<AuditRow>) { forall i, j :: 0 <= i < j < |s| ==> s[i].id > s[j].id }

  /** s lists every matching row once, in strictly decreasing id order. */
  ghost predicate Answers(s: seq<AuditRow>, rows: seq<AuditRow>, f: Filter) {
    Descending(s) && forall row :: row in s <==> row in rows && Matches(row, f)
  }

  lemma {:induction false} MatchingHas(rows: seq<AuditRow>, f: Filter, row: AuditRow)
    ensures row in Matching(rows, f) <==> row in rows && Matches(row, f)
  {
    if rows == [] {
    } else {
      MatchingHas(rows[..|rows| - 1], f, row);
      assert rows == rows[..|rows| - 1] + [rows[|rows| - 1]];
    }
  }

  lemma {:induction false} MatchingDescends(rows: seq<AuditRow>, lastId: nat, f: Filter)
    requires Ascending(rows, lastId)
    ensures Descending(Matching(rows, f))
  {
    if rows == [] {
    } else {
      var init, newest := rows[..|rows| - 1], rows[|rows| - 1];
      MatchingDescends(init, lastId, f);
      forall i | 0 <= i < |Matching(init, f)| ensures Matching(init, f)[i].id < newest.id {
        MatchingHas(init, f, Matching(init, f)[i]);
      }
    }
  }

  lemma MatchingAnswers(rows: seq<AuditRow>, lastId: nat, f: Filter)
    requires Ascending(rows, lastId)
    ensures Answers(Matching(rows, f), rows, f)
  {
    MatchingDescends(rows, lastId, f);
    forall row ensures row in Matching(rows, f) <==> row in rows && Matches(row, f) {
      MatchingHas(rows, f, row);
    }
  }

  lemma {:induction false} SameRows(s: seq<AuditRow>, t: seq<AuditRow>)
    requires Descending(s) && Descending(t) && forall row :: row in s <==> row in t
    ensures s == t
  {
    assert t != [] ==> t[0] in s;
    assert s != [] ==> s[0] in t;
    if s == [] {
    } else {
      assert s[0] == t[0];
      assert s == [s[0]] + s[1..] && t == [t[0]] + t[1..];
      assert s[0] !in s[1..] && t[0] !in t[1..];
      assert forall row :: row in s[1..] <==> row in s && row != s[0];
      assert forall row :: row in t[1..] <==> row in t && row != t[0];
      SameRows(s[1..], t[1..]);
      assert s == [s[0]] + s[1..] && t == [t[0]] + t[1..];
    }
  }

  /** There is only one such list, and it is what the query pages through. */
  lemma MatchingIsTheAnswer(rows: seq<AuditRow>, lastId: nat, f: Filter, s: seq<AuditRow>)
    requires Ascending(rows, lastId)
    ensures Answers(s, rows, f) <==> s == Matching(rows, f)
  {
    MatchingAnswers(rows, lastId, f);
    if Answers(s, rows, f) { SameRows(s, Matching(rows, f)); }
  }

  /** The column values of a row, with nothing for what is missing. */
  predicate ShowsRow(e: AuditEntry, row: AuditRow) {
    && e.id == row.id && e.username == row.username && e.operation == row.operation
    && e.result == row.result && e.timestamp == row.timestamp
    && (match row.userId case None => e.userId == 0 case Some(id) => e.userId == id)
    && (match row.target case None => e.target == "" case Some(text) => e.target == text)
    && (match row.details case None => e.details == "" case Some(text) => e.details == text)
  }

  /** The columns have the values that the caller asked for. */
  predicate IsWanted(row: AuditRow, f: Filter) {
    && (f.username == None || f.username == Some(row.username))
    && (f.operation == None || f.operation == Some(row.operation))
    && (f.result == None || f.result == Some(row.result))
  }

  ghost predicate AnswersRequest(s: seq<AuditRow>, rows: seq<AuditRow>, f: Filter) {
    Descending(s) && forall row :: row in s <==> row in rows && IsWanted(row, f)
  }

  /**
   A page shows the wanted rows in descending order from the offset on: 100 of them unless the caller asks
   for another number, and fewer only at their end.
   */
  lemma ReplyShows(rows: seq<AuditRow>, lastId: nat, f: Filter, limit: int, offset: int) returns (wanted: seq<AuditRow>)
    requires Ascending(rows, lastId)
    ensures AnswersRequest(wanted, rows, f)
    ensures var page, n := Reply(rows, f, limit, offset), if limit > 0 then limit else 100;
      var skip := if offset > 0 then offset else 0;
      && (|page| == n || skip + |page| == |wanted| || (page == [] && skip >= |wanted|))
      && |page| <= n
      && forall i :: 0 <= i < |page| ==> skip + i < |wanted| && ShowsRow(page[i], wanted[skip + i])
  {
    wanted := Matching(rows, f);
    WantedAnswer(rows, lastId, f);
    hide Matching;
    hide AnswersRequest;
    var n, skip := if limit <= 0 then 100 else limit, if offset < 0 then 0 else offset;
    PageHas(wanted, n, skip);
    hide Page;
    EntriesShow(Page(wanted, n, skip));
    hide ShowsRow;
    hide Entries;
  }

  lemma WantedAnswer(rows: seq<AuditRow>, lastId: nat, f: Filter)
    requires Ascending(rows, lastId)
    ensures AnswersRequest(Matching(rows, f), rows, f)
  {
    MatchingDescends(rows, lastId, f);
    hide Matching;
    hide Descending;
    forall row ensures row in Matching(rows, f) <==> row in rows && IsWanted(row, f) {
      MatchingHas(rows, f, row);
    }
  }

  lemma EntriesShow(rows: seq<AuditRow>)
    ensures forall i :: 0 <= i < |rows| ==> ShowsRow(Entries(rows)[i], rows[i])
  {
    forall i | 0 <= i < |rows| ensures ShowsRow(Entries(rows)[i], rows[i]) {
      assert Entries(rows)[i] == Entry(rows[i]);
    }
  }

  lemma PageHas<T>(s: seq<T>, n: nat, skip: nat)
    ensures var page := Page(s, n, skip);
      && |page| <= n && (|page| == n || skip + |page| == |s| || (page == [] && skip >= |s|))
      && forall i :: 0 <= i < |page| ==> skip + i < |s| && page[i] == s[skip + i]
  {
  }

  /** What has just been written is the first thing that a query for it shows. */
  lemma JustWritten(rows: seq<AuditRow>, row: AuditRow, f: Filter, limit: int)
    requires IsWanted(row, f)
    ensures var page := Reply(rows + [row], f, limit, 0); page != [] && ShowsRow(page[0], row)
  {
    assert (rows + [row])[..|rows|] == rows;
  }

  // ---- consecutive pages ----

  /** The offset of page n. */
  function PageStart(n: nat, limit: nat): nat { n * limit }

  lemma NextStart(n: nat, limit: nat)
    ensures PageStart(n + 1, limit) == PageStart(n, limit) + limit
  {
  }

  /** Consecutive pages put together, when the statement of page i delivers steps[i] rows. */
  function Pages(rows: seq<AuditRow>, f: Filter, limit: nat, steps: seq<nat>): seq<AuditEntry> {
    if steps == [] then []
    else
      var n := |steps| - 1;
      Pages(rows, f, limit, steps[..n]) + UpTo(Reply(rows, f, limit, PageStart(n, limit)), steps[n])
  }

  /** No page was cut short. */
  predicate Complete(rows: seq<AuditRow>, f: Filter, limit: nat, steps: seq<nat>) {
    steps == [] ||
    (var n := |steps| - 1;
     Complete(rows, f, limit, steps[..n]) && steps[n] >= |Reply(rows, f, limit, PageStart(n, limit))|)
  }

  /** The pages give a prefix of all matching entries, as long as none was cut short; otherwise they are too few. */
  lemma {:induction false} PagesAreAPrefix(rows: seq<AuditRow>, f: Filter, limit: nat, steps: seq<nat>)
    requires limit > 0
    ensures var expected := UpTo(Entries(Matching(rows, f)), PageStart(|steps|, limit));
      && (Complete(rows, f, limit, steps) ==> Pages(rows, f, limit, steps) == expected)
      && (!Complete(rows, f, limit, steps) ==> |Pages(rows, f, limit, steps)| < |expected|)
  {
    if steps == [] {
    } else {
      hide Matching;
      hide Page;
      var n := |steps| - 1;
      PagesAreAPrefix(rows, f, limit, steps[..n]);
      NextStart(n, limit);
      hide PageStart;
      PageContinues(Matching(rows, f), limit, PageStart(n, limit));
      NextPage(Entries(Matching(rows, f)), Pages(rows, f, limit, steps[..n]),
               Reply(rows, f, limit, PageStart(n, limit)), steps[n],
               PageStart(n, limit), PageStart(|steps|, limit), Complete(rows, f, limit, steps[..n]));
      hide Reply;
      hide UpTo;
      hide Entries;
    }
  }

  lemma NextPage<T>(all: seq<T>, have: seq<T>, page: seq<T>, step: nat, from: nat, to: nat, complete: bool)
    requires if complete then have == UpTo(all, from) else |have| < |UpTo(all, from)|
    requires UpTo(all, from) + page == UpTo(all, to)
    ensures complete && step >= |page| ==> have + UpTo(page, step) == UpTo(all, to)
    ensures !(complete && step >= |page|) ==> |have + UpTo(page, step)| < |UpTo(all, to)|
  {
    var before := UpTo(all, from);
    assert |UpTo(all, to)| == |before| + |page|;
    assert |UpTo(page, step)| <= |page| && (UpTo(page, step) == page <==> step >= |page|);
  }

  lemma PageContinues(m: seq<AuditRow>, limit: nat, offset: nat)
    requires limit > 0
    ensures UpTo(Entries(m), offset) + Entries(Page(m, limit, offset)) == UpTo(Entries(m), offset + limit)
  {
  }

  /**
   Enough consecutive pages give every matching entry, newest first, with no gap and no repeat, if and
   only if no page was cut short by a failing step, which the query does not report.
   */
  lemma PagesCoverTheLog(rows: seq<AuditRow>, lastId: nat, f: Filter, limit: nat, steps: seq<nat>)
    requires Ascending(rows, lastId) && limit > 0 && PageStart(|steps|, limit) >= |Matching(rows, f)|
    ensures Answers(Matching(rows, f), rows, f)
    ensures Pages(rows, f, limit, steps) == Entries(Matching(rows, f)) <==> Complete(rows, f, limit, steps)
  {
    PagesAreAPrefix(rows, f, limit, steps);
    MatchingAnswers(rows, lastId, f);
    hide Pages;
    hide Complete;
    hide Answers;
  }

  /**
   An entry written between two requests moves a matching client back by exactly one entry, so its
   next page repeats the last one it has seen; other clients see no difference.
   */
  lemma WriteShiftsPages(rows: seq<AuditRow>, row: AuditRow, f: Filter, limit: int, offset: nat)
    requires offset > 0
    ensures Reply(rows + [row], f, limit, offset) ==
        Reply(rows, f, limit, if Matches(row, f) then offset - 1 else offset)
  {
    assert (rows + [row])[..|rows|] == rows;
    var m := Matching(rows, f);
    if Matches(row, f) {
      assert Matching(rows + [row], f) == [row] + m;
      assert forall k :: 0 <= k <= |m| ==> ([row] + m)[k + 1..] == m[k..];
      assert forall j, k :: 0 <= j <= k <= |m| ==> ([row] + m)[j + 1..k + 1] == m[j..k];
    } else {
      assert Matching(rows + [row], f) == m;
    }
  }

  // ---- pruning ----

  lemma {:induction false} KeptHas(rows: seq<AuditRow>, now: Time, days: nat, row: AuditRow)
    ensures row in Kept(rows, now, days) <==> row in rows && !Outdated(row, now, days)
  {
    if rows == [] {
    } else {
      KeptHas(rows[1..], now, days, row);
      assert rows == [rows[0]] + rows[1..];
    }
  }

  lemma AscendingCons(first: AuditRow, rest: seq<AuditRow>, lastId: nat)
    requires Ascending(rest, lastId) && 0 < first.id <= lastId && forall row :: row in rest ==> first.id < row.id
    ensures Ascending([first] + rest, lastId)
  {
  }

  lemma {:induction false} KeptAscending(rows: seq<AuditRow>, lastId: nat, now: Time, days: nat)
    requires Ascending(rows, lastId)
    ensures Ascending(Kept(rows, now, days), lastId)
  {
    hide Outdated;
    if rows == [] {
    } else {
      assert Ascending(rows[1..], lastId);
      KeptAscending(rows[1..], lastId, now, days);
      forall row | row in Kept(rows[1..], now, days) ensures rows[0].id < row.id {
        KeptHas(rows[1..], now, days, row);
      }
      AscendingCons(rows[0], Kept(rows[1..], now, days), lastId);
    }
  }

  lemma OutdatedMeansOlder(row: AuditRow, written: Time, now: Time, days: nat)
    requires row.timestamp == Format(written)
    ensures Outdated(row, now, days) <==> written < now - days * SECONDS_PER_DAY
  {
    hide Format;
    hide Precedes;
    var cutoff := now - days * SECONDS_PER_DAY;
    if cutoff >= MIN_TIME {
      TextOrderIsTimeOrder(written, cutoff);
    }
  }

  /** An entry is removed exactly when it was written more than the given number of days ago. */
  lemma PruneIsExact(rows: seq<AuditRow>, now: Time, days: nat, row: AuditRow, written: Time)
    requires row in rows && row.timestamp == Format(written)
    ensures row in Kept(rows, now, days) <==> written >= now - days * SECONDS_PER_DAY
  {
    KeptHas(rows, now, days, row);
    OutdatedMeansOlder(row, written, now, days);
    hide Outdated;
    hide Format;
  }

  /** The entries carry the times at which they were written, and the clock did not go back. */
  ghost predicate Stamped(rows: seq<AuditRow>, times: seq<Time>) {
    && |rows| == |times|
    && (forall i :: 0 <= i < |rows| ==> rows[i].timestamp == Format(times[i]))
    && forall i, j :: 0 <= i < j < |times| ==> times[i] <= times[j]
  }

  /** Under a clock that does not go back, pruning drops the oldest entries: what remains is a suffix. */
  lemma {:induction false} PruneKeepsASuffix(rows: seq<AuditRow>, times: seq<Time>, now: Time, days: nat)
    returns (k: nat)
    requires Stamped(rows, times)
    ensures k <= |rows| && Kept(rows, now, days) == rows[k..]
    ensures forall i :: 0 <= i < |rows| ==> (i < k <==> times[i] < now - days * SECONDS_PER_DAY)
  {
    hide Outdated;
    hide Format;
    if rows == [] {
      k := 0;
    } else {
      OutdatedMeansOlder(rows[0], times[0], now, days);
      var rest := times[1..];
      assert forall i :: 0 <= i < |rest| ==> rest[i] >= times[0];
      var k' := PruneKeepsASuffix(rows[1..], rest, now, days);
      if Outdated(rows[0], now, days) {
        k := k' + 1;
      } else {
        k := 0;
        assert rows == [rows[0]] + rows[1..];
      }
    }
  }

  /** Pages already read are not disturbed by pruning, as long as they hold no removed entry. */
  lemma {:induction false} PruneKeepsNewPages(rows: seq<AuditRow>, k: nat, f: Filter)
    requires k <= |rows|
    ensures Matching(rows[k..], f) <= Matching(rows, f)
  {
    if k < |rows| {
      PruneKeepsNewPages(rows[..|rows| - 1], k, f);
      assert rows[k..][..|rows[k..]| - 1] == rows[..|rows| - 1][k..];
    } else {
      assert rows[k..] == [];
    }
  }
}
