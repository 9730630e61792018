/** The audit log in SQL tables: every statement is one change of a row set. */
module AuditSql {
  import opened Common
  import opened AuditChain
  import opened AuditLog
  import opened AuditRuns

  /** The audit_events table by primary key. */
  type Table = map<string, Event>

  ghost predicate Keyed(rows: Table) {
    forall id :: id in rows ==> rows[id].id == id
  }

  ghost predicate Ordered(events: seq<Event>) {
    forall i, j :: 0 <= i < j < |events| ==> events[i].sequence <= events[j].sequence
  }

  ghost predicate DistinctIds(events: seq<Event>) {
    forall i, j :: 0 <= i < j < |events| ==> events[i].id != events[j].id
  }

  predicate IsRow(rows: Table, e: Event) {
    e.id in rows && rows[e.id] == e
  }

  /** `events` is an answer to SELECT ... ORDER BY sequence. */
  ghost predicate Lists(rows: Table, events: seq<Event>) {
    && Ordered(events) && DistinctIds(events)
    && forall e :: e in events <==> IsRow(rows, e)
  }

  method InsertBySequence(events: seq<Event>, e: Event) returns (r: seq<Event>)
    requires Ordered(events) && DistinctIds(events) && forall i :: 0 <= i < |events| ==> events[i].id != e.id
    ensures Ordered(r) && DistinctIds(r)
    ensures forall x :: x in r <==> x in events || x == e
  {
    var k := 0;
    while k < |events| && events[k].sequence <= e.sequence
      invariant 0 <= k <= |events|
      invariant k > 0 ==> events[k - 1].sequence <= e.sequence
    {
      k := k + 1;
    }
    r := events[..k] + [e] + events[k..];
    InsertedAt(events, e, k);
    InsertedElements(events, e, k);
  }

  lemma InsertedAt(events: seq<Event>, e: Event, k: nat)
    requires Ordered(events) && DistinctIds(events) && forall i :: 0 <= i < |events| ==> events[i].id != e.id
    requires k <= |events|
    requires k > 0 ==> events[k - 1].sequence <= e.sequence
    requires k < |events| ==> e.sequence < events[k].sequence
    ensures var r := events[..k] + [e] + events[k..];
            Ordered(r) && DistinctIds(r)
  {
    var r := events[..k] + [e] + events[k..];
    forall i, j | 0 <= i < j < |r|
      ensures r[i].sequence <= r[j].sequence && r[i].id != r[j].id
    {
      var x := if i < k then events[i] else if i == k then e else events[i - 1];
      var y := if j < k then events[j] else if j == k then e else events[j - 1];
      assert r[i] == x && r[j] == y;
    }
  }

  lemma InsertedElements(events: seq<Event>, e: Event, k: nat)
    requires k <= |events|
    ensures forall x :: x in events[..k] + [e] + events[k..] <==> x in events || x == e
  {
    assert events == events[..k] + events[k..];
  }

  method ListBySequence(rows: Table) returns (events: seq<Event>)
    requires Keyed(rows)
    ensures Lists(rows, events)
  {
    events := [];
    var todo := rows.Keys;
    while todo != {}
      invariant todo <= rows.Keys
      invariant Ordered(events) && DistinctIds(events)
      invariant forall e :: e in events <==> IsRow(rows, e) && e.id !in todo
      decreases todo
    {
      var id :| id in todo;
      events := InsertBySequence(events, rows[id]);
      todo := todo - {id};
    }
  }

  // ---- row counts -----------------------------------------------------------------------------

  ghost predicate StrictlyNumbered(events: seq<Event>) {
    forall i, j :: 0 <= i < j < |events| ==> events[i].sequence < events[j].sequence
  }

  ghost function IdsOf(events: seq<Event>): set<string> {
    set e | e in events :: e.id
  }

  lemma {:induction false} DistinctIdsCount(events: seq<Event>)
    requires DistinctIds(events)
    ensures |IdsOf(events)| == |events|
  {
    if events != [] {
      var n := |events| - 1;
      DistinctIdsCount(events[..n]);
      assert events == events[..n] + [events[n]];
      assert IdsOf(events) == IdsOf(events[..n]) + {events[n].id};
    }
  }

  /** Distinct keys make the listing as long as the table. */
  lemma ListingLength(rows: Table, events: seq<Event>)
    requires Keyed(rows) && Lists(rows, events)
    ensures |events| == |rows|
  {
    DistinctIdsCount(events);
    forall id | id in rows.Keys
      ensures id in IdsOf(events)
    {
      assert IsRow(rows, rows[id]);
    }
    assert IdsOf(events) == rows.Keys;
  }

  /** Two strictly numbered lists of the same events are the same list. */
  lemma {:induction false} StrictUnique(a: seq<Event>, b: seq<Event>)
    requires StrictlyNumbered(a) && StrictlyNumbered(b) && forall x :: x in a <==> x in b
    ensures a == b
    decreases |a|
  {
    assert b != [] ==> b[0] in a;
    if a != [] {
      assert a[0] in b;
      assert b[0] in a;
      assert a[0] == b[0];
      TailElements(a);
      TailElements(b);
      StrictUnique(a[1..], b[1..]);
      assert a == [a[0]] + a[1..] && b == [b[0]] + b[1..];
    }
  }

  lemma TailElements(s: seq<Event>)
    requires StrictlyNumbered(s) && s != []
    ensures StrictlyNumbered(s[1..]) && forall x :: x in s[1..] <==> x in s && x != s[0]
  {
    assert s == [s[0]] + s[1..];
  }

  lemma ListingUnique(rows: Table, a: seq<Event>, b: seq<Event>)
    requires Lists(rows, a) && Lists(rows, b) && StrictlyNumbered(a)
    ensures a == b
  {
    forall i, j | 0 <= i < j < |b|
      ensures b[i].sequence < b[j].sequence
    {
      assert b[i] in b && b[j] in b;
      assert b[i] in a && b[j] in a;
    }
    StrictUnique(a, b);
  }

  /** A listing that verifies is numbered strictly: sorted order leaves no room for a wrap inside it. */
  lemma SoundListingIsStrict(c: Crypto, rows: Table, log: Log)
    requires Lists(rows, log.events) && Sound(c, log)
    ensures StrictlyNumbered(log.events)
  {
    var cp := CheckpointOf(log.chain);
    forall i | 0 <= i < |log.events| - 1
      ensures log.events[i].sequence < log.events[i + 1].sequence
    {
      assert Linked(c, log.events, cp, i) && Linked(c, log.events, cp, i + 1);
      assert SequenceAt(cp, i + 1) == Inc64(SequenceAt(cp, i));
    }
    StrictFromSteps(log.events);
  }

  lemma {:induction false} StrictFromSteps(events: seq<Event>)
    requires forall i :: 0 <= i < |events| - 1 ==> events[i].sequence < events[i + 1].sequence
    ensures StrictlyNumbered(events)
    decreases |events|
  {
    if |events| > 1 {
      var n := |events| - 1;
      StrictFromSteps(events[..n]);
      forall i, j | 0 <= i < j < |events|
        ensures events[i].sequence < events[j].sequence
      {
        if j == n && i < n - 1 {
          assert events[..n][i].sequence < events[..n][n - 1].sequence;
        } else if j < n {
          assert events[..n][i].sequence < events[..n][j].sequence;
        }
      }
    }
  }

  function DeleteThrough(rows: Table, sequence: int): Table {
    map id | id in rows && rows[id].sequence > sequence :: rows[id]
  }

  lemma SuffixElements(events: seq<Event>, k: nat)
    requires StrictlyNumbered(events) && 0 < k <= |events|
    ensures StrictlyNumbered(events[k..])
    ensures forall x :: x in events[k..] <==> x in events && x.sequence > events[k - 1].sequence
  {
    forall x | x in events && x.sequence > events[k - 1].sequence
      ensures x in events[k..]
    {
      var i :| 0 <= i < |events| && events[i] == x;
      assert events[k..][i - k] == x;
    }
  }

  /** Deleting up to the number of the last dropped event removes exactly the dropped events. */
  lemma DeleteThroughDropsPrefix(rows: Table, events: seq<Event>, k: nat)
    requires Keyed(rows) && Lists(rows, events) && StrictlyNumbered(events) && 0 < k <= |events|
    ensures var after := DeleteThrough(rows, events[k - 1].sequence);
            Keyed(after) && Lists(after, events[k..]) && |rows| - |after| == k
  {
    var after := DeleteThrough(rows, events[k - 1].sequence);
    SuffixElements(events, k);
    forall e
      ensures e in events[k..] <==> IsRow(after, e)
    {
      assert e in events <==> IsRow(rows, e);
    }
    ListingLength(rows, events);
    ListingLength(after, events[k..]);
  }

  // ---- the store ------------------------------------------------------------------------------

  /** The two tables: the events by primary key and the one row of chain state, if it is there. */
  datatype Tables = Tables(rows: Table, state: Option<ChainState>)

  const EMPTY_TABLES := Tables(map[], Some(EMPTY_CHAIN))

  /** The tables hold the memory log, up to the time of the last change. */
  ghost predicate Refines(t: Tables, log: Log) {
    && Keyed(t.rows) && Lists(t.rows, log.events)
    && t.state.Some? && t.state.value.(updatedAt := ZERO_TIME) == log.chain.(updatedAt := ZERO_TIME)
  }

  /**
   One transaction: all statements or none. `listed` is the answer its SELECT got. It goes through exactly when the
   state row is there, an appended id is not a key yet and the operation is accepted on the listing.
   */
  ghost predicate SqlCall(c: Crypto, before: Tables, op: Op, listed: seq<Event>, after: Tables, ok: bool,
                          deleted: nat)
  {
    && Lists(before.rows, listed) && Keyed(after.rows)
    && (ok <==> before.state.Some? && (op.AppendOp? ==> op.event.id !in before.rows)
                && Apply(c, Log(listed, before.state.value), op).error == None)
    && (!ok ==> after == before && deleted == 0)
    && (ok ==>
          var out := Apply(c, Log(listed, before.state.value), op);
          deleted == out.deleted && Refines(after, out.log))
  }

  datatype SqlError = StateMissing | Refused(error: AuditError) | DuplicateId | RowCountMismatch

  /** The comparison of affected rows with the expected count. */
  function RowCountError(affected: int, expected: int): Option<SqlError> {
    if affected != expected then Some(RowCountMismatch) else None
  }

  /** Verification does not look at the time of the last change. */
  lemma IgnoresTime(c: Crypto, log: Log, now: int)
    ensures StateFault(c, log.events, log.chain.(updatedAt := now)) == StateFault(c, log.events, log.chain)
  {
  }

  /** The state row after a prune. */
  function Checkpointed(st: ChainState, last: Event, now: int): ChainState {
    st.(checkpointSequence := last.sequence, checkpointHash := last.eventHash, updatedAt := now)
  }

  /** The DELETE of a prune removes the expected number of rows, and the tables then hold the shorter log. */
  lemma PrunedTables(c: Crypto, t: Tables, events: seq<Event>, k: nat, now: int)
    requires Keyed(t.rows) && Lists(t.rows, events) && t.state.Some? && 0 < k <= |events|
    requires StateFault(c, events, t.state.value) == NoFault
    ensures var last := events[k - 1];
            var rows, chain := DeleteThrough(t.rows, last.sequence), Checkpointed(t.state.value, last, now);
            var log := Dropped(Log(events, t.state.value), k);
            && |t.rows| - |rows| == k && Refines(Tables(rows, Some(chain)), log)
            && StateFault(c, events[k..], chain) == FaultOf(c, log)
  {
    var log := Log(events, t.state.value);
    StateFaultIff(c, events, t.state.value);
    SoundListingIsStrict(c, t.rows, log);
    DeleteThroughDropsPrefix(t.rows, events, k);
    IgnoresTime(c, Dropped(log, k), now);
  }

  class SqlAuditStore {
    const crypto: Crypto
    var rows: Table
    var state: Option<ChainState>

    ghost predicate Valid()
      reads this
    {
      Keyed(rows)
    }

    constructor (crypto: Crypto)
      ensures Valid() && this.crypto == crypto && rows == map[] && state == Some(EMPTY_CHAIN)
    {
      this.crypto := crypto;
      rows := map[];
      state := Some(EMPTY_CHAIN);
    }

    function View(): Tables
      reads this
    {
      Tables(rows, state)
    }

    method CreateAuditEvent(event: Event, now: int) returns (error: Option<SqlError>, ghost listed: seq<Event>)
      requires Valid()
      modifies this
      ensures Valid() && SqlCall(crypto, old(View()), AppendOp(event), listed, View(), error == None, 0)
      ensures error == None ==>
                && event.id in rows && rows == old(rows)[event.id := rows[event.id]]
                && old(state).Some? && state.Some? && state.value.updatedAt == now
                && Appended(Log(listed, old(state).value), event, rows[event.id],
                            state.value.(updatedAt := event.createdAt))
    {
      var events := ListBySequence(rows);
      listed := events;
      if state == None {
        return Some(StateMissing), listed;
      }
      var report := VerifyState(crypto, events, state.value);
      if !report.valid {
        return Some(Refused(Integrity(report.failureReason))), listed;
      }
      var prepared := WithHash(crypto, Inc64(report.lastSequence), report.lastEventHash, event);
      if prepared.Err? {
        return Some(Refused(Unhashable(prepared.error))), listed;
      }
      if prepared.value.id in rows {
        return Some(DuplicateId), listed;
      }
      var chain := state.value.(latestSequence := prepared.value.sequence, latestHash := prepared.value.eventHash,
                                updatedAt := now);
      var after := VerifyState(crypto, events + [prepared.value], chain);
      StateFaultIff(crypto, events, state.value);
      IgnoresTime(crypto, Extended(Log(events, state.value), prepared.value), now);
      if !after.valid {
        return Some(Refused(Integrity(after.failureReason))), listed;
      }
      ExtendedListing(crypto, rows, Log(events, state.value), prepared.value);
      rows := rows[prepared.value.id := prepared.value];
      state := Some(chain);
      return None, listed;
    }

    /** DELETE ... WHERE sequence <= last dropped, checked by row count, in one transaction. */
    method DeleteAuditEventsBefore(before: int, now: int)
      returns (deleted: nat, error: Option<SqlError>, ghost listed: seq<Event>)
      requires Valid()
      modifies this
      ensures Valid() && SqlCall(crypto, old(View()), PruneOp(before), listed, View(), error == None, deleted)
      ensures error != Some(RowCountMismatch)
      ensures deleted == 0 ==> View() == old(View())
      ensures deleted > 0 ==>
                && deleted <= |listed| && old(state).Some?
                && var last := listed[deleted - 1];
                   && rows == (map id | id in old(rows) && old(rows)[id].sequence > last.sequence :: old(rows)[id])
                   && state == Some(old(state).value.(checkpointSequence := last.sequence,
                                                      checkpointHash := last.eventHash, updatedAt := now))
    {
      var events := ListBySequence(rows);
      listed := events;
      if state == None {
        return 0, Some(StateMissing), listed;
      }
      var report := VerifyState(crypto, events, state.value);
      if !report.valid {
        return 0, Some(Refused(Integrity(report.failureReason))), listed;
      }
      var deleteCount := CountRetentionPrefix(events, before);
      if deleteCount < 0 {
        return 0, Some(Refused(NonPrefixCutoff)), listed;
      }
      if deleteCount == 0 {
        return 0, None, listed;
      }
      var lastDeleted := events[deleteCount - 1];
      var remaining := DeleteThrough(rows, lastDeleted.sequence);
      PrunedTables(crypto, View(), events, deleteCount, now);
      deleted, error := 0, RowCountError(|rows| - |remaining|, deleteCount);
      if error != None {
        assert false;
        return;
      }
      var chain := Checkpointed(state.value, lastDeleted, now);
      var after := VerifyState(crypto, events[deleteCount..], chain);
      if !after.valid {
        return 0, Some(Refused(Integrity(after.failureReason))), listed;
      }
      rows := remaining;
      state := Some(chain);
      return deleteCount, None, listed;
    }
  }

  /** A prepared event goes to the end of the listing. */
  lemma ExtendedListing(c: Crypto, rows: Table, log: Log, e: Event)
    requires Keyed(rows) && Lists(rows, log.events) && Sound(c, log)
    requires e.id !in rows && e.sequence == Inc64(log.chain.latestSequence) > 0
    ensures Lists(rows[e.id := e], log.events + [e]) && Keyed(rows[e.id := e])
  {
    var after, events := rows[e.id := e], log.events + [e];
    assert forall i :: 0 <= i < |log.events| ==> log.events[i] in log.events;
    assert log.events != [] ==> log.chain.latestSequence == log.events[|log.events| - 1].sequence;
    forall x
      ensures x in events <==> IsRow(after, x)
    {
      assert x in log.events <==> IsRow(rows, x);
    }
  }
}
