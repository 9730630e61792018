/** The SQL store against the memory store: one call, and whole runs from empty tables. */
module AuditSqlRuns {
  import opened Common
  import opened AuditChain
  import opened AuditLog
  import opened AuditRuns
  import opened AuditSql

  // ---- one call -----------------------------------------------------------------------------------

  /** Whatever order a SELECT breaks ties in, it sees the memory log whenever that verifies. */
  lemma SelectSeesMemoryLog(c: Crypto, t: Tables, log: Log, listed: seq<Event>)
    requires Refines(t, log) && Lists(t.rows, listed)
    ensures Sound(c, Log(listed, t.state.value)) <==> Sound(c, log)
    ensures Sound(c, log) ==> listed == log.events
  {
    IgnoresTime(c, log, ZERO_TIME);
    IgnoresTime(c, Log(log.events, t.state.value), ZERO_TIME);
    StateFaultIff(c, log.events, log.chain);
    StateFaultIff(c, log.events, t.state.value);
    if Sound(c, Log(listed, t.state.value)) {
      SoundListingIsStrict(c, t.rows, Log(listed, t.state.value));
      ListingUnique(t.rows, listed, log.events);
    }
    if Sound(c, log) {
      SoundListingIsStrict(c, t.rows, log);
      ListingUnique(t.rows, log.events, listed);
    }
  }

  lemma SameFault(c: Crypto, a: Log, b: Log)
    requires SameButTime(a, b)
    ensures FaultOf(c, a) == FaultOf(c, b)
  {
    IgnoresTime(c, a, ZERO_TIME);
    IgnoresTime(c, b, ZERO_TIME);
  }

  lemma SameAppendButTime(c: Crypto, a: Log, b: Log, e: Event)
    requires SameButTime(a, b)
    ensures Append(c, a, e).error == Append(c, b, e).error && SameButTime(Append(c, a, e).log, Append(c, b, e).log)
  {
    SameFault(c, a, b);
    var prepared := WithHash(c, Inc64(a.chain.latestSequence), a.chain.latestHash, e);
    if prepared.Ok? {
      SameFault(c, Extended(a, prepared.value), Extended(b, prepared.value));
    }
  }

  lemma SamePruneButTime(c: Crypto, a: Log, b: Log, before: int)
    requires SameButTime(a, b)
    ensures Prune(c, a, before).error == Prune(c, b, before).error
    ensures Prune(c, a, before).deleted == Prune(c, b, before).deleted
    ensures SameButTime(Prune(c, a, before).log, Prune(c, b, before).log)
  {
    SameFault(c, a, b);
    var k := OldPrefix(a.events, before);
    if k > 0 {
      SameFault(c, Dropped(a, k), Dropped(b, k));
    }
  }

  /** An operation on the listing does what it does on the memory log. */
  lemma SameOnListing(c: Crypto, t: Tables, log: Log, listed: seq<Event>, op: Op)
    requires Refines(t, log) && Lists(t.rows, listed)
    ensures var sql, memory := Apply(c, Log(listed, t.state.value), op), Apply(c, log, op);
            && (sql.error == None <==> memory.error == None)
            && (sql.error == None ==> sql.deleted == memory.deleted && SameButTime(sql.log, memory.log))
  {
    SelectSeesMemoryLog(c, t, log, listed);
    StateFaultIff(c, listed, t.state.value);
    StateFaultIff(c, log.events, log.chain);
    if Sound(c, log) {
      match op
      case AppendOp(e) => SameAppendButTime(c, Log(listed, t.state.value), log, e);
      case PruneOp(before) => SamePruneButTime(c, Log(listed, t.state.value), log, before);
    }
  }

  /** An append that memory accepts although its id is a key of the table. */
  ghost predicate Duplicate(c: Crypto, t: Tables, log: Log, op: Op) {
    op.AppendOp? && op.event.id in t.rows && Appendable(c, log, op.event)
  }

  /** A prune that fails in memory and leaves a changed log, which the transaction rolls back. */
  ghost predicate Damages(c: Crypto, log: Log, op: Op) {
    && op.PruneOp? && Sound(c, log) && !CutoffSplits(log.events, op.before)
    && var k := OldPrefix(log.events, op.before); k > 0 && log.events[k - 1].sequence <= 0
  }

  lemma RefusedChangesNothing(c: Crypto, log: Log, op: Op)
    requires Apply(c, log, op).error != None
    ensures Apply(c, log, op).log == log <==> !Damages(c, log, op)
    ensures Damages(c, log, op) ==> |Apply(c, log, op).log.events| < |log.events|
  {
    match op
    case AppendOp(e) => AppendAllOrNothing(c, log, e);
    case PruneOp(before) =>
      PruneLeavesDamageIff(c, log, before);
      StateFaultIff(c, log.events, log.chain);
  }

  lemma RefinesLength(t: Tables, log: Log)
    requires Refines(t, log)
    ensures |log.events| == |t.rows|
  {
    ListingLength(t.rows, log.events);
  }

  /**
   From tables that hold a memory log, a call on the store answers as memory does if and only if it is not an append
   of a stored id that memory accepts. The tables then hold the log that memory reaches, unless memory itself is left
   changed by a failed prune; in those two cases they do not.
   */
  lemma CallSimulatesMemory(c: Crypto, t: Tables, log: Log, op: Op, listed: seq<Event>, after: Tables, ok: bool,
                            deleted: nat)
    requires Refines(t, log) && SqlCall(c, t, op, listed, after, ok, deleted)
    ensures (ok <==> Apply(c, log, op).error == None) <==> !Duplicate(c, t, log, op)
    ensures ok ==> deleted == Apply(c, log, op).deleted
    ensures Refines(after, Apply(c, log, op).log) <==> !Duplicate(c, t, log, op) && !Damages(c, log, op)
  {
    var memory := Apply(c, log, op);
    SameOnListing(c, t, log, listed, op);
    if op.AppendOp? {
      AppendAllOrNothing(c, log, op.event);
    }
    if memory.error != None {
      RefusedChangesNothing(c, log, op);
    }
    RefinesLength(t, log);
    if Refines(after, memory.log) {
      RefinesLength(after, memory.log);
    }
    if ok {
      RefinesSame(after, Apply(c, Log(listed, t.state.value), op).log, memory.log);
      DamageIsRefused(c, log, op);
    }
  }

  lemma RefinesSame(t: Tables, a: Log, b: Log)
    requires Refines(t, a) && SameButTime(a, b)
    ensures Refines(t, b)
  {
  }

  lemma DamageIsRefused(c: Crypto, log: Log, op: Op)
    ensures Damages(c, log, op) ==> Apply(c, log, op).error != None
  {
    if op.PruneOp? {
      PruneLeavesDamageIff(c, log, op.before);
    }
  }

  // ---- whole runs -----------------------------------------------------------------------------------

  /** Calls on a store that starts with empty tables: the tables between them, what each SELECT saw, and the answers. */
  datatype SqlRun = SqlRun(ops: seq<Op>, tables: seq<Tables>, listed: seq<seq<Event>>, oks: seq<bool>,
                           deleted: seq<nat>)

  ghost predicate CallAt(c: Crypto, r: SqlRun, i: nat)
    requires |r.tables| == |r.ops| + 1 && |r.listed| == |r.oks| == |r.deleted| == |r.ops| && i < |r.ops|
  {
    SqlCall(c, r.tables[i], r.ops[i], r.listed[i], r.tables[i + 1], r.oks[i], r.deleted[i])
  }

  ghost predicate IsSqlRun(c: Crypto, r: SqlRun) {
    && |r.tables| == |r.ops| + 1 && |r.listed| == |r.oks| == |r.deleted| == |r.ops|
    && r.tables[0] == EMPTY_TABLES && forall i :: 0 <= i < |r.ops| ==> CallAt(c, r, i)
  }

  /** What memory answers to call `i` of the same calls. */
  ghost function MemoryAnswer(c: Crypto, ops: seq<Op>, i: nat): Outcome
    requires i < |ops|
  {
    Apply(c, Run(c, ops[..i]), ops[i])
  }

  ghost predicate AgreesAt(c: Crypto, r: SqlRun, i: nat)
    requires IsSqlRun(c, r) && i < |r.ops|
  {
    var memory := MemoryAnswer(c, r.ops, i);
    (r.oks[i] <==> memory.error == None) && (r.oks[i] ==> r.deleted[i] == memory.deleted)
  }

  /** Call `i` appends an id that is a key of the table, to a log that memory would extend. */
  ghost predicate DuplicateAt(c: Crypto, r: SqlRun, i: nat)
    requires IsSqlRun(c, r) && i < |r.ops|
  {
    Duplicate(c, r.tables[i], Run(c, r.ops[..i]), r.ops[i])
  }

  lemma RunStep(c: Crypto, ops: seq<Op>, i: nat)
    requires i < |ops|
    ensures Run(c, ops[..i + 1]) == MemoryAnswer(c, ops, i).log
  {
    assert ops[..i + 1][..i] == ops[..i];
  }

  /** No log that a run reaches can be damaged by a prune. */
  lemma RunsAreNotDamaged(c: Crypto, ops: seq<Op>, op: Op)
    ensures !Damages(c, Run(c, ops), op)
  {
    RunsHavePositiveNumbers(c, ops);
  }

  /** One call of a run, from tables that hold the memory log. */
  lemma StepSimulatesMemory(c: Crypto, r: SqlRun, i: nat)
    requires IsSqlRun(c, r) && i < |r.ops| && Refines(r.tables[i], Run(c, r.ops[..i]))
    ensures AgreesAt(c, r, i) <==> !DuplicateAt(c, r, i)
    ensures !DuplicateAt(c, r, i) ==> Refines(r.tables[i + 1], MemoryAnswer(c, r.ops, i).log)
  {
    assert CallAt(c, r, i);
    var log := Run(c, r.ops[..i]);
    RunsAreNotDamaged(c, r.ops[..i], r.ops[i]);
    CallSimulatesMemory(c, r.tables[i], log, r.ops[i], r.listed[i], r.tables[i + 1], r.oks[i], r.deleted[i]);
  }

  lemma EmptyRefines(c: Crypto, r: SqlRun)
    requires IsSqlRun(c, r)
    ensures Refines(r.tables[0], Run(c, r.ops[..0]))
  {
    assert r.ops[..0] == [];
    assert Refines(EMPTY_TABLES, EMPTY_LOG);
  }

  /** As long as nothing is duplicated, or as long as the answers agree, the tables hold the memory log. */
  lemma {:induction false} RunSimulatesMemory(c: Crypto, r: SqlRun, n: nat)
    requires IsSqlRun(c, r) && n <= |r.ops|
    requires forall i :: 0 <= i < n ==> AgreesAt(c, r, i) || !DuplicateAt(c, r, i)
    ensures Refines(r.tables[n], Run(c, r.ops[..n]))
  {
    if n == 0 {
      EmptyRefines(c, r);
    } else {
      RunSimulatesMemory(c, r, n - 1);
      StepSimulatesMemory(c, r, n - 1);
      RunStep(c, r.ops, n - 1);
    }
  }

  /**
   From empty tables the SQL store answers every call of a run as the memory store does if and only if no call appends
   a stored id that memory would accept; then after every call the tables hold the memory log.
   */
  lemma SqlRefinesMemory(c: Crypto, r: SqlRun)
    requires IsSqlRun(c, r)
    ensures (forall i :: 0 <= i < |r.ops| ==> AgreesAt(c, r, i)) <==>
            (forall i :: 0 <= i < |r.ops| ==> !DuplicateAt(c, r, i))
    ensures (forall i :: 0 <= i < |r.ops| ==> AgreesAt(c, r, i)) ==>
              forall i :: 0 <= i <= |r.ops| ==> Refines(r.tables[i], Run(c, r.ops[..i]))
  {
    if forall i :: 0 <= i < |r.ops| ==> AgreesAt(c, r, i) {
      forall i | 0 <= i <= |r.ops|
        ensures Refines(r.tables[i], Run(c, r.ops[..i]))
      {
        RunSimulatesMemory(c, r, i);
      }
      forall i | 0 <= i < |r.ops|
        ensures !DuplicateAt(c, r, i)
      {
        RunSimulatesMemory(c, r, i);
        StepSimulatesMemory(c, r, i);
      }
    }
    if forall i :: 0 <= i < |r.ops| ==> !DuplicateAt(c, r, i) {
      forall i | 0 <= i < |r.ops|
        ensures AgreesAt(c, r, i)
      {
        RunSimulatesMemory(c, r, i);
        StepSimulatesMemory(c, r, i);
      }
    }
  }

  // ---- new ids suffice --------------------------------------------------------------------------------

  /** No two appends carry the same id. */
  ghost predicate NewIds(ops: seq<Op>) {
    forall i, j :: 0 <= i < j < |ops| && ops[i].AppendOp? && ops[j].AppendOp? ==> ops[i].event.id != ops[j].event.id
  }

  /** Every event of a log was appended under its id. */
  lemma {:induction false} EventWasAppended(c: Crypto, ops: seq<Op>, e: Event) returns (k: nat)
    requires e in Run(c, ops).events
    ensures k < |ops| && ops[k].AppendOp? && ops[k].event.id == e.id
  {
    var n := |ops| - 1;
    var log := Run(c, ops[..n]);
    if e in log.events {
      k := EventWasAppended(c, ops[..n], e);
    } else {
      k := n;
      RunsHavePositiveNumbers(c, ops[..n]);
      match ops[n]
      case AppendOp(event) => AppendEquals(c, log, event);
      case PruneOp(before) => PruneEquals(c, log, before);
    }
  }

  lemma StoredIdIsOld(c: Crypto, ops: seq<Op>, n: nat, e: Event)
    requires NewIds(ops) && n < |ops| && ops[n].AppendOp? && e in Run(c, ops[..n]).events
    ensures e.id != ops[n].event.id
  {
    var k := EventWasAppended(c, ops[..n], e);
    assert ops[..n][k] == ops[k];
  }

  lemma {:induction false} NewIdsNeverDuplicate(c: Crypto, r: SqlRun, n: nat)
    requires IsSqlRun(c, r) && NewIds(r.ops) && n <= |r.ops|
    ensures forall i :: 0 <= i < n ==> !DuplicateAt(c, r, i)
  {
    if n > 0 {
      NewIdsNeverDuplicate(c, r, n - 1);
      RunSimulatesMemory(c, r, n - 1);
      var rows, op := r.tables[n - 1].rows, r.ops[n - 1];
      if op.AppendOp? && op.event.id in rows {
        assert IsRow(rows, rows[op.event.id]);
        StoredIdIsOld(c, r.ops, n - 1, rows[op.event.id]);
      }
    }
  }

  /** With new ids the two stores agree on every run. */
  lemma NewIdsRefine(c: Crypto, r: SqlRun)
    requires IsSqlRun(c, r) && NewIds(r.ops)
    ensures forall i :: 0 <= i < |r.ops| ==> AgreesAt(c, r, i)
    ensures forall i :: 0 <= i <= |r.ops| ==> Refines(r.tables[i], Run(c, r.ops[..i]))
  {
    NewIdsNeverDuplicate(c, r, |r.ops|);
    SqlRefinesMemory(c, r);
  }

  /** After an accepted append to an empty log the id is a key of any table that holds the log. */
  lemma AppendedIdIsKey(c: Crypto, e: Event, t: Tables)
    requires c.canonical(e.metadata).Some? && Refines(t, Append(c, EMPTY_LOG, e).log)
    ensures e.id in t.rows
  {
    RunsHavePositiveNumbers(c, []);
    AppendAllOrNothing(c, EMPTY_LOG, e);
    AppendEquals(c, EMPTY_LOG, e);
    var events := Append(c, EMPTY_LOG, e).log.events;
    assert events[0] in events;
    assert IsRow(t.rows, events[0]);
  }

  /** The failing input: memory appends an event twice, the table refuses the second. */
  lemma SecondAppendIsRefused(c: Crypto, e: Event, r: SqlRun)
    requires IsSqlRun(c, r) && r.ops == [AppendOp(e), AppendOp(e)] && c.canonical(e.metadata).Some?
    ensures r.oks == [true, false] && MemoryAnswer(c, r.ops, 0).error == None && MemoryAnswer(c, r.ops, 1).error == None
  {
    MemoryTakesBoth(c, e, r.ops);
    RunSimulatesMemory(c, r, 0);
    StepSimulatesMemory(c, r, 0);
    assert r.ops[..0] == [];
    AppendedIdIsKey(c, e, r.tables[1]);
    assert CallAt(c, r, 1);
  }

  /** The two calls that make such a run. */
  method AppendTwice(c: Crypto, e: Event, now: int, later: int)
    returns (first: Option<SqlError>, second: Option<SqlError>, ghost r: SqlRun)
    requires c.canonical(e.metadata).Some?
    ensures first == None && second != None
    ensures IsSqlRun(c, r) && r.ops == [AppendOp(e), AppendOp(e)] && r.oks == [true, false]
  {
    var store := new SqlAuditStore(c);
    ghost var t0 := store.View();
    ghost var listed1, listed2;
    first, listed1 := store.CreateAuditEvent(e, now);
    ghost var t1 := store.View();
    second, listed2 := store.CreateAuditEvent(e, later);
    r := SqlRun([AppendOp(e), AppendOp(e)], [t0, t1, store.View()], [listed1, listed2],
                [first == None, second == None], [0, 0]);
    assert CallAt(c, r, 0) && CallAt(c, r, 1);
    SecondAppendIsRefused(c, e, r);
  }

  lemma MemoryTakesBoth(c: Crypto, e: Event, ops: seq<Op>)
    requires ops == [AppendOp(e), AppendOp(e)] && c.canonical(e.metadata).Some?
    ensures MemoryAnswer(c, ops, 0).error == None && MemoryAnswer(c, ops, 1).error == None
  {
    var first := Append(c, EMPTY_LOG, e);
    assert ops[..0] == [];
    RunStep(c, ops, 0);
    RunsHavePositiveNumbers(c, []);
    AppendAllOrNothing(c, EMPTY_LOG, e);
    AppendAllOrNothing(c, first.log, e);
  }
}
