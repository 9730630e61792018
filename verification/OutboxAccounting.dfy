/** Job-attempt rows against the counters in the records and the result of RunOnce. */
module OutboxAccounting {
  import opened Common
  import opened OutboxModel
  import opened OutboxProtocol
  import opened OutboxTheorems
  import opened OutboxWhole
  import OutboxLeases

  type Attempts = map<string, JobAttempt>

  function Rows(attempts: Attempts, id: string, status: AttemptStatus): set<string> {
    set r | r in attempts && attempts[r].messageId == id && attempts[r].status == status
  }

  /** The record of one message agrees with the rows written for it. */
  predicate Account(m: Message, attempts: Attempts) {
    && m.status != Failed
    && m.attemptCount == |Rows(attempts, m.id, AttemptFailed)|
    && |Rows(attempts, m.id, Succeeded)| == (if m.status == Completed then 1 else 0)
    && var limit := EffectiveMaxAttempts(m);
       if m.status == DeadLetter then m.attemptCount == limit else m.attemptCount < limit
  }

  ghost predicate AccountInv(s: State) {
    && (forall id :: id in s.outbox ==> s.outbox[id].id == id && Account(s.outbox[id], s.attempts))
    && (forall r :: r in s.attempts ==> s.attempts[r].messageId in s.outbox)
  }

  // ---- rows -----------------------------------------------------------------------------------

  lemma RowsInFields(attempts: Attempts, id: string)
    ensures var rows := set r | r in attempts && attempts[r].messageId == id;
            && Rows(attempts, id, AttemptFailed) == (set r | r in rows && attempts[r].status == AttemptFailed)
            && Rows(attempts, id, Succeeded) == (set r | r in rows && attempts[r].status == Succeeded)
  {
  }

  lemma RowsAfterInsert(attempts: Attempts, row: JobAttempt, id: string, status: AttemptStatus)
    requires row.id !in attempts
    ensures var t := attempts[row.id := row];
            Rows(t, id, status) ==
                Rows(attempts, id, status) + (if row.messageId == id && row.status == status then {row.id} else {})
  {
  }

  lemma RowCountAfterInsert(attempts: Attempts, row: JobAttempt, id: string, status: AttemptStatus)
    requires row.id !in attempts
    ensures |Rows(attempts[row.id := row], id, status)|
         == |Rows(attempts, id, status)| + (if row.messageId == id && row.status == status then 1 else 0)
  {
    RowsAfterInsert(attempts, row, id, status);
  }

  /** A finish moves the counter of its own message and adds the matching row. */
  lemma FinishKeepsAccount(claimed: Message, attempts: Attempts, handlerError: Option<string>,
                           startedAt: int, finishedAt: int, hash: nat, row: string)
    requires Account(claimed, attempts) && claimed.status == Processing && row !in attempts
    ensures Account(Finished(claimed, handlerError, finishedAt, hash),
                    attempts[row := AttemptRow(claimed, handlerError, startedAt, finishedAt, row)])
  {
    var r := AttemptRow(claimed, handlerError, startedAt, finishedAt, row);
    RowCountAfterInsert(attempts, r, claimed.id, AttemptFailed);
    RowCountAfterInsert(attempts, r, claimed.id, Succeeded);
  }

  lemma OtherAccount(m: Message, attempts: Attempts, row: JobAttempt)
    requires Account(m, attempts) && row.id !in attempts && row.messageId != m.id
    ensures Account(m, attempts[row.id := row])
  {
    RowCountAfterInsert(attempts, row, m.id, AttemptFailed);
    RowCountAfterInsert(attempts, row, m.id, Succeeded);
  }

  lemma FreshAccount(s: State, m: Message)
    requires AccountInv(s) && Fresh(m) && m.id !in s.outbox
    ensures Account(m, s.attempts)
  {
    assert Rows(s.attempts, m.id, AttemptFailed) == {};
    assert Rows(s.attempts, m.id, Succeeded) == {};
  }

  /** Replacing one record and adding a row for it keeps the accounts if it keeps that record's account. */
  lemma CommitKeepsAccounts(s: State, t: State, m: Message, row: JobAttempt)
    requires AccountInv(s) && m.id in s.outbox && row.id !in s.attempts && row.messageId == m.id
    requires t.outbox == s.outbox[m.id := m] && t.attempts == s.attempts[row.id := row] && Account(m, t.attempts)
    ensures AccountInv(t)
  {
    forall id | id in t.outbox && id != m.id
      ensures Account(t.outbox[id], t.attempts)
    {
      OtherAccount(s.outbox[id], s.attempts, row);
    }
  }

  lemma FinishStepAccounts(s: State, n: nat, row: string)
    requires AccountInv(s) && Enabled(s, Finish(n, row)) && s.nodes[n].claimed.status == Processing
    requires FinishCommitted(s, n, row) ==> s.outbox[s.nodes[n].claimed.id] == s.nodes[n].claimed
    ensures AccountInv(FinishStep(s, n, row))
  {
    if FinishCommitted(s, n, row) {
      var node := s.nodes[n];
      FinishKeepsAccount(node.claimed, s.attempts, node.handlerError, node.startedAt, node.finishedAt, node.hash, row);
      CommitKeepsAccounts(s, FinishStep(s, n, row), FinishWrite(node),
                          AttemptRow(node.claimed, node.handlerError, node.startedAt, node.finishedAt, row));
    }
  }

  /** Replacing a record by one with the same account keeps the accounts. */
  lemma ReplaceKeepsAccounts(s: State, t: State, m: Message)
    requires AccountInv(s) && m.id in s.outbox && t.attempts == s.attempts && t.outbox == s.outbox[m.id := m]
    requires Account(m, s.attempts)
    ensures AccountInv(t)
  {
  }

  lemma LeaseStepAccounts(s: State, a: Action, message: Message, now: int)
    requires AccountInv(s) && Enabled(s, a) && (a.Recover? || a.Claim?)
    requires s.nodes[a.node].message == message && s.nodes[a.node].now == now && message.id in s.outbox
    requires TokenOf(s.outbox[message.id]) == TokenOf(message) ==> s.outbox[message.id] == message
    ensures AccountInv(Next(s, a))
  {
    if TokenOf(s.outbox[message.id]) == TokenOf(message) {
      ReplaceKeepsAccounts(s, Next(s, a),
                           if a.Recover? then RecoverRecord(message, now) else ClaimRecord(message, now));
    }
  }

  /** Whole comparisons keep the accounts. */
  lemma StepKeepsAccounts(s: State, a: Action)
    requires BodyInv(s) && AccountInv(s) && Enabled(s, a) && WholeRecordStep(s, a)
    ensures AccountInv(Next(s, a))
  {
    if a.Create? {
      FreshAccount(s, a.message);
    } else if a.Recover? || a.Claim? {
      WholeLeaseKeepsAccounts(s, a);
    } else if a.Finish? {
      WholeFinishKeepsAccounts(s, a.node, a.row);
    }
  }

  lemma WholeLeaseKeepsAccounts(s: State, a: Action)
    requires BodyInv(s) && AccountInv(s) && Enabled(s, a) && WholeRecordStep(s, a) && (a.Recover? || a.Claim?)
    ensures AccountInv(Next(s, a))
  {
    assert NodeStored(s, s.nodes[a.node]);
    TokenAndCountDecide(s, s.nodes[a.node].message);
    LeaseStepAccounts(s, a, s.nodes[a.node].message, s.nodes[a.node].now);
  }

  lemma WholeFinishKeepsAccounts(s: State, n: nat, row: string)
    requires BodyInv(s) && AccountInv(s) && Enabled(s, Finish(n, row)) && WholeRecordStep(s, Finish(n, row))
    ensures AccountInv(FinishStep(s, n, row))
  {
    assert OutboxLeases.NodeOk(s.nodes[n]);
    FinishStepAccounts(s, n, row);
  }

  lemma {:induction false} WholePrefixKeepsAccounts(r: Run, i: nat)
    requires IsRun(r) && i <= |r.acts| && forall k :: 0 <= k < i ==> WholeRecordAt(r, k)
    ensures AccountInv(r.states[i])
  {
    if i > 0 {
      WholePrefixKeepsAccounts(r, i - 1);
      WholePrefixKeepsInv(r, i - 1);
      assert StepAt(r, i - 1) && WholeRecordAt(r, i - 1);
      StepKeepsAccounts(r.states[i - 1], r.acts[i - 1]);
    }
  }

  // ---- exactly when attempts are conserved ------------------------------------------------------------

  predicate CountsFailures(s: State, id: string)
    requires id in s.outbox
  {
    s.outbox[id].attemptCount ==
    |set r | r in s.attempts && s.attempts[r].messageId == id && s.attempts[r].status == AttemptFailed|
  }

  /** Every attempt count is the number of failed rows. */
  ghost predicate CountsAgree(s: State) {
    forall id :: id in s.outbox ==> CountsFailures(s, id)
  }

  /**
   The whole account of a message: the attempt count is the number of failed rows, all rows together never
   exceed the limit of the record as created, which is five if it sets none, and the message is dead-lettered
   exactly when its failures reach that limit, completed exactly when it has its one success.
   */
  ghost predicate Accounted(s: State, id: string)
    requires id in s.outbox
  {
    && id in s.history && |s.history[id]| >= 1 && CountsFailures(s, id)
    && var created := s.history[id][0].msg;
       var limit := if created.maxAttempts > 0 then created.maxAttempts else 5;
       var rows := set r | r in s.attempts && s.attempts[r].messageId == id;
       var failures := |set r | r in rows && s.attempts[r].status == AttemptFailed|;
       var successes := |set r | r in rows && s.attempts[r].status == Succeeded|;
       && failures + successes <= limit && successes <= 1
       && (s.outbox[id].status == DeadLetter <==> failures == limit)
       && (s.outbox[id].status == Completed <==> successes == 1)
  }

  ghost predicate AllAccounted(s: State) {
    forall id :: id in s.outbox ==> Accounted(s, id)
  }

  lemma SoundIsAccounted(s: State)
    requires BodyInv(s) && AccountInv(s)
    ensures AllAccounted(s) && CountsAgree(s)
  {
    forall id | id in s.outbox
      ensures Accounted(s, id)
    {
      assert OutboxLeases.RowInv(s, id) && Bodies(s.history[id]);
      CountFixesBody(s.history[id], 0, |s.history[id]| - 1);
      RowsInFields(s.attempts, id);
    }
  }

  /** A compare-and-set that succeeds on another record than the expected one forgets an attempt at once. */
  lemma StaleStepForgets(s: State, a: Action)
    requires BodyInv(s) && AccountInv(s) && Enabled(s, a) && !WholeRecordStep(s, a)
    ensures !CountsAgree(Next(s, a))
  {
    StaleStepFindsMore(s, a);
    if a.Finish? {
      StaleFinishForgets(s, a.node, a.row);
    } else {
      StaleLeaseForgets(s, a);
    }
  }

  /** The record that is expected has fewer attempts than the stored one. */
  predicate Behind(s: State, m: Message) {
    m.id in s.outbox && m.attemptCount < s.outbox[m.id].attemptCount
  }

  lemma StaleLeaseForgets(s: State, a: Action)
    requires AccountInv(s) && Enabled(s, a) && (a.Recover? || a.Claim?) && OutboxLeases.Written(s, a).Some?
    requires Behind(s, s.nodes[a.node].message)
    ensures !CountsAgree(Next(s, a))
  {
    var m := s.nodes[a.node].message;
    assert Account(s.outbox[m.id], s.attempts);
    assert !CountsFailures(Next(s, a), m.id);
  }

  lemma StaleFinishForgets(s: State, n: nat, row: string)
    requires AccountInv(s) && Enabled(s, Finish(n, row)) && FinishCommitted(s, n, row)
    requires Behind(s, s.nodes[n].claimed)
    ensures !CountsAgree(FinishStep(s, n, row))
  {
    var m := s.nodes[n].claimed;
    assert Account(s.outbox[m.id], s.attempts);
    RowCountAfterInsert(s.attempts, FinishRow(s.nodes[n], row), m.id, AttemptFailed);
    assert !CountsFailures(FinishStep(s, n, row), m.id);
  }

  lemma AgreeingIsWholeAt(r: Run, i: nat)
    requires IsRun(r) && i < |r.acts| && BodyInv(r.states[i]) && AccountInv(r.states[i])
    requires CountsAgree(r.states[i + 1])
    ensures WholeRecordAt(r, i)
  {
    assert StepAt(r, i);
    if !WholeRecordStep(r.states[i], r.acts[i]) {
      StaleStepForgets(r.states[i], r.acts[i]);
    }
  }

  lemma {:induction false} AgreeingPrefixIsWhole(r: Run, i: nat)
    requires IsRun(r) && i <= |r.acts| && forall k :: 0 <= k <= i ==> CountsAgree(r.states[k])
    ensures forall k :: 0 <= k < i ==> WholeRecordAt(r, k)
  {
    if i > 0 {
      AgreeingPrefixIsWhole(r, i - 1);
      WholePrefixKeepsInv(r, i - 1);
      WholePrefixKeepsAccounts(r, i - 1);
      AgreeingIsWholeAt(r, i - 1);
    }
  }

  /** At every point of a run with whole comparisons every message is accounted for. */
  lemma AttemptsAccounted(r: Run, i: nat)
    requires IsRun(r) && WholeRun(r) && i <= |r.acts|
    ensures AllAccounted(r.states[i]) && CountsAgree(r.states[i])
  {
    WholePrefixKeepsInv(r, i);
    WholePrefixKeepsAccounts(r, i);
    SoundIsAccounted(r.states[i]);
  }

  /**
   In every run, whatever the clocks show, every attempt count is always the number of failed rows, and every message
   is always accounted for in full, if and only if every compare-and-set compares whole records.
   */
  lemma AccountedIffWhole(r: Run)
    requires IsRun(r)
    ensures (forall i :: 0 <= i <= |r.acts| ==> CountsAgree(r.states[i])) <==> WholeRun(r)
    ensures (forall i :: 0 <= i <= |r.acts| ==> AllAccounted(r.states[i])) <==> WholeRun(r)
  {
    if WholeRun(r) {
      forall i | 0 <= i <= |r.acts|
        ensures AllAccounted(r.states[i]) && CountsAgree(r.states[i])
      {
        AttemptsAccounted(r, i);
      }
    }
    if forall i :: 0 <= i <= |r.acts| ==> AllAccounted(r.states[i]) {
      forall i | 0 <= i <= |r.acts|
        ensures CountsAgree(r.states[i])
      {
        FullIsCounted(r.states[i]);
      }
    }
    if forall i :: 0 <= i <= |r.acts| ==> CountsAgree(r.states[i]) {
      AgreeingPrefixIsWhole(r, |r.acts|);
    }
  }

  lemma FullIsCounted(s: State)
    requires AllAccounted(s)
    ensures CountsAgree(s)
  {
    forall id | id in s.outbox
      ensures CountsFailures(s, id)
    {
      assert Accounted(s, id);
    }
  }

  /** If claims go forward, that is so if and only if every claim that commits finds the record it was listed with. */
  lemma AccountedIffExact(r: Run)
    requires IsRun(r) && ForwardRun(r)
    ensures (forall i :: 0 <= i <= |r.acts| ==> AllAccounted(r.states[i])) <==> ExactRun(r)
  {
    AccountedIffWhole(r);
    WholeRecordsIffExact(r);
  }

  /** Handlers that end strictly after their claims conserve every attempt. */
  lemma LaterHandlersAccount(r: Run)
    requires IsRun(r) && ForwardRun(r) && LaterRun(r)
    ensures forall i :: 0 <= i <= |r.acts| ==> AllAccounted(r.states[i])
  {
    LaterHandlersSuffice(r);
    AccountedIffWhole(r);
  }

  // ---- the result of RunOnce --------------------------------------------------------------------

  function RowsBy(author: map<string, nat>, run: nat): set<string> {
    set r | r in author && author[r] == run
  }

  function ProcessedBy(node: Node): nat {
    match node
    case Listing(_, _) => 0
    case Returned(_, processed, _) => processed
    case _ => node.p.processed
  }

  ghost predicate NodeCount(s: State, node: Node) {
    RunOf(node) in s.runs && ProcessedBy(node) == |RowsBy(s.author, RunOf(node))|
  }

  ghost predicate CountInv(s: State) {
    && s.author.Keys == s.attempts.Keys
    && (forall r :: r in s.author ==> s.author[r] in s.runs)
    && (forall n :: n in s.nodes ==> NodeCount(s, s.nodes[n]))
    && (forall n, k :: n in s.nodes && k in s.nodes && n != k ==> RunOf(s.nodes[n]) != RunOf(s.nodes[k]))
  }

  /** A dispatcher that moves on within its call, with no row written. */
  lemma MoveKeepsCount(s: State, t: State, n: nat)
    requires CountInv(s) && MovesOn(s, t, n)
    ensures CountInv(t)
  {
    assert NodeCount(s, s.nodes[n]);
    forall k | k in t.nodes
      ensures NodeCount(t, t.nodes[k])
    {
      assert k != n ==> NodeCount(s, s.nodes[k]);
    }
  }

  lemma RowsByAfterInsert(author: map<string, nat>, row: string, run: nat, other: nat)
    requires row !in author
    ensures |RowsBy(author[row := run], other)| == |RowsBy(author, other)| + (if run == other then 1 else 0)
  {
    assert RowsBy(author[row := run], other) == RowsBy(author, other) + (if run == other then {row} else {});
  }

  /** A row written by the call of dispatcher `n`. */
  lemma CommitKeepsCount(s: State, t: State, n: nat, row: string)
    requires CountInv(s) && n in s.nodes && row !in s.attempts
    requires t.author == s.author[row := RunOf(s.nodes[n])] && t.attempts.Keys == s.attempts.Keys + {row}
    requires t.runs == s.runs
    requires n in t.nodes && t.nodes == s.nodes[n := t.nodes[n]]
    requires RunOf(t.nodes[n]) == RunOf(s.nodes[n]) && ProcessedBy(t.nodes[n]) == ProcessedBy(s.nodes[n]) + 1
    ensures CountInv(t)
  {
    assert NodeCount(s, s.nodes[n]);
    forall k | k in t.nodes
      ensures NodeCount(t, t.nodes[k])
    {
      assert NodeCount(s, s.nodes[k]);
      RowsByAfterInsert(s.author, row, RunOf(s.nodes[n]), RunOf(s.nodes[k]));
    }
  }

  lemma FinishKeepsCount(s: State, n: nat, row: string)
    requires CountInv(s) && Enabled(s, Finish(n, row))
    ensures CountInv(FinishStep(s, n, row))
  {
    var node := s.nodes[n];
    if CompareAndSet(s.outbox, FinishWrite(node), FinishExpects(node)).Ok? {
      CommitKeepsCount(s, FinishStep(s, n, row), n, row);
    } else {
      MoveKeepsCount(s, FinishStep(s, n, row), n);
    }
  }

  lemma StartKeepsCount(s: State, n: nat, run: nat, now: int)
    requires CountInv(s) && Enabled(s, ReadListClock(n, run, now))
    ensures CountInv(Next(s, ReadListClock(n, run, now)))
  {
    var t := Next(s, ReadListClock(n, run, now));
    assert RowsBy(s.author, run) == {};
    forall k | k in t.nodes
      ensures NodeCount(t, t.nodes[k])
    {
      assert k != n ==> NodeCount(s, s.nodes[k]);
    }
  }

  lemma GlobalStepKeepsCount(s: State, a: Action)
    requires CountInv(s) && Enabled(s, a) && (a.Create? || a.Crash?)
    ensures CountInv(Next(s, a))
  {
    var t := Next(s, a);
    forall k | k in t.nodes
      ensures NodeCount(t, t.nodes[k])
    {
      assert NodeCount(s, s.nodes[k]);
    }
  }

  lemma StepKeepsCount(s: State, a: Action)
    requires CountInv(s) && Enabled(s, a)
    ensures CountInv(Next(s, a))
  {
    if a.Finish? {
      FinishKeepsCount(s, a.node, a.row);
    } else if a.ReadListClock? {
      StartKeepsCount(s, a.node, a.run, a.now);
    } else if a.Create? || a.Crash? {
      GlobalStepKeepsCount(s, a);
    } else {
      LocalStepKeepsCount(s, a);
    }
  }

  lemma LocalStepKeepsCount(s: State, a: Action)
    requires CountInv(s) && Enabled(s, a) && !a.Finish? && !a.ReadListClock? && !a.Create? && !a.Crash?
    ensures CountInv(Next(s, a))
  {
    if a.Recover? || a.Claim? {
      LeaseStepMoves(s, a);
    } else {
      ReadStepMoves(s, a);
    }
    MoveKeepsCount(s, Next(s, a), a.node);
  }

  /** Dispatcher `n` moves on within its call, and nothing else changes that counts rows. */
  predicate MovesOn(s: State, t: State, n: nat) {
    && t.author == s.author && t.attempts == s.attempts && t.runs == s.runs
    && n in s.nodes && n in t.nodes && t.nodes == s.nodes[n := t.nodes[n]]
    && RunOf(t.nodes[n]) == RunOf(s.nodes[n]) && ProcessedBy(t.nodes[n]) == ProcessedBy(s.nodes[n])
  }

  lemma LeaseStepMoves(s: State, a: Action)
    requires Enabled(s, a) && (a.Recover? || a.Claim?)
    ensures MovesOn(s, Next(s, a), a.node)
  {
  }

  lemma ReadStepMoves(s: State, a: Action)
    requires CountInv(s) && Enabled(s, a) && (a.List? || a.TakeNext? || a.Start? || a.Handle? || a.Return?)
    ensures MovesOn(s, Next(s, a), a.node)
  {
  }

  lemma {:induction false} RunKeepsCount(r: Run, i: nat)
    requires IsRun(r) && i <= |r.acts|
    ensures CountInv(r.states[i])
  {
    if i == 0 {
    } else {
      RunKeepsCount(r, i - 1);
      assert StepAt(r, i - 1);
      StepKeepsCount(r.states[i - 1], r.acts[i - 1]);
    }
  }

  /** In every run, guarded or not, RunOnce returns exactly the number of rows that call committed. */
  lemma RunOnceReturnsItsRows(r: Run, i: nat, n: nat)
    requires IsRun(r) && i <= |r.acts|
    requires n in r.states[i].nodes && r.states[i].nodes[n].Returned?
    ensures var s := r.states[i];
            s.nodes[n].processed == |set row | row in s.attempts && row in s.author && s.author[row] == s.nodes[n].run|
  {
    RunKeepsCount(r, i);
    var s := r.states[i];
    var run := s.nodes[n].run;
    assert RowsBy(s.author, run) == set row | row in s.attempts && row in s.author && s.author[row] == run;
  }
}
