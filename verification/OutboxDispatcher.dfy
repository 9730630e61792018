/** The in-memory store and one dispatcher as objects, step by step along the protocol. */
module OutboxDispatcher {
  import opened Common
  import opened OutboxModel
  import opened OutboxHistory
  import opened OutboxListing
  import opened OutboxProtocol
  import opened OutboxWhole

  /** The outbox part of a transaction: private copies of the store's maps. */
  class MemoryTx {
    var outbox: map<string, Message>
    var jobAttempts: map<string, JobAttempt>

    constructor (outbox: map<string, Message>, jobAttempts: map<string, JobAttempt>)
      ensures this.outbox == outbox && this.jobAttempts == jobAttempts
    {
      this.outbox := outbox;
      this.jobAttempts := jobAttempts;
    }

    method UpdateOutboxMessageIfCurrent(next: Message, current: Message) returns (error: Option<CasError>)
      modifies this`outbox
      ensures match CompareAndSet(old(outbox), next, current)
              case Ok(after) => error == None && outbox == after
              case Err(e) => error == Some(e) && outbox == old(outbox)
      ensures outbox.Keys == old(outbox).Keys
      ensures forall id :: id in outbox && id != next.id ==> outbox[id] == old(outbox)[id]
      ensures error == Some(NotFound) <==> next.id !in old(outbox)
      ensures error == Some(InvalidTransition) <==>
              && next.id in old(outbox)
              && var stored := old(outbox)[next.id];
                 !(stored.status == current.status && stored.deadline == current.deadline &&
                   stored.updatedAt == current.updatedAt)
      ensures next.id in outbox ==> outbox[next.id] == if error == None then next else old(outbox)[next.id]
    {
      if next.id !in outbox {
        return Some(NotFound);
      }
      var stored := outbox[next.id];
      if stored.status != current.status || stored.deadline != current.deadline ||
         stored.updatedAt != current.updatedAt {
        return Some(InvalidTransition);
      }
      outbox := outbox[next.id := next];
      return None;
    }

    method CreateJobAttempt(attempt: JobAttempt)
      modifies this`jobAttempts
      ensures jobAttempts == old(jobAttempts)[attempt.id := attempt]
    {
      jobAttempts := jobAttempts[attempt.id := attempt];
    }
  }

  class MemoryStore {
    var outbox: map<string, Message>
    var jobAttempts: map<string, JobAttempt>

    constructor ()
      ensures outbox == map[] && jobAttempts == map[]
    {
      outbox := map[];
      jobAttempts := map[];
    }

    /** Outside a transaction the write goes to the shared map directly. */
    method UpdateOutboxMessageIfCurrent(next: Message, current: Message) returns (error: Option<CasError>)
      modifies this`outbox
      ensures match CompareAndSet(old(outbox), next, current)
              case Ok(after) => error == None && outbox == after
              case Err(e) => error == Some(e) && outbox == old(outbox)
    {
      var tx := new MemoryTx(outbox, jobAttempts);
      error := tx.UpdateOutboxMessageIfCurrent(next, current);
      outbox := tx.outbox;
    }

    /** The finish transaction: copy, write both maps, swap them in only if nothing failed. */
    method CommitFinish(next: Message, current: Message, attempt: JobAttempt) returns (error: Option<CasError>)
      modifies this
      ensures match CompareAndSet(old(outbox), next, current)
              case Ok(after) =>
                error == None && outbox == after && jobAttempts == old(jobAttempts)[attempt.id := attempt]
              case Err(e) => error == Some(e) && outbox == old(outbox) && jobAttempts == old(jobAttempts)
    {
      var tx := new MemoryTx(outbox, jobAttempts);
      error := tx.UpdateOutboxMessageIfCurrent(next, current);
      if error != None {
        return;
      }
      tx.CreateJobAttempt(attempt);
      outbox := tx.outbox;
      jobAttempts := tx.jobAttempts;
    }
  }

  /** The job attempt of a handler run: its outcome, its error text and its two times. */
  predicate HasRow(rows: map<string, JobAttempt>, row: string, messageId: string, handlerError: Option<string>,
                   startedAt: int, finishedAt: int)
  {
    && row in rows
    && rows[row] == match handlerError
                    case None => JobAttempt(row, messageId, Succeeded, "", startedAt, finishedAt, finishedAt)
                    case Some(error) =>
                      JobAttempt(row, messageId, AttemptFailed, error, startedAt, finishedAt, finishedAt)
  }

  /** What the id generator promises: no two ids alike. */
  ghost predicate DistinctIds(ids: seq<string>) {
    forall i, j :: 0 <= i < j < |ids| ==> ids[i] != ids[j]
  }

  /** Records are stored under their own ids. */
  predicate Keyed(outbox: map<string, Message>) {
    forall id :: id in outbox ==> outbox[id].id == id
  }

  lemma StepKeepsKeys(s: State, a: Action)
    requires Enabled(s, a) && Keyed(s.outbox)
    ensures Keyed(Next(s, a).outbox)
  {
  }

  /** A step of the world around dispatcher `node`: not its own, not in its call, and with other row ids. */
  predicate Foreign(a: Action, node: nat, run: nat, rowIds: seq<string>) {
    match a
    case Create(_) => true
    case ReadListClock(n, r, _) => n != node && r != run
    case Finish(n, row) => n != node && row !in rowIds
    case _ => a.node != node
  }

  /** Nothing that dispatcher `node` relies on has changed: its own place, its call number, its row ids. */
  ghost predicate Undisturbed(s: State, t: State, node: nat, run: nat, rowIds: seq<string>) {
    && (node in t.nodes <==> node in s.nodes) && (node in s.nodes ==> t.nodes[node] == s.nodes[node])
    && (run in t.runs <==> run in s.runs)
    && SameRows(s, t, rowIds)
  }

  ghost predicate SameRows(s: State, t: State, rowIds: seq<string>) {
    forall r :: r in rowIds ==> SameRow(s, t, r)
  }

  predicate SameRow(s: State, t: State, row: string) {
    && (row in t.attempts <==> row in s.attempts)
    && (row in t.author <==> row in s.author) && (row in s.author ==> t.author[row] == s.author[row])
  }

  lemma ForeignStepDisturbsNothing(s: State, a: Action, node: nat, run: nat, rowIds: seq<string>)
    requires Enabled(s, a) && Foreign(a, node, run, rowIds)
    ensures Undisturbed(s, Next(s, a), node, run, rowIds)
  {
    var t := Next(s, a);
    forall r | r in rowIds
      ensures SameRow(s, t, r)
    {
      if a.Finish? {
        ForeignFinishKeepsRow(s, a.node, a.row, r);
      }
    }
  }

  lemma ForeignFinishKeepsRow(s: State, n: nat, row: string, r: string)
    requires Enabled(s, Finish(n, row)) && r != row
    ensures SameRow(s, FinishStep(s, n, row), r)
  {
  }

  lemma SameRowsTwice(s: State, t: State, u: State, rowIds: seq<string>)
    requires SameRows(s, t, rowIds) && SameRows(t, u, rowIds)
    ensures SameRows(s, u, rowIds)
  {
    forall r | r in rowIds
      ensures SameRow(s, u, r)
    {
      assert SameRow(s, t, r) && SameRow(t, u, r);
    }
  }

  /** Of the ids given to call `run`, the first `k` are rows it has committed, the others are not used. */
  ghost predicate Written(s: State, run: nat, rowIds: seq<string>, k: nat) {
    forall i :: 0 <= i < |rowIds| ==> RowState(s, run, rowIds[i], i < k)
  }

  predicate RowState(s: State, run: nat, row: string, written: bool) {
    (row in s.attempts <==> written) && (written ==> row in s.author && s.author[row] == run)
  }

  lemma SameRowsKeepWritten(s: State, t: State, run: nat, rowIds: seq<string>, k: nat)
    requires SameRows(s, t, rowIds) && Written(s, run, rowIds, k)
    ensures Written(t, run, rowIds, k)
  {
    forall i | 0 <= i < |rowIds|
      ensures RowState(t, run, rowIds[i], i < k)
    {
      assert SameRow(s, t, rowIds[i]) && RowState(s, run, rowIds[i], i < k);
    }
  }

  /** A committed finish of the call with the next of its ids. */
  lemma FinishWritesRow(s: State, n: nat, run: nat, rowIds: seq<string>, k: nat)
    requires k < |rowIds| && DistinctIds(rowIds) && Written(s, run, rowIds, k)
    requires Enabled(s, Finish(n, rowIds[k])) && s.nodes[n].p.run == run
    ensures Written(FinishStep(s, n, rowIds[k]), run, rowIds, if FinishCommitted(s, n, rowIds[k]) then k + 1 else k)
  {
    var t := FinishStep(s, n, rowIds[k]);
    forall i | 0 <= i < |rowIds|
      ensures RowState(t, run, rowIds[i], if FinishCommitted(s, n, rowIds[k]) then i < k + 1 else i < k)
    {
      assert RowState(s, run, rowIds[i], i < k);
      if i != k {
        ForeignFinishKeepsRow(s, n, rowIds[k], rowIds[i]);
      }
    }
  }

  /** What a committed finish stores, in the fields of the record and of the row. */
  lemma FinishWritesFields(s: State, n: nat, row: string)
    requires Enabled(s, Finish(n, row)) && FinishCommitted(s, n, row)
    ensures var node, t := s.nodes[n], FinishStep(s, n, row);
            && node.claimed.id in t.outbox
            && Follows(node.claimed, t.outbox[node.claimed.id], FinishedBy(node.p.run, node.handlerError, node.hash))
            && HasRow(t.attempts, row, node.claimed.id, node.handlerError, node.startedAt, node.finishedAt)
  {
    var node := s.nodes[n];
    FinishFollows(node.claimed, node.p.run, node.handlerError, node.finishedAt, node.hash);
  }

  lemma UndisturbedTwice(s: State, t: State, u: State, node: nat, run: nat, rowIds: seq<string>)
    requires Undisturbed(s, t, node, run, rowIds) && Undisturbed(t, u, node, run, rowIds)
    ensures Undisturbed(s, u, node, run, rowIds)
  {
    SameRowsTwice(s, t, u, rowIds);
  }

  /**
   One dispatcher among others. `proto` is the whole protocol state, of which the dispatcher sees the store; `clock`
   is its own clock; `trace` is the protocol run that has led there from an empty store. Between any two of its own
   steps the others may take any number of theirs.
   */
  class Dispatcher {
    const store: MemoryStore
    const node: nat
    var clock: int
    var run: nat
    var rowIds: seq<string>
    var proto: State
    ghost var trace: Run

    ghost predicate Valid()
      reads this, store
    {
      && proto.outbox == store.outbox && proto.attempts == store.jobAttempts && Keyed(store.outbox)
      && IsRun(trace) && Last(trace) == proto
      && (node in proto.nodes && !proto.nodes[node].Returned? ==> LastRead(proto.nodes[node]) <= clock)
    }

    /** The dispatcher is about to take the next of its messages. */
    ghost predicate LoopsOn(p: Progress)
      reads this
    {
      node in proto.nodes && proto.nodes[node].Looping? && proto.nodes[node].p == p
    }

    /** Where it stands after its finish transaction. */
    ghost predicate AfterCommit(p: Progress, error: Option<CasError>)
      reads this
    {
      if error == None then LoopsOn(p.(processed := p.processed + 1))
      else node in proto.nodes && proto.nodes[node] == Returned(p.run, p.processed, true)
    }

    constructor (node: nat, clock: int)
      ensures Valid() && fresh(store) && trace.acts == [] && this.node == node && this.clock == clock
    {
      var empty := new MemoryStore();
      store := empty;
      this.node := node;
      this.clock := clock;
      run, rowIds := 0, [];
      proto := INITIAL;
      trace := Run([], [INITIAL]);
    }

    /** The protocol takes the step that the dispatcher has just performed. */
    method Take(a: Action)
      requires Enabled(proto, a) && IsRun(trace) && Last(trace) == proto
      modifies this`proto, this`trace
      ensures proto == Next(old(proto), a) && trace == Extended(old(trace), a)
      ensures IsRun(trace) && Last(trace) == proto && GoesOn(old(trace), trace)
    {
      ExtendedIsRun(trace, a);
      trace := Extended(trace, a);
      proto := Next(proto, a);
    }

    /** One step of somebody else. */
    method OtherStep(a: Action)
      requires Valid() && Enabled(proto, a) && Foreign(a, node, run, rowIds)
      modifies this`proto, this`trace, store
      ensures Valid() && GoesOn(old(trace), trace) && Undisturbed(old(proto), proto, node, run, rowIds)
    {
      StepKeepsKeys(proto, a);
      ForeignStepDisturbsNothing(proto, a, node, run, rowIds);
      Take(a);
      store.outbox := proto.outbox;
      store.jobAttempts := proto.attempts;
    }

    /** Any number of steps of other dispatchers and of producers. */
    method Others()
      requires Valid()
      modifies this`proto, this`trace, store
      ensures Valid() && GoesOn(old(trace), trace) && Undisturbed(old(proto), proto, node, run, rowIds)
    {
      var steps: int := *;
      while steps > 0
        invariant Valid() && GoesOn(old(trace), trace) && Undisturbed(old(proto), proto, node, run, rowIds)
      {
        var a: Action := *;
        if Foreign(a, node, run, rowIds) && Enabled(proto, a) {
          ghost var before := proto;
          OtherStep(a);
          UndisturbedTwice(old(proto), before, proto, node, run, rowIds);
        }
        steps := steps - 1;
      }
    }

    /** A reading of the dispatcher's own clock, after whatever the others have done. */
    method Now() returns (now: int)
      requires Valid()
      modifies this`clock, this`proto, this`trace, store
      ensures Valid() && old(clock) <= clock && now == clock
      ensures GoesOn(old(trace), trace) && Undisturbed(old(proto), proto, node, run, rowIds)
    {
      Others();
      var elapsed: int := *;
      clock := if elapsed > 0 then clock + elapsed else clock;
      now := clock;
    }

    /** The handler is outside the model: it may succeed or fail with any text. */
    method HandleOutboxMessage(message: Message) returns (error: Option<string>) {
      error := *;
    }

    // ---- one message ----------------------------------------------------------------------------

    /** Take back an expired lease if need be, then take the lease; nothing happens to a record in any other state. */
    method Claim(message: Message, ghost p: Progress) returns (base: Message, claimed: Message, ok: bool)
      requires Valid() && LoopsOn(p) && p.rest != [] && p.rest[0] == message
      modifies this`clock, this`proto, this`trace, store
      ensures Valid() && GoesOn(old(trace), trace) && node in proto.nodes && SameRows(old(proto), proto, rowIds)
      ensures message.status != Pending && message.status != Processing ==> !ok && proto == old(proto)
      ensures message.status == Pending || message.status == Processing ==>
                var rest := p.(rest := p.rest[1..]);
                if ok then proto.nodes[node] == Holding(rest, base, claimed) else LoopsOn(rest)
      ensures ok ==>
                var now := claimed.updatedAt;
                && (base == message || base == message.(status := Pending, deadline := 0, updatedAt := now))
                && claimed == base.(status := Processing, deadline := now + 600_000_000_000, updatedAt := now)
    {
      base, claimed := message, message;
      if message.status != Pending && message.status != Processing {
        return base, claimed, false;
      }
      var now := Now();
      Take(TakeNext(node, now));
      ghost var rest, taken := p.(rest := p.rest[1..]), proto;
      ok := true;
      if message.status == Processing {
        base, ok := TakeBack(message, now, rest);
      }
      SameRowsTwice(old(proto), taken, proto, rowIds);
      if ok {
        ghost var back := proto;
        claimed, ok := TakeLease(base, now, rest);
        SameRowsTwice(old(proto), back, proto, rowIds);
      }
    }

    /** Turn an expired lease into a pending record. */
    method TakeBack(message: Message, now: int, ghost p: Progress) returns (recovered: Message, ok: bool)
      requires Valid() && node in proto.nodes && proto.nodes[node] == Claiming(p, message, now)
      requires message.status == Processing
      modifies this`clock, this`proto, this`trace, store
      ensures Valid() && GoesOn(old(trace), trace) && node in proto.nodes && SameRows(old(proto), proto, rowIds)
      ensures recovered == message.(status := Pending, deadline := 0, updatedAt := now)
      ensures proto.nodes[node] == if ok then Claiming(p, recovered, now) else Looping(p, now)
    {
      Others();
      recovered := RecoverRecord(message, now);
      var error := store.UpdateOutboxMessageIfCurrent(recovered, message);
      Take(Recover(node));
      ok := error == None;
    }

    /** Lease a pending record. */
    method TakeLease(base: Message, now: int, ghost p: Progress) returns (claimed: Message, ok: bool)
      requires Valid() && node in proto.nodes && proto.nodes[node] == Claiming(p, base, now) && base.status == Pending
      modifies this`clock, this`proto, this`trace, store
      ensures Valid() && GoesOn(old(trace), trace) && node in proto.nodes && SameRows(old(proto), proto, rowIds)
      ensures claimed == base.(status := Processing, deadline := now + 600_000_000_000, updatedAt := now)
      ensures proto.nodes[node] == if ok then Holding(p, base, claimed) else Looping(p, now)
      ensures ok ==> claimed.id in store.outbox && store.outbox[claimed.id] == claimed
    {
      Others();
      claimed := ClaimRecord(base, now);
      var error := store.UpdateOutboxMessageIfCurrent(claimed, base);
      Take(Action.Claim(node));
      ok := error == None;
    }

    method Handle(base: Message, claimed: Message, ghost p: Progress)
      returns (startedAt: int, handlerError: Option<string>, finishedAt: int, hash: nat)
      requires Valid() && node in proto.nodes && proto.nodes[node] == Holding(p, base, claimed)
      modifies this`clock, this`proto, this`trace, store
      ensures Valid() && GoesOn(old(trace), trace) && node in proto.nodes && SameRows(old(proto), proto, rowIds)
      ensures proto.nodes[node] == Finishing(p, base, claimed, startedAt, handlerError, finishedAt, hash)
    {
      startedAt := Now();
      Take(Start(node, startedAt));
      handlerError := HandleOutboxMessage(claimed);
      ghost var started := proto;
      finishedAt := Now();
      SameRowsTwice(old(proto), started, proto, rowIds);
      hash := *;
      Take(Action.Handle(node, handlerError, hash, finishedAt));
    }

    method CommitOutcome(base: Message, claimed: Message, startedAt: int, handlerError: Option<string>,
                         finishedAt: int, hash: nat, k: nat, ghost p: Progress)
      returns (error: Option<CasError>)
      requires Valid() && node in proto.nodes && p.run == run
      requires proto.nodes[node] == Finishing(p, base, claimed, startedAt, handlerError, finishedAt, hash)
      requires k < |rowIds| && DistinctIds(rowIds) && Written(proto, run, rowIds, k)
      modifies this`clock, this`proto, this`trace, store
      ensures Valid() && GoesOn(old(trace), trace) && node in proto.nodes
      ensures AfterCommit(p, error)
      ensures Written(proto, run, rowIds, if error == None then k + 1 else k)
      ensures error == None ==>
                && claimed.id in store.outbox
                && Follows(claimed, store.outbox[claimed.id], FinishedBy(run, handlerError, hash))
                && HasRow(store.jobAttempts, rowIds[k], claimed.id, handlerError, startedAt, finishedAt)
    {
      Others();
      SameRowsKeepWritten(old(proto), proto, run, rowIds, k);
      assert RowState(proto, run, rowIds[k], false);
      FinishWritesRow(proto, node, run, rowIds, k);
      if FinishCommitted(proto, node, rowIds[k]) {
        FinishWritesFields(proto, node, rowIds[k]);
      }
      error := Commit(base, claimed, startedAt, handlerError, finishedAt, hash, rowIds[k], p);
    }

    /** The finish transaction. */
    method Commit(base: Message, claimed: Message, startedAt: int, handlerError: Option<string>,
                  finishedAt: int, hash: nat, rowId: string, ghost p: Progress)
      returns (error: Option<CasError>)
      requires Valid() && node in proto.nodes && rowId !in store.jobAttempts
      requires proto.nodes[node] == Finishing(p, base, claimed, startedAt, handlerError, finishedAt, hash)
      modifies this`proto, this`trace, store
      ensures Valid() && GoesOn(old(trace), trace) && proto == FinishStep(old(proto), node, rowId)
      ensures error == None <==> FinishCommitted(old(proto), node, rowId)
      ensures AfterCommit(p, error)
    {
      var mutated := AfterHandler(claimed, handlerError, finishedAt, hash);
      var finished := FinishRecord(mutated, NextStatus(claimed, handlerError), finishedAt);
      error := store.CommitFinish(finished, mutated, AttemptRow(claimed, handlerError, startedAt, finishedAt, rowId));
      assert finished == FinishWrite(proto.nodes[node]) && mutated == FinishExpects(proto.nodes[node]);
      Take(Finish(node, rowId));
    }

    /** One turn of the loop: claim the message and, if that worked, run the handler and commit. */
    method ProcessNext(message: Message, k: nat, ghost p: Progress)
      returns (committed: bool, error: Option<CasError>)
      requires Valid() && LoopsOn(p) && p.run == run
      requires p.rest != [] && p.rest[0] == message && (message.status == Pending || message.status == Processing)
      requires k < |rowIds| && DistinctIds(rowIds) && Written(proto, run, rowIds, k)
      modifies this`clock, this`proto, this`trace, store
      ensures Valid() && GoesOn(old(trace), trace) && node in proto.nodes
      ensures var rest := p.(rest := p.rest[1..]);
              if committed || error != None then AfterCommit(rest, error) else LoopsOn(rest)
      ensures committed ==> error == None
      ensures Written(proto, run, rowIds, if committed then k + 1 else k)
    {
      var base, claimed, ok := Claim(message, p);
      SameRowsKeepWritten(old(proto), proto, run, rowIds, k);
      if !ok {
        return false, None;
      }
      ghost var held, rest := proto, p.(rest := p.rest[1..]);
      var startedAt, handlerError, finishedAt, hash := Handle(base, claimed, rest);
      SameRowsKeepWritten(held, proto, run, rowIds, k);
      error := CommitOutcome(base, claimed, startedAt, handlerError, finishedAt, hash, k, rest);
      committed := error == None;
    }

    // ---- one call -------------------------------------------------------------------------------

    /** `processed` of the first `i` listed messages are done, one row each. */
    ghost predicate InLoop(messages: seq<Message>, i: nat, processed: nat)
      reads this, store
    {
      && i <= |messages| <= |rowIds| && processed <= i && DistinctIds(rowIds) && Written(proto, run, rowIds, processed)
      && Valid() && LoopsOn(Progress(run, messages[i..], processed))
    }

    /**
     One pass over the due messages; stops at the first finish that does not commit. Whatever the others do meanwhile,
     exactly the first `processed` of the ids given to the call are rows, and they are this call's.
     */
    method RunOnce(limit: int, run: nat, rowIds: seq<string>) returns (processed: nat, error: Option<CasError>)
      requires Valid() && (node !in proto.nodes || proto.nodes[node].Returned?) && run !in proto.runs
      requires |rowIds| >= limit && DistinctIds(rowIds) && Written(proto, run, rowIds, 0)
      modifies this, store
      ensures Valid() && GoesOn(old(trace), trace)
      ensures node in proto.nodes && proto.nodes[node] == Returned(run, processed, error.Some?)
      ensures processed <= |rowIds| && Written(proto, run, rowIds, processed)
    {
      this.run, this.rowIds := run, rowIds;
      var messages := List(limit);
      processed := 0;
      error := None;
      var i: nat := 0;
      while i < |messages|
        invariant this.run == run && this.rowIds == rowIds
        invariant error == None && GoesOn(old(trace), trace) && InLoop(messages, i, processed)
      {
        processed, error := Turn(messages, i, processed);
        if error != None {
          return;
        }
        i := i + 1;
      }
      EndRun(processed);
    }

    /** The call begins with a reading of the clock. */
    method ReadListTime() returns (listedAt: int)
      requires Valid() && (node !in proto.nodes || proto.nodes[node].Returned?) && run !in proto.runs
      modifies this`clock, this`proto, this`trace, store
      ensures Valid() && GoesOn(old(trace), trace) && SameRows(old(proto), proto, rowIds)
      ensures node in proto.nodes && proto.nodes[node] == Listing(run, listedAt)
    {
      listedAt := Now();
      Take(ReadListClock(node, run, listedAt));
    }

    /** Read the clock and list what is due. */
    method List(limit: int) returns (messages: seq<Message>)
      requires Valid() && (node !in proto.nodes || proto.nodes[node].Returned?) && run !in proto.runs
      requires |rowIds| >= limit && DistinctIds(rowIds) && Written(proto, run, rowIds, 0)
      modifies this`clock, this`proto, this`trace, store
      ensures GoesOn(old(trace), trace) && InLoop(messages, 0, 0)
      ensures forall i :: 0 <= i < |messages| ==> messages[i].status == Pending || messages[i].status == Processing
    {
      var listedAt := ReadListTime();
      ghost var listing := proto;
      Others();
      SameRowsTwice(old(proto), listing, proto, rowIds);
      SameRowsKeepWritten(old(proto), proto, run, rowIds, 0);
      messages := ListDue(store.outbox, listedAt, limit);
      Take(Action.List(node, messages));
      assert messages[0..] == messages;
    }

    method Turn(messages: seq<Message>, i: nat, processed: nat) returns (next: nat, error: Option<CasError>)
      requires InLoop(messages, i, processed) && i < |messages|
      requires messages[i].status == Pending || messages[i].status == Processing
      modifies this`clock, this`proto, this`trace, store
      ensures Valid() && GoesOn(old(trace), trace)
      ensures error == None ==> InLoop(messages, i + 1, next)
      ensures error != None ==>
              next == processed && node in proto.nodes && proto.nodes[node] == Returned(run, processed, true)
      ensures error != None ==> Written(proto, run, rowIds, processed)
    {
      var committed;
      committed, error := ProcessNext(messages[i], processed, Progress(run, messages[i..], processed));
      assert messages[i..][1..] == messages[i + 1..];
      next := if committed then processed + 1 else processed;
    }

    method EndRun(processed: nat)
      requires Valid() && LoopsOn(Progress(run, [], processed))
      modifies this`proto, this`trace
      ensures Valid() && GoesOn(old(trace), trace) && node in proto.nodes
      ensures proto.nodes[node] == Returned(run, processed, false)
      ensures proto.attempts == old(proto).attempts && proto.author == old(proto).author
    {
      Take(Return(node));
    }
  }
}
