/**
 Any number of dispatchers sharing one store. Every repository call, every clock reading and
 every handler call is one step, and steps of different dispatchers interleave freely. Each
 dispatcher reads its own clock: the readings of one call never go back, those of different
 calls and the times of producers need not agree in any way.
 */
module OutboxProtocol {
  import opened Common
  import opened OutboxModel
  import opened OutboxHistory

  /** What one RunOnce call carries from message to message. */
  datatype Progress = Progress(run: nat, rest: seq<Message>, processed: nat)

  /**
   Where a dispatcher stands inside RunOnce, with its latest clock reading; a lease that was just taken is
   dated by it. A dispatcher that is not in the map is idle.
   */
  datatype Node =
    | Listing(run: nat, now: int)
    | Looping(p: Progress, now: int)
    | Claiming(p: Progress, message: Message, now: int)
    | Holding(p: Progress, base: Message, claimed: Message)
    | Running(p: Progress, base: Message, claimed: Message, startedAt: int)
    | Finishing(p: Progress, base: Message, claimed: Message, startedAt: int,
                handlerError: Option<string>, finishedAt: int, hash: nat)
    | Returned(run: nat, processed: nat, failed: bool)

  /** The RunOnce call a dispatcher is in, or was in last. */
  function RunOf(node: Node): nat {
    match node
    case Listing(run, _) => run
    case Returned(run, _, _) => run
    case _ => node.p.run
  }

  /** Its latest clock reading. */
  function LastRead(node: Node): int
    requires !node.Returned?
  {
    match node
    case Listing(_, now) => now
    case Looping(_, now) => now
    case Claiming(_, _, now) => now
    case Holding(_, _, claimed) => claimed.updatedAt
    case Running(_, _, _, startedAt) => startedAt
    case Finishing(_, _, _, _, _, finishedAt, _) => finishedAt
  }

  /** A dispatcher between its claim and its finish. */
  predicate Holder(node: Node) {
    node.Holding? || node.Running? || node.Finishing?
  }

  /**
   `outbox` and `attempts` are the shared store. `history` keeps every record ever stored,
   `author` the RunOnce call that committed each job-attempt row, `runs` the calls started.
   */
  datatype State = State(
    outbox: map<string, Message>,
    attempts: map<string, JobAttempt>,
    nodes: map<nat, Node>,
    history: map<string, History>,
    author: map<string, nat>,
    runs: set<nat>)

  /** The stored record still carries the token of `claimed`. */
  predicate Keeps(s: State, claimed: Message) {
    claimed.id in s.outbox && TokenOf(s.outbox[claimed.id]) == TokenOf(claimed)
  }

  /** `m` was once the stored record. */
  ghost predicate Stored(s: State, m: Message) {
    m.id in s.history && exists k :: 0 <= k < |s.history[m.id]| && s.history[m.id][k].msg == m
  }

  datatype Action =
    | Create(message: Message)
    | ReadListClock(node: nat, run: nat, now: int)
    | List(node: nat, batch: seq<Message>)
    | TakeNext(node: nat, now: int)
    | Recover(node: nat)
    | Claim(node: nat)
    | Start(node: nat, now: int)
    | Handle(node: nat, handlerError: Option<string>, hash: nat, now: int)
    | Finish(node: nat, row: string)
    | Return(node: nat)
    | Crash(node: nat)

  const INITIAL := State(map[], map[], map[], map[], map[], {})

  predicate Enabled(s: State, a: Action) {
    match a
    case Create(m) => m.id !in s.outbox && Fresh(m)
    case ReadListClock(n, run, _) => (n !in s.nodes || s.nodes[n].Returned?) && run !in s.runs
    case List(n, batch) =>
      && n in s.nodes && s.nodes[n].Listing?
      && forall m :: m in batch ==> m.id in s.outbox && s.outbox[m.id] == m && Due(m, s.nodes[n].now)
    case TakeNext(n, now) =>
      n in s.nodes && s.nodes[n].Looping? && s.nodes[n].p.rest != [] && s.nodes[n].now <= now
    case Recover(n) => n in s.nodes && s.nodes[n].Claiming? && s.nodes[n].message.status == Processing
    case Claim(n) => n in s.nodes && s.nodes[n].Claiming? && s.nodes[n].message.status == Pending
    case Start(n, now) => n in s.nodes && s.nodes[n].Holding? && s.nodes[n].claimed.updatedAt <= now
    case Handle(n, _, _, now) => n in s.nodes && s.nodes[n].Running? && s.nodes[n].startedAt <= now
    case Finish(n, row) => n in s.nodes && s.nodes[n].Finishing? && row !in s.attempts
    case Return(n) => n in s.nodes && s.nodes[n].Looping? && s.nodes[n].p.rest == []
    case Crash(n) => n in s.nodes
  }

  /** Store a new record and remember it in the history of its message. */
  function Record(s: State, outbox: map<string, Message>, v: Version): State {
    s.(outbox := outbox,
       history := s.history[v.msg.id := (if v.msg.id in s.history then s.history[v.msg.id] else []) + [v]])
  }

  function At(s: State, n: nat, node: Node): State {
    s.(nodes := s.nodes[n := node])
  }

  function RecoverStep(s: State, n: nat): State
    requires Enabled(s, Recover(n))
  {
    var Claiming(p, message, now) := s.nodes[n];
    var recovered := RecoverRecord(message, now);
    match CompareAndSet(s.outbox, recovered, message)
    case Err(_) => At(s, n, Looping(p, now))
    case Ok(outbox) => At(Record(s, outbox, Version(recovered, Recovered)), n, Claiming(p, recovered, now))
  }

  function ClaimStep(s: State, n: nat): State
    requires Enabled(s, Claim(n))
  {
    var Claiming(p, message, now) := s.nodes[n];
    var claimed := ClaimRecord(message, now);
    match CompareAndSet(s.outbox, claimed, message)
    case Err(_) => At(s, n, Looping(p, now))
    case Ok(outbox) => At(Record(s, outbox, Version(claimed, Claimed(p.run))), n, Holding(p, message, claimed))
  }

  /** The record the finish transaction writes and the one it expects to find. */
  function FinishWrite(node: Node): Message
    requires node.Finishing?
  {
    Finished(node.claimed, node.handlerError, node.finishedAt, node.hash)
  }

  function FinishExpects(node: Node): Message
    requires node.Finishing?
  {
    AfterHandler(node.claimed, node.handlerError, node.finishedAt, node.hash)
  }

  /** The job-attempt row it writes beside it. */
  function FinishRow(node: Node, row: string): JobAttempt
    requires node.Finishing?
  {
    AttemptRow(node.claimed, node.handlerError, node.startedAt, node.finishedAt, row)
  }

  function FinishStep(s: State, n: nat, row: string): State
    requires Enabled(s, Finish(n, row))
  {
    var node := s.nodes[n];
    var p := node.p;
    match CompareAndSet(s.outbox, FinishWrite(node), FinishExpects(node))
    case Err(_) => At(s, n, Returned(p.run, p.processed, true))
    case Ok(outbox) =>
      var v := Version(FinishWrite(node), FinishedBy(p.run, node.handlerError, node.hash));
      At(Record(s, outbox, v), n, Looping(p.(processed := p.processed + 1), node.finishedAt))
        .(attempts := s.attempts[row := FinishRow(node, row)],
          author := s.author[row := p.run])
  }

  function Next(s: State, a: Action): State
    requires Enabled(s, a)
  {
    match a
    case Create(m) => Record(s, s.outbox[m.id := m], Version(m, Created))
    case ReadListClock(n, run, now) => At(s, n, Listing(run, now)).(runs := s.runs + {run})
    case List(n, batch) => At(s, n, Looping(Progress(s.nodes[n].run, batch, 0), s.nodes[n].now))
    case TakeNext(n, now) =>
      var p := s.nodes[n].p;
      At(s, n, Claiming(p.(rest := p.rest[1..]), p.rest[0], now))
    case Recover(n) => RecoverStep(s, n)
    case Claim(n) => ClaimStep(s, n)
    case Start(n, now) =>
      var Holding(p, base, claimed) := s.nodes[n];
      At(s, n, Running(p, base, claimed, now))
    case Handle(n, handlerError, hash, now) =>
      var Running(p, base, claimed, startedAt) := s.nodes[n];
      At(s, n, Finishing(p, base, claimed, startedAt, handlerError, now, hash))
    case Finish(n, row) => FinishStep(s, n, row)
    case Return(n) => At(s, n, Returned(s.nodes[n].p.run, s.nodes[n].p.processed, false))
    case Crash(n) => s.(nodes := s.nodes - {n})
  }

  /** Steps from an empty store, and the states before, between and after them. */
  datatype Run = Run(acts: seq<Action>, states: seq<State>)

  predicate StepAt(r: Run, i: nat)
    requires i < |r.acts| && i + 1 < |r.states|
  {
    Enabled(r.states[i], r.acts[i]) && r.states[i + 1] == Next(r.states[i], r.acts[i])
  }

  ghost predicate IsRun(r: Run) {
    && |r.states| == |r.acts| + 1 && r.states[0] == INITIAL
    && forall i :: 0 <= i < |r.acts| ==> StepAt(r, i)
  }

  function Last(r: Run): State
    requires |r.states| > 0
  {
    r.states[|r.states| - 1]
  }

  /** The run with one more step. */
  function Extended(r: Run, a: Action): Run
    requires |r.states| > 0 && Enabled(Last(r), a)
  {
    Run(r.acts + [a], r.states + [Next(Last(r), a)])
  }

  /** `t` goes on where `r` ended. */
  ghost predicate GoesOn(r: Run, t: Run) {
    r.acts <= t.acts && r.states <= t.states
  }

  lemma ExtendedIsRun(r: Run, a: Action)
    requires IsRun(r) && Enabled(Last(r), a)
    ensures IsRun(Extended(r, a))
  {
    var t := Extended(r, a);
    forall i | 0 <= i < |t.acts|
      ensures StepAt(t, i)
    {
      if i < |r.acts| {
        assert StepAt(r, i);
      }
    }
  }

  /** The compare-and-set of a claim succeeds. */
  predicate ClaimCommits(s: State, n: nat)
    requires Enabled(s, Claim(n))
  {
    var Claiming(_, message, now) := s.nodes[n];
    CompareAndSet(s.outbox, ClaimRecord(message, now), message).Ok?
  }

  /** The finish transaction succeeds. */
  predicate FinishCommitted(s: State, n: nat, row: string)
    requires Enabled(s, Finish(n, row))
  {
    CompareAndSet(s.outbox, FinishWrite(s.nodes[n]), FinishExpects(s.nodes[n])).Ok?
  }

  /** A claim that commits does not read a time before the update time of the record it replaces. */
  predicate ForwardClaim(s: State, a: Action)
    requires Enabled(s, a)
  {
    a.Claim? && ClaimCommits(s, a.node) ==> s.nodes[a.node].message.updatedAt <= s.nodes[a.node].now
  }

  /** A claim that commits finds exactly the record it was listed with. */
  predicate ExactClaim(s: State, a: Action)
    requires Enabled(s, a)
  {
    a.Claim? && ClaimCommits(s, a.node) ==>
      var message := s.nodes[a.node].message;
      s.outbox[message.id] == message
  }

  /** The same as a claim could check it: the stored attempt count is the listed one. */
  predicate CountedClaim(s: State, a: Action)
    requires Enabled(s, a)
  {
    a.Claim? && ClaimCommits(s, a.node) ==>
      var message := s.nodes[a.node].message;
      s.outbox[message.id].attemptCount == message.attemptCount
  }

  /**
   The guard a dispatcher could check before committing a retry: the handler did not end at the
   update time of the pending record that was claimed.
   */
  predicate RetryGuard(s: State, a: Action)
    requires Enabled(s, a)
  {
    a.Finish? && FinishCommitted(s, a.node, a.row) && FinishWrite(s.nodes[a.node]).status == Pending ==>
      s.nodes[a.node].finishedAt != s.nodes[a.node].base.updatedAt
  }

  /** The handler of a finish that commits ended strictly after its claim. */
  predicate LaterFinish(s: State, a: Action)
    requires Enabled(s, a)
  {
    a.Finish? && FinishCommitted(s, a.node, a.row) ==> s.nodes[a.node].claimed.updatedAt < s.nodes[a.node].finishedAt
  }

  // Each of them at step `i` of a run, and at every step.

  ghost predicate ForwardAt(r: Run, i: nat)
    requires IsRun(r) && i < |r.acts|
  {
    assert StepAt(r, i);
    ForwardClaim(r.states[i], r.acts[i])
  }

  ghost predicate ExactAt(r: Run, i: nat)
    requires IsRun(r) && i < |r.acts|
  {
    assert StepAt(r, i);
    ExactClaim(r.states[i], r.acts[i])
  }

  ghost predicate CountedAt(r: Run, i: nat)
    requires IsRun(r) && i < |r.acts|
  {
    assert StepAt(r, i);
    CountedClaim(r.states[i], r.acts[i])
  }

  ghost predicate GuardedAt(r: Run, i: nat)
    requires IsRun(r) && i < |r.acts|
  {
    assert StepAt(r, i);
    RetryGuard(r.states[i], r.acts[i])
  }

  ghost predicate LaterAt(r: Run, i: nat)
    requires IsRun(r) && i < |r.acts|
  {
    assert StepAt(r, i);
    LaterFinish(r.states[i], r.acts[i])
  }

  ghost predicate ForwardRun(r: Run)
    requires IsRun(r)
  {
    forall i :: 0 <= i < |r.acts| ==> ForwardAt(r, i)
  }

  ghost predicate ExactRun(r: Run)
    requires IsRun(r)
  {
    forall i :: 0 <= i < |r.acts| ==> ExactAt(r, i)
  }

  ghost predicate CountedRun(r: Run)
    requires IsRun(r)
  {
    forall i :: 0 <= i < |r.acts| ==> CountedAt(r, i)
  }

  ghost predicate GuardedRun(r: Run)
    requires IsRun(r)
  {
    forall i :: 0 <= i < |r.acts| ==> GuardedAt(r, i)
  }

  ghost predicate LaterRun(r: Run)
    requires IsRun(r)
  {
    forall i :: 0 <= i < |r.acts| ==> LaterAt(r, i)
  }
}
