/** Leases and final records in every run, whatever the clocks of the dispatchers show. */
module OutboxLeases {
  import opened Common
  import opened OutboxModel
  import opened OutboxHistory
  import opened OutboxProtocol

  // ---- the store ------------------------------------------------------------------------------

  /** What two successive versions always satisfy: only a claim can be dated before the version it replaces. */
  predicate LeaseEdge(a: Version, b: Version) {
    match b.origin
    case Created => false
    case Recovered => a.msg.status == Processing && a.msg.deadline <= b.msg.updatedAt && b.msg.status == Pending
    case Claimed(_) => a.msg.status == Pending && Leased(b.msg)
    case FinishedBy(_, _, _) =>
      a.msg.status == Processing && a.msg.updatedAt <= b.msg.updatedAt && b.msg.status != Processing
  }

  predicate Leased(m: Message) {
    m.status == Processing && m.deadline == m.updatedAt + LEASE
  }

  ghost predicate LeaseChain(h: History) {
    && |h| >= 1 && h[0].origin == Created && h[0].msg.status == Pending
    && forall k :: 1 <= k < |h| ==> LeaseEdge(h[k - 1], h[k])
  }

  ghost predicate RowInv(s: State, id: string)
    requires id in s.history && id in s.outbox
  {
    var h := s.history[id];
    LeaseChain(h) && h[|h| - 1].msg == s.outbox[id] && s.outbox[id].id == id
  }

  ghost predicate StoreInv(s: State) {
    s.outbox.Keys == s.history.Keys && forall id :: id in s.history ==> RowInv(s, id)
  }

  /** A leased version was written by a claim, and its lease runs from its update time. */
  lemma ChainLeases(h: History, k: nat)
    requires LeaseChain(h) && k < |h|
    ensures h[k].msg.status == Processing <==> h[k].origin.Claimed?
    ensures h[k].origin.Claimed? ==> k >= 1 && Leased(h[k].msg)
  {
    if k >= 1 {
      assert LeaseEdge(h[k - 1], h[k]);
    }
  }

  lemma StoredLease(s: State, id: string)
    requires StoreInv(s) && id in s.outbox
    ensures s.outbox[id].id == id && (s.outbox[id].status == Processing ==> Leased(s.outbox[id]))
  {
    assert RowInv(s, id);
    ChainLeases(s.history[id], |s.history[id]| - 1);
  }

  /** `t` holds the store of `s` with `v` written on top. */
  ghost predicate Wrote(s: State, v: Version, t: State) {
    && v.msg.id in s.history && t.outbox == s.outbox[v.msg.id := v.msg]
    && t.history == s.history[v.msg.id := s.history[v.msg.id] + [v]]
  }

  lemma AppendKeepsChain(h: History, v: Version)
    requires LeaseChain(h) && LeaseEdge(h[|h| - 1], v)
    ensures LeaseChain(h + [v])
  {
  }

  lemma WriteKeepsStore(s: State, v: Version, t: State)
    requires StoreInv(s) && Wrote(s, v, t) && LeaseEdge(s.history[v.msg.id][|s.history[v.msg.id]| - 1], v)
    ensures StoreInv(t)
  {
    assert RowInv(s, v.msg.id);
    AppendKeepsChain(s.history[v.msg.id], v);
    forall id | id in t.history
      ensures RowInv(t, id)
    {
      assert RowInv(s, id);
    }
  }

  // ---- dispatchers ------------------------------------------------------------------------------

  /** The lease of a listed record, if any, had run out by the reading `now` of the dispatcher that listed it. */
  predicate Listed(m: Message, now: int) {
    m.status == Processing ==> m.deadline <= now
  }

  predicate AllListed(batch: seq<Message>, now: int) {
    forall m :: m in batch ==> Listed(m, now)
  }

  predicate NodeOk(node: Node) {
    match node
    case Listing(_, _) => true
    case Looping(p, now) => AllListed(p.rest, now)
    case Claiming(p, m, now) => AllListed(p.rest, now) && Listed(m, now)
    case Holding(p, _, claimed) => AllListed(p.rest, claimed.updatedAt) && Leased(claimed)
    case Running(p, _, claimed, startedAt) =>
      AllListed(p.rest, startedAt) && Leased(claimed) && claimed.updatedAt <= startedAt
    case Finishing(p, _, claimed, _, _, finishedAt, _) =>
      AllListed(p.rest, finishedAt) && Leased(claimed) && claimed.updatedAt <= finishedAt
    case Returned(_, _, _) => true
  }

  ghost predicate Inv(s: State) {
    StoreInv(s) && forall n :: n in s.nodes ==> NodeOk(s.nodes[n])
  }

  // ---- what a step writes -------------------------------------------------------------------------

  function FinishVersion(node: Node): Version
    requires node.Finishing?
  {
    Version(FinishWrite(node), FinishedBy(node.p.run, node.handlerError, node.hash))
  }

  /** The version that a compare-and-set step puts on top of a stored record. */
  function Written(s: State, a: Action): Option<Version>
    requires Enabled(s, a)
  {
    match a
    case Recover(n) =>
      var Claiming(_, m, now) := s.nodes[n];
      if CompareAndSet(s.outbox, RecoverRecord(m, now), m).Ok? then Some(Version(RecoverRecord(m, now), Recovered))
      else None
    case Claim(n) =>
      var Claiming(p, m, now) := s.nodes[n];
      if ClaimCommits(s, n) then Some(Version(ClaimRecord(m, now), Claimed(p.run))) else None
    case Finish(n, row) => if FinishCommitted(s, n, row) then Some(FinishVersion(s.nodes[n])) else None
    case _ => None
  }

  /** What it leaves in the store. */
  ghost predicate Leaves(s: State, written: Option<Version>, t: State) {
    match written
    case None => t.outbox == s.outbox && t.history == s.history
    case Some(v) => Wrote(s, v, t)
  }

  lemma CasStepWrites(s: State, a: Action)
    requires StoreInv(s) && Enabled(s, a) && (a.Recover? || a.Claim? || a.Finish?)
    ensures Leaves(s, Written(s, a), Next(s, a))
  {
  }

  lemma StepWrites(s: State, a: Action)
    requires StoreInv(s) && Enabled(s, a) && !a.Create?
    ensures Leaves(s, Written(s, a), Next(s, a))
  {
    if a.Recover? || a.Claim? || a.Finish? {
      CasStepWrites(s, a);
    }
  }

  /** A recovery follows the end of the lease, and a finish its start. */
  lemma WrittenFollows(s: State, a: Action)
    requires Inv(s) && Enabled(s, a) && Written(s, a).Some?
    ensures var v := Written(s, a).value;
            && v.msg.id in s.history && RowInv(s, v.msg.id)
            && LeaseEdge(s.history[v.msg.id][|s.history[v.msg.id]| - 1], v)
  {
    var v := Written(s, a).value;
    StoredLease(s, v.msg.id);
    assert RowInv(s, v.msg.id);
    assert NodeOk(s.nodes[a.node]);
  }

  // ---- every step keeps the invariant ---------------------------------------------------------------

  lemma CreateWrites(s: State, m: Message)
    requires StoreInv(s) && Enabled(s, Create(m))
    ensures m.id !in s.history && Next(s, Create(m)).history == s.history[m.id := [Version(m, Created)]]
  {
    assert [] + [Version(m, Created)] == [Version(m, Created)];
  }

  lemma InsertKeepsStore(s: State, m: Message, t: State)
    requires StoreInv(s) && m.id !in s.outbox && m.status == Pending
    requires t.outbox == s.outbox[m.id := m] && t.history == s.history[m.id := [Version(m, Created)]]
    ensures StoreInv(t)
  {
    forall id | id in t.history
      ensures RowInv(t, id)
    {
      if id != m.id {
        assert RowInv(s, id);
      }
    }
  }

  lemma UnchangedStore(s: State, t: State)
    requires StoreInv(s) && t.outbox == s.outbox && t.history == s.history
    ensures StoreInv(t)
  {
    forall id | id in t.history
      ensures RowInv(t, id)
    {
      assert RowInv(s, id);
    }
  }

  lemma StepKeepsStore(s: State, a: Action)
    requires Inv(s) && Enabled(s, a)
    ensures StoreInv(Next(s, a))
  {
    if a.Create? {
      CreateWrites(s, a.message);
      InsertKeepsStore(s, a.message, Next(s, a));
    } else {
      StepWrites(s, a);
      if Written(s, a).Some? {
        WrittenFollows(s, a);
        WriteKeepsStore(s, Written(s, a).value, Next(s, a));
      } else {
        UnchangedStore(s, Next(s, a));
      }
    }
  }

  /** A listed batch stays listed at later readings. */
  lemma LaterListed(batch: seq<Message>, now: int, later: int)
    requires AllListed(batch, now) && now <= later
    ensures AllListed(batch, later)
  {
  }

  /** The acting dispatcher stays consistent. */
  lemma StepKeepsNode(s: State, a: Action)
    requires Enabled(s, a) && !a.Create? && !a.Crash?
    requires a.node in s.nodes ==> NodeOk(s.nodes[a.node])
    ensures a.node in Next(s, a).nodes && NodeOk(Next(s, a).nodes[a.node])
  {
    if a.TakeNext? || a.Start? || a.Handle? {
      LaterListed(s.nodes[a.node].p.rest, LastRead(s.nodes[a.node]), a.now);
    }
  }

  /** A step moves its own dispatcher only. */
  lemma OtherStepKeepsNode(s: State, a: Action, n: nat)
    requires Enabled(s, a) && (a.Create? || a.node != n)
    ensures n in Next(s, a).nodes <==> n in s.nodes
    ensures n in s.nodes ==> Next(s, a).nodes[n] == s.nodes[n]
  {
  }

  /** Every step of every dispatcher keeps the invariant. */
  lemma StepKeepsInv(s: State, a: Action)
    requires Inv(s) && Enabled(s, a)
    ensures Inv(Next(s, a))
  {
    StepKeepsStore(s, a);
    var t := Next(s, a);
    forall n | n in t.nodes
      ensures NodeOk(t.nodes[n])
    {
      if a.Create? || a.node != n {
        OtherStepKeepsNode(s, a, n);
      } else if !a.Crash? {
        StepKeepsNode(s, a);
      }
    }
  }

  lemma {:induction false} RunKeepsInv(r: Run, i: nat)
    requires IsRun(r) && i <= |r.acts|
    ensures Inv(r.states[i])
  {
    if i == 0 {
    } else {
      RunKeepsInv(r, i - 1);
      assert StepAt(r, i - 1);
      StepKeepsInv(r.states[i - 1], r.acts[i - 1]);
    }
  }

  // ---- times in order -------------------------------------------------------------------------------

  /** No version is dated before an earlier one. */
  predicate Chronological(h: History) {
    forall i, j :: 0 <= i < j < |h| ==> h[i].msg.updatedAt <= h[j].msg.updatedAt
  }

  ghost predicate AllChronological(s: State) {
    forall id :: id in s.history ==> Chronological(s.history[id])
  }

  lemma AppendChronologicalIff(h: History, v: Version)
    requires h != []
    ensures Chronological(h + [v]) <==> Chronological(h) && h[|h| - 1].msg.updatedAt <= v.msg.updatedAt
  {
    var t := h + [v];
    if Chronological(t) {
      assert t[|h| - 1] == h[|h| - 1] && t[|h|] == v;
      forall i, j | 0 <= i < j < |h|
        ensures h[i].msg.updatedAt <= h[j].msg.updatedAt
      {
        assert t[i] == h[i] && t[j] == h[j];
      }
    }
  }

  /** Times are in order after a step if and only if they were before it and the step is no claim backwards. */
  lemma StepChronologicalIff(s: State, a: Action)
    requires Inv(s) && Enabled(s, a)
    ensures AllChronological(Next(s, a)) <==> AllChronological(s) && ForwardClaim(s, a)
  {
    var t := Next(s, a);
    if a.Create? {
      CreateKeepsChronology(s, a.message);
    } else {
      StepWrites(s, a);
      if Written(s, a).Some? {
        WrittenFollows(s, a);
        WriteChronologicalIff(s, Written(s, a).value, t);
        ForwardWrite(s, a);
      }
    }
  }

  lemma CreateKeepsChronology(s: State, m: Message)
    requires StoreInv(s) && Enabled(s, Create(m))
    ensures AllChronological(Next(s, Create(m))) <==> AllChronological(s)
  {
    var t := Next(s, Create(m));
    CreateWrites(s, m);
    if AllChronological(t) {
      forall id | id in s.history
        ensures Chronological(s.history[id])
      {
        assert t.history[id] == s.history[id];
      }
    }
  }

  lemma WriteChronologicalIff(s: State, v: Version, t: State)
    requires Wrote(s, v, t) && s.history[v.msg.id] != []
    ensures var h := s.history[v.msg.id];
            AllChronological(t) <==> AllChronological(s) && h[|h| - 1].msg.updatedAt <= v.msg.updatedAt
  {
    AppendChronologicalIff(s.history[v.msg.id], v);
    if AllChronological(t) {
      assert Chronological(t.history[v.msg.id]);
      forall id | id in s.history
        ensures Chronological(s.history[id])
      {
        assert Chronological(t.history[id]);
      }
    }
  }

  lemma ForwardWrite(s: State, a: Action)
    requires Inv(s) && Enabled(s, a) && Written(s, a).Some?
    requires var v := Written(s, a).value;
             && v.msg.id in s.history && RowInv(s, v.msg.id)
             && LeaseEdge(s.history[v.msg.id][|s.history[v.msg.id]| - 1], v)
    ensures var v := Written(s, a).value;
            ForwardClaim(s, a) <==> s.outbox[v.msg.id].updatedAt <= v.msg.updatedAt
  {
    StoredLease(s, Written(s, a).value.msg.id);
  }

  lemma {:induction false} ChronologicalPrefixIff(r: Run, i: nat)
    requires IsRun(r) && i <= |r.acts|
    ensures AllChronological(r.states[i]) <==> forall k :: 0 <= k < i ==> ForwardAt(r, k)
  {
    if i == 0 {
    } else {
      ChronologicalPrefixIff(r, i - 1);
      RunKeepsInv(r, i - 1);
      assert StepAt(r, i - 1);
      StepChronologicalIff(r.states[i - 1], r.acts[i - 1]);
      assert ForwardAt(r, i - 1) <==> ForwardClaim(r.states[i - 1], r.acts[i - 1]);
    }
  }

  /**
   In a run, the versions of every message are dated in order if and only if no claim that commits reads a time
   before the update time of the record it replaces.
   */
  lemma ChronologicalIffForward(r: Run)
    requires IsRun(r)
    ensures AllChronological(r.states[|r.acts|]) <==> ForwardRun(r)
  {
    ChronologicalPrefixIff(r, |r.acts|);
  }

  // ---- leases ---------------------------------------------------------------------------------------

  /** Two claims without a finish between them. */
  predicate Rivals(h: History, i: int, j: int) {
    && 0 <= i < j < |h| && h[i].origin.Claimed? && h[j].origin.Claimed?
    && forall k :: i < k < j ==> !h[k].origin.FinishedBy?
  }

  /** The later of two claims without a finish between them is not dated before the deadline of the first. */
  ghost predicate LeasesKept(h: History) {
    forall i, j :: Rivals(h, i, j) ==> h[i].msg.deadline <= h[j].msg.updatedAt
  }

  ghost predicate AllLeasesKept(s: State) {
    forall id :: id in s.history ==> LeasesKept(s.history[id])
  }

  /** A claim that commits on a record taken back from a lease does not read a time before that lease's deadline. */
  predicate LeaseOver(s: State, a: Action)
    requires Enabled(s, a)
  {
    a.Claim? && ClaimCommits(s, a.node) ==>
      var Claiming(_, m, now) := s.nodes[a.node];
      m.id in s.history && Over(s.history[m.id], now)
  }

  predicate Over(h: History, now: int) {
    |h| >= 2 && h[|h| - 1].origin.Recovered? ==> h[|h| - 2].msg.deadline <= now
  }

  ghost predicate LeaseOverAt(r: Run, i: nat)
    requires IsRun(r) && i < |r.acts|
  {
    assert StepAt(r, i);
    LeaseOver(r.states[i], r.acts[i])
  }

  lemma RivalsOfLonger(h: History, v: Version, i: int, j: int)
    requires j < |h|
    ensures Rivals(h + [v], i, j) <==> Rivals(h, i, j)
  {
    var t := h + [v];
    if 0 <= i < j {
      assert forall k :: i <= k <= j ==> t[k] == h[k];
    }
  }

  /** A rival of a claim on top of a chain stands right below the recovery, or is a rival of the one that does. */
  lemma RivalOfLast(h: History, v: Version, i: nat)
    requires LeaseChain(h + [v]) && Rivals(h + [v], i, |h|)
    ensures |h| >= 2 && h[|h| - 1].origin.Recovered? && h[|h| - 2].origin.Claimed?
    ensures i == |h| - 2 || Rivals(h, i, |h| - 2)
  {
    var t := h + [v];
    assert LeaseEdge(t[|h| - 1], t[|h|]);
    ChainLeases(t, |h| - 1);
    assert i < |h| - 1;
    assert LeaseEdge(t[|h| - 2], t[|h| - 1]);
    ChainLeases(t, |h| - 2);
    if i < |h| - 2 {
      assert Rivals(t, i, |h| - 2);
      RivalsOfLonger(h, v, i, |h| - 2);
    }
  }

  lemma AppendKeepsLeases(h: History, v: Version)
    requires LeaseChain(h + [v]) && LeasesKept(h) && (v.origin.Claimed? ==> Over(h, v.msg.updatedAt))
    ensures LeasesKept(h + [v])
  {
    var t := h + [v];
    forall i, j | Rivals(t, i, j)
      ensures t[i].msg.deadline <= t[j].msg.updatedAt
    {
      if j < |h| {
        RivalsOfLonger(h, v, i, j);
      } else {
        RivalOfLast(h, v, i);
        if i < |h| - 2 {
          ChainLeases(t, |h| - 2);
          assert t[|h| - 2] == h[|h| - 2];
        }
      }
    }
  }

  lemma AppendNeedsOver(h: History, v: Version)
    requires h != [] && LeaseChain(h + [v]) && LeasesKept(h + [v])
    ensures LeasesKept(h) && (v.origin.Claimed? ==> Over(h, v.msg.updatedAt))
  {
    var t := h + [v];
    forall i, j | Rivals(h, i, j)
      ensures h[i].msg.deadline <= h[j].msg.updatedAt
    {
      RivalsOfLonger(h, v, i, j);
      assert t[i] == h[i] && t[j] == h[j];
    }
    if v.origin.Claimed? && |h| >= 2 && h[|h| - 1].origin.Recovered? {
      assert LeaseEdge(t[|h| - 2], t[|h| - 1]);
      ChainLeases(t, |h| - 2);
      assert Rivals(t, |h| - 2, |h|);
    }
  }

  lemma WriteKeepsLeasesIff(s: State, v: Version, t: State)
    requires StoreInv(s) && StoreInv(t) && Wrote(s, v, t)
    ensures AllLeasesKept(t) <==>
            AllLeasesKept(s) && (v.origin.Claimed? ==> Over(s.history[v.msg.id], v.msg.updatedAt))
  {
    var h := s.history[v.msg.id];
    assert RowInv(s, v.msg.id) && RowInv(t, v.msg.id);
    if AllLeasesKept(t) {
      assert LeasesKept(t.history[v.msg.id]);
      AppendNeedsOver(h, v);
      forall id | id in s.history
        ensures LeasesKept(s.history[id])
      {
        assert LeasesKept(t.history[id]);
      }
    }
    if AllLeasesKept(s) && (v.origin.Claimed? ==> Over(h, v.msg.updatedAt)) {
      assert LeasesKept(h);
      AppendKeepsLeases(h, v);
    }
  }

  lemma CreateKeepsLeases(s: State, m: Message)
    requires StoreInv(s) && Enabled(s, Create(m))
    ensures AllLeasesKept(Next(s, Create(m))) <==> AllLeasesKept(s)
  {
    var t := Next(s, Create(m));
    CreateWrites(s, m);
    if AllLeasesKept(t) {
      forall id | id in s.history
        ensures LeasesKept(s.history[id])
      {
        assert t.history[id] == s.history[id];
      }
    }
  }

  /** Leases are kept after a step if and only if they were before it and the step is no early claim. */
  lemma StepKeepsLeasesIff(s: State, a: Action)
    requires Inv(s) && Enabled(s, a)
    ensures AllLeasesKept(Next(s, a)) <==> AllLeasesKept(s) && LeaseOver(s, a)
  {
    if a.Create? {
      CreateKeepsLeases(s, a.message);
    } else {
      StepWrites(s, a);
      if Written(s, a).Some? {
        WrittenFollows(s, a);
        StepKeepsStore(s, a);
        WriteKeepsLeasesIff(s, Written(s, a).value, Next(s, a));
      }
    }
  }

  lemma {:induction false} LeasesKeptPrefixIff(r: Run, i: nat)
    requires IsRun(r) && i <= |r.acts|
    ensures AllLeasesKept(r.states[i]) <==> forall k :: 0 <= k < i ==> LeaseOverAt(r, k)
  {
    if i == 0 {
    } else {
      LeasesKeptPrefixIff(r, i - 1);
      RunKeepsInv(r, i - 1);
      assert StepAt(r, i - 1);
      StepKeepsLeasesIff(r.states[i - 1], r.acts[i - 1]);
      assert LeaseOverAt(r, i - 1) <==> LeaseOver(r.states[i - 1], r.acts[i - 1]);
    }
  }

  /**
   In a run, any two claims of one message without a finish between them are at least one full lease apart if and
   only if no claim that commits on a record taken back from a lease reads a time before that lease's deadline.
   */
  lemma LeasesKeptIffOver(r: Run)
    requires IsRun(r)
    ensures AllLeasesKept(r.states[|r.acts|]) <==> forall i :: 0 <= i < |r.acts| ==> LeaseOverAt(r, i)
  {
    LeasesKeptPrefixIff(r, |r.acts|);
  }

  lemma ChronologyKeepsLeases(h: History)
    requires LeaseChain(h) && Chronological(h)
    ensures LeasesKept(h)
  {
    forall i, j | Rivals(h, i, j)
      ensures h[i].msg.deadline <= h[j].msg.updatedAt
    {
      ChainLeases(h, i);
      assert LeaseEdge(h[i], h[i + 1]);
    }
  }

  /** If claims go forward, two claims of one message without a finish between them are a full lease apart. */
  lemma ActiveLeaseNeverStolen(r: Run, id: string, i: nat, j: nat)
    requires IsRun(r) && ForwardRun(r)
    requires var s := r.states[|r.acts|]; id in s.history && Rivals(s.history[id], i, j)
    ensures var h := r.states[|r.acts|].history[id];
            h[i].msg.updatedAt + 600_000_000_000 == h[i].msg.deadline <= h[j].msg.updatedAt
  {
    RunKeepsInv(r, |r.acts|);
    ChronologicalIffForward(r);
    var s := r.states[|r.acts|];
    assert RowInv(s, id) && Chronological(s.history[id]);
    ChronologyKeepsLeases(s.history[id]);
    ChainLeases(s.history[id], i);
  }

  // ---- final records ----------------------------------------------------------------------------------

  /** Every compare-and-set expects a pending or a leased record, so none matches a final one. */
  lemma StepKeepsTerminal(s: State, a: Action, id: string)
    requires Inv(s) && Enabled(s, a) && id in s.outbox && Terminal(s.outbox[id].status)
    ensures id in Next(s, a).outbox && Next(s, a).outbox[id] == s.outbox[id]
  {
    if !a.Create? {
      StepWrites(s, a);
      if Written(s, a).Some? {
        WrittenFollows(s, a);
      }
    }
  }

  /** In every run, completed and dead-letter records are never touched again by any dispatcher. */
  lemma {:induction false} TerminalForever(r: Run, id: string, i: nat, j: nat)
    requires IsRun(r) && i <= j <= |r.acts|
    requires id in r.states[i].outbox
    requires r.states[i].outbox[id].status == Completed || r.states[i].outbox[id].status == DeadLetter
    ensures id in r.states[j].outbox
    ensures r.states[j].outbox[id] == r.states[i].outbox[id]
    decreases j - i
  {
    if i < j {
      TerminalForever(r, id, i, j - 1);
      RunKeepsInv(r, j - 1);
      assert StepAt(r, j - 1);
      StepKeepsTerminal(r.states[j - 1], r.acts[j - 1], id);
    }
  }
}
