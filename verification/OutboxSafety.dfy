/** What every step keeps as long as claims go forward and find the records they were listed with. */
module OutboxSafety {
  import opened OutboxModel
  import opened OutboxHistory
  import opened OutboxProtocol

  // ---- the store and its histories -------------------------------------------------------

  ghost predicate HistoryInv(s: State, id: string)
    requires id in s.history && id in s.outbox
  {
    var h := s.history[id];
    && ValidHistory(h)
    && h[|h| - 1].msg == s.outbox[id]
    && (forall k :: 0 <= k < |h| ==> h[k].msg.id == id)
  }

  ghost predicate StoreInv(s: State) {
    && s.outbox.Keys == s.history.Keys
    && forall id :: id in s.history ==> HistoryInv(s, id)
  }

  /** `claimed` is the record that `run` wrote to take a lease, on top of `base`. */
  ghost predicate Leased(s: State, run: nat, base: Message, claimed: Message) {
    && claimed.id in s.history
    && exists k :: 1 <= k < |s.history[claimed.id]|
                && s.history[claimed.id][k] == Version(claimed, Claimed(run))
                && s.history[claimed.id][k - 1].msg == base
  }

  /**
   In every state with sound histories a matching token means that the record is the stored one, or
   that it is pending and the stored one is the failed retry of its claim, one attempt further.
   */
  lemma MatchingTokens(s: State, m: Message)
    requires StoreInv(s) && Stored(s, m)
    ensures m.id in s.outbox
    ensures TokenOf(s.outbox[m.id]) == TokenOf(m) ==>
              s.outbox[m.id] == m || (m.status == Pending && s.outbox[m.id].attemptCount == m.attemptCount + 1)
  {
    var h := s.history[m.id];
    assert HistoryInv(s, m.id);
    var k :| 0 <= k < |h| && h[k].msg == m;
    if k < |h| - 1 && TokenOf(h[k].msg) == TokenOf(h[|h| - 1].msg) {
      RepeatIsRetry(h, k, |h| - 1);
      RetryCountsOne(h, k);
    }
  }

  /** The three-field comparison decides equality of whole records unless both are pending. */
  lemma CasComparesWholeRecords(s: State, m: Message)
    requires StoreInv(s) && Stored(s, m) && m.status != Pending
    ensures m.id in s.outbox
    ensures TokenOf(s.outbox[m.id]) == TokenOf(m) <==> s.outbox[m.id] == m
  {
    MatchingTokens(s, m);
  }

  lemma LeasedIsStored(s: State, run: nat, base: Message, claimed: Message)
    requires Leased(s, run, base, claimed)
    ensures Stored(s, claimed)
  {
    var k :| 1 <= k < |s.history[claimed.id]|
      && s.history[claimed.id][k] == Version(claimed, Claimed(run)) && s.history[claimed.id][k - 1].msg == base;
    assert s.history[claimed.id][k].msg == claimed;
  }

  /** While the leased record is still stored, it is the last version and `base` the one before. */
  lemma LeaseIsLast(s: State, run: nat, base: Message, claimed: Message)
    requires StoreInv(s) && Leased(s, run, base, claimed) && s.outbox[claimed.id] == claimed
    ensures var h := s.history[claimed.id];
            |h| >= 2 && h[|h| - 1] == Version(claimed, Claimed(run)) && h[|h| - 2].msg == base
  {
    var h := s.history[claimed.id];
    assert HistoryInv(s, claimed.id);
    var k :| 1 <= k < |h| && h[k] == Version(claimed, Claimed(run)) && h[k - 1].msg == base;
    ClaimedIsProcessing(h, k);
    if k < |h| - 1 {
      RepeatIsRetry(h, k, |h| - 1);
    }
  }

  /** A history stays sound when a version that may follow is added. */
  lemma AppendKeepsHistory(h: History, v: Version)
    requires ValidHistory(h) && Edge(h[|h| - 1], v)
    ensures ValidHistory(h + [v])
  {
  }

  /** Writing a version that may follow the current one keeps the store sound. */
  lemma RecordKeepsStore(s: State, v: Version)
    requires StoreInv(s)
    requires v.msg.id in s.history ==> Edge(s.history[v.msg.id][|s.history[v.msg.id]| - 1], v)
    requires v.msg.id !in s.history ==> v.origin == Created && Fresh(v.msg)
    ensures StoreInv(Record(s, s.outbox[v.msg.id := v.msg], v))
  {
    var id := v.msg.id;
    var t := Record(s, s.outbox[id := v.msg], v);
    var h := if id in s.history then s.history[id] else [];
    assert t.history[id] == h + [v];
    if id in s.history {
      assert HistoryInv(s, id);
      AppendKeepsHistory(h, v);
    }
    assert HistoryInv(t, id);
    forall other | other in t.history && other != id
      ensures HistoryInv(t, other)
    {
      assert HistoryInv(s, other);
    }
  }

  // ---- dispatchers ------------------------------------------------------------------------

  /** A listed record: once stored, and due no later than `now`. */
  ghost predicate Snapshot(s: State, m: Message, now: int) {
    Stored(s, m) && Due(m, now)
  }

  ghost predicate BatchInv(s: State, batch: seq<Message>, now: int) {
    forall m :: m in batch ==> Snapshot(s, m, now)
  }

  ghost predicate NodeInv(s: State, node: Node) {
    match node
    case Listing(_, _) => true
    case Looping(p, now) => BatchInv(s, p.rest, now)
    case Claiming(p, m, now) => BatchInv(s, p.rest, now) && Snapshot(s, m, now)
    case Holding(p, base, claimed) => BatchInv(s, p.rest, claimed.updatedAt) && Leased(s, p.run, base, claimed)
    case Running(p, base, claimed, startedAt) =>
      BatchInv(s, p.rest, startedAt) && Leased(s, p.run, base, claimed) && claimed.updatedAt <= startedAt
    case Finishing(p, base, claimed, _, _, finishedAt, _) =>
      BatchInv(s, p.rest, finishedAt) && Leased(s, p.run, base, claimed) && claimed.updatedAt <= finishedAt
    case Returned(_, _, _) => true
  }

  ghost predicate NodesInv(s: State) {
    forall n :: n in s.nodes ==> NodeInv(s, s.nodes[n])
  }

  ghost predicate Inv(s: State) {
    StoreInv(s) && NodesInv(s)
  }

  /** Histories only grow. */
  ghost predicate Extends(s: State, t: State) {
    forall id :: id in s.history ==> id in t.history && s.history[id] <= t.history[id]
  }

  lemma StoredExtends(s: State, t: State, m: Message)
    requires Extends(s, t) && Stored(s, m)
    ensures Stored(t, m)
  {
    var k :| 0 <= k < |s.history[m.id]| && s.history[m.id][k].msg == m;
    assert t.history[m.id][k].msg == m;
  }

  lemma LeasedExtends(s: State, t: State, run: nat, base: Message, claimed: Message)
    requires Extends(s, t) && Leased(s, run, base, claimed)
    ensures Leased(t, run, base, claimed)
  {
    var k :| 1 <= k < |s.history[claimed.id]|
      && s.history[claimed.id][k] == Version(claimed, Claimed(run)) && s.history[claimed.id][k - 1].msg == base;
    assert t.history[claimed.id][k] == Version(claimed, Claimed(run)) && t.history[claimed.id][k - 1].msg == base;
  }

  /** What was due stays due at later readings. */
  lemma BatchExtends(s: State, t: State, batch: seq<Message>, now: int, later: int)
    requires Extends(s, t) && BatchInv(s, batch, now) && now <= later
    ensures BatchInv(t, batch, later)
  {
    forall m | m in batch
      ensures Snapshot(t, m, later)
    {
      StoredExtends(s, t, m);
    }
  }

  lemma NodeExtends(s: State, t: State, node: Node)
    requires Extends(s, t) && NodeInv(s, node)
    ensures NodeInv(t, node)
  {
    if !node.Listing? && !node.Returned? {
      BatchExtends(s, t, node.p.rest, LastRead(node), LastRead(node));
    }
    match node
    case Claiming(_, m, _) => StoredExtends(s, t, m);
    case Holding(p, base, claimed) => LeasedExtends(s, t, p.run, base, claimed);
    case Running(p, base, claimed, _) => LeasedExtends(s, t, p.run, base, claimed);
    case Finishing(p, base, claimed, _, _, _, _) => LeasedExtends(s, t, p.run, base, claimed);
    case _ =>
  }

  /** All dispatchers but the acting one stay where they are. */
  lemma OthersExtend(s: State, t: State, n: nat)
    requires NodesInv(s) && Extends(s, t)
    requires forall other :: other in t.nodes && other != n ==> other in s.nodes && t.nodes[other] == s.nodes[other]
    requires n in t.nodes ==> NodeInv(t, t.nodes[n])
    ensures NodesInv(t)
  {
    forall other | other in t.nodes
      ensures NodeInv(t, t.nodes[other])
    {
      if other != n {
        NodeExtends(s, t, s.nodes[other]);
      }
    }
  }

  lemma RecordExtends(s: State, outbox: map<string, Message>, v: Version)
    ensures Extends(s, Record(s, outbox, v))
    ensures v.msg.id in s.history ==>
              var h := s.history[v.msg.id];
              Record(s, outbox, v).history[v.msg.id] == h + [v]
  {
  }

  // ---- every step keeps the invariant -----------------------------------------------------

  lemma CreateKeepsInv(s: State, m: Message)
    requires Inv(s) && Enabled(s, Create(m))
    ensures Inv(Next(s, Create(m)))
  {
    RecordKeepsStore(s, Version(m, Created));
    RecordExtends(s, s.outbox[m.id := m], Version(m, Created));
    var t := Next(s, Create(m));
    forall n | n in t.nodes
      ensures NodeInv(t, t.nodes[n])
    {
      NodeExtends(s, t, s.nodes[n]);
    }
  }

  lemma ListKeepsInv(s: State, n: nat, batch: seq<Message>)
    requires Inv(s) && Enabled(s, List(n, batch))
    ensures Inv(Next(s, List(n, batch)))
  {
    var t := Next(s, List(n, batch));
    forall m | m in batch
      ensures Snapshot(t, m, s.nodes[n].now)
    {
      var h := s.history[m.id];
      assert HistoryInv(s, m.id);
      assert t.history[m.id][|h| - 1].msg == m;
    }
    UnchangedStore(s, t);
    OthersExtend(s, t, n);
  }

  lemma UnchangedStore(s: State, t: State)
    requires StoreInv(s) && t.outbox == s.outbox && t.history == s.history
    ensures StoreInv(t) && Extends(s, t)
  {
    forall id | id in t.history
      ensures HistoryInv(t, id)
    {
      assert HistoryInv(s, id);
    }
  }

  /** `v` may be written next: it follows the stored version. */
  ghost predicate MayFollow(s: State, v: Version)
    requires StoreInv(s)
  {
    && v.msg.id in s.history
    && HistoryInv(s, v.msg.id)
    && Edge(s.history[v.msg.id][|s.history[v.msg.id]| - 1], v)
  }

  /** `t` holds the store of `s` with `v` written on top. */
  ghost predicate Wrote(s: State, v: Version, t: State) {
    var r := Record(s, s.outbox[v.msg.id := v.msg], v);
    t.outbox == r.outbox && t.history == r.history
  }

  lemma WriteKeepsStore(s: State, v: Version, t: State)
    requires StoreInv(s) && MayFollow(s, v) && Wrote(s, v, t)
    ensures StoreInv(t)
  {
    RecordKeepsStore(s, v);
    UnchangedStore(Record(s, s.outbox[v.msg.id := v.msg], v), t);
  }

  lemma WriteExtends(s: State, v: Version, t: State)
    requires Wrote(s, v, t)
    ensures Extends(s, t)
  {
    RecordExtends(s, s.outbox[v.msg.id := v.msg], v);
  }

  lemma MoveKeepsNodes(s: State, t: State, n: nat, node: Node)
    requires NodesInv(s) && Extends(s, t) && t.nodes == s.nodes[n := node] && NodeInv(t, node)
    ensures NodesInv(t)
  {
    OthersExtend(s, t, n);
  }

  /** A step that writes one version and moves one dispatcher. */
  lemma WriteKeepsInv(s: State, v: Version, t: State, n: nat, node: Node)
    requires Inv(s) && MayFollow(s, v) && Wrote(s, v, t)
    requires t.nodes == s.nodes[n := node] && NodeInv(t, node)
    ensures Inv(t)
  {
    WriteKeepsStore(s, v, t);
    WriteExtends(s, v, t);
    MoveKeepsNodes(s, t, n, node);
  }

  /** A step that leaves the store alone and moves one dispatcher. */
  lemma MoveKeepsInv(s: State, t: State, n: nat, node: Node)
    requires Inv(s)
    requires t.outbox == s.outbox && t.history == s.history && t.nodes == s.nodes[n := node]
    requires NodeInv(s, node)
    ensures Inv(t)
  {
    UnchangedStore(s, t);
    NodeExtends(s, t, node);
    MoveKeepsNodes(s, t, n, node);
  }

  lemma RecoverKeepsInv(s: State, n: nat)
    requires Inv(s) && Enabled(s, Recover(n))
    ensures Inv(RecoverStep(s, n))
  {
    var t := RecoverStep(s, n);
    var Claiming(p, message, now) := s.nodes[n];
    assert NodeInv(s, s.nodes[n]);
    var recovered := RecoverRecord(message, now);
    CasComparesWholeRecords(s, message);
    if CompareAndSet(s.outbox, recovered, message).Ok? {
      var h := s.history[message.id];
      var v := Version(recovered, Recovered);
      assert HistoryInv(s, message.id);
      DueAfterRecovery(h, message, now);
      RecordExtends(s, s.outbox[message.id := recovered], v);
      assert t.history[message.id][|h|].msg == recovered;
      BatchExtends(s, t, p.rest, now, now);
      WriteKeepsInv(s, v, t, n, Claiming(p, recovered, now));
    } else {
      MoveKeepsInv(s, t, n, Looping(p, now));
    }
  }

  /** A record that was leased was available when it was claimed. */
  lemma DueAfterRecovery(h: History, message: Message, now: int)
    requires ValidHistory(h) && h[|h| - 1].msg == message && message.status == Processing
    requires message.deadline <= now
    ensures message.availableAt <= now
  {
    ProcessingIsClaimed(h, |h| - 1);
    assert Edge(h[|h| - 2], h[|h| - 1]);
  }

  lemma ClaimMayFollow(s: State, message: Message, now: int, run: nat)
    requires StoreInv(s) && message.id in s.outbox && s.outbox[message.id] == message && message.status == Pending
    requires message.updatedAt <= now && message.availableAt <= now
    ensures MayFollow(s, Version(ClaimRecord(message, now), Claimed(run)))
  {
    assert HistoryInv(s, message.id);
  }

  lemma LeaseWritten(s: State, t: State, message: Message, claimed: Message, run: nat)
    requires StoreInv(s) && message.id in s.outbox && s.outbox[message.id] == message && claimed.id == message.id
    requires Wrote(s, Version(claimed, Claimed(run)), t)
    ensures Leased(t, run, message, claimed)
  {
    var h := s.history[message.id];
    assert HistoryInv(s, message.id);
    assert t.history[message.id][|h|] == Version(claimed, Claimed(run));
    assert t.history[message.id][|h| - 1].msg == message;
  }

  lemma ClaimKeepsInv(s: State, n: nat)
    requires Inv(s) && Enabled(s, Claim(n)) && ExactClaim(s, Claim(n)) && ForwardClaim(s, Claim(n))
    ensures Inv(ClaimStep(s, n))
  {
    var t := ClaimStep(s, n);
    var Claiming(p, message, now) := s.nodes[n];
    assert NodeInv(s, s.nodes[n]);
    var claimed := ClaimRecord(message, now);
    if CompareAndSet(s.outbox, claimed, message).Ok? {
      var v := Version(claimed, Claimed(p.run));
      ClaimMayFollow(s, message, now, p.run);
      WriteExtends(s, v, t);
      LeaseWritten(s, t, message, claimed, p.run);
      BatchExtends(s, t, p.rest, now, now);
      WriteKeepsInv(s, v, t, n, Holding(p, message, claimed));
    } else {
      MoveKeepsInv(s, t, n, Looping(p, now));
    }
  }

  /** A finish commits exactly when the record it leased is still the stored one. */
  lemma FinishCommits(s: State, n: nat)
    requires Inv(s) && n in s.nodes && s.nodes[n].Finishing?
    ensures var node := s.nodes[n];
            && node.claimed.id in s.outbox
            && (CompareAndSet(s.outbox, FinishWrite(node), FinishExpects(node)).Ok? <==>
                s.outbox[node.claimed.id] == node.claimed)
  {
    var node := s.nodes[n];
    assert NodeInv(s, node);
    LeasedIsStored(s, node.p.run, node.base, node.claimed);
    LeasedIsProcessing(s, node.p.run, node.base, node.claimed);
    CasComparesWholeRecords(s, node.claimed);
  }

  lemma LeasedIsProcessing(s: State, run: nat, base: Message, claimed: Message)
    requires StoreInv(s) && Leased(s, run, base, claimed)
    ensures claimed.status == Processing && base.status == Pending && base.updatedAt <= claimed.updatedAt
  {
    var h := s.history[claimed.id];
    assert HistoryInv(s, claimed.id);
    var k :| 1 <= k < |h| && h[k] == Version(claimed, Claimed(run)) && h[k - 1].msg == base;
    ClaimedIsProcessing(h, k);
    ProcessingIsClaimed(h, k);
    StepTimes(h, k - 1);
  }

  function FinishVersion(node: Node): Version
    requires node.Finishing?
  {
    Version(FinishWrite(node), FinishedBy(node.p.run, node.handlerError, node.hash))
  }

  lemma FinishEdge(node: Node)
    requires node.Finishing? && node.claimed.updatedAt <= node.finishedAt
    ensures Edge(Version(node.claimed, Claimed(node.p.run)), FinishVersion(node))
  {
  }

  lemma FinishMayFollow(s: State, node: Node)
    requires StoreInv(s) && node.Finishing? && NodeInv(s, node)
    requires s.outbox[node.claimed.id] == node.claimed
    ensures MayFollow(s, FinishVersion(node))
  {
    LeaseIsLast(s, node.p.run, node.base, node.claimed);
    FinishEdge(node);
    assert HistoryInv(s, node.claimed.id);
  }

  lemma FinishStepWrites(s: State, n: nat, row: string)
    requires Enabled(s, Finish(n, row))
    requires FinishCommitted(s, n, row)
    ensures var node, t := s.nodes[n], FinishStep(s, n, row);
            && Wrote(s, FinishVersion(node), t)
            && t.nodes == s.nodes[n := Looping(node.p.(processed := node.p.processed + 1), node.finishedAt)]
  {
  }

  lemma FinishCommitKeepsInv(s: State, n: nat, node: Node, t: State)
    requires Inv(s) && node.Finishing? && NodeInv(s, node) && MayFollow(s, FinishVersion(node))
    requires Wrote(s, FinishVersion(node), t)
    requires t.nodes == s.nodes[n := Looping(node.p.(processed := node.p.processed + 1), node.finishedAt)]
    ensures Inv(t)
  {
    WriteExtends(s, FinishVersion(node), t);
    BatchExtends(s, t, node.p.rest, node.finishedAt, node.finishedAt);
    WriteKeepsInv(s, FinishVersion(node), t, n, Looping(node.p.(processed := node.p.processed + 1), node.finishedAt));
  }

  lemma FinishKeepsInv(s: State, n: nat, row: string)
    requires Inv(s) && Enabled(s, Finish(n, row))
    ensures Inv(FinishStep(s, n, row))
  {
    var node := s.nodes[n];
    FinishCommits(s, n);
    assert NodeInv(s, node);
    if FinishCommitted(s, n, row) {
      FinishMayFollow(s, node);
      FinishStepWrites(s, n, row);
      FinishCommitKeepsInv(s, n, node, FinishStep(s, n, row));
    } else {
      MoveKeepsInv(s, FinishStep(s, n, row), n, Returned(node.p.run, node.p.processed, true));
    }
  }

  lemma CrashKeepsInv(s: State, n: nat)
    requires Inv(s) && Enabled(s, Crash(n))
    ensures Inv(Next(s, Crash(n)))
  {
    var t := s.(nodes := s.nodes - {n});
    UnchangedStore(s, t);
    OthersExtend(s, t, n);
  }

  /** A dispatcher that reads its clock again. */
  lemma ReadKeepsBatch(s: State, a: Action)
    requires Inv(s) && Enabled(s, a) && (a.TakeNext? || a.Start? || a.Handle?)
    ensures BatchInv(s, s.nodes[a.node].p.rest, a.now)
  {
    var node := s.nodes[a.node];
    assert NodeInv(s, node);
    BatchExtends(s, s, node.p.rest, LastRead(node), a.now);
  }

  /** Steps of one dispatcher that do not write. */
  lemma LocalStepKeepsInv(s: State, a: Action)
    requires Inv(s) && Enabled(s, a)
    requires a.ReadListClock? || a.TakeNext? || a.Start? || a.Handle? || a.Return?
    ensures Inv(Next(s, a))
  {
    var node := Next(s, a).nodes[a.node];
    if !a.ReadListClock? {
      assert NodeInv(s, s.nodes[a.node]);
    }
    if a.TakeNext? || a.Start? || a.Handle? {
      ReadKeepsBatch(s, a);
    }
    MoveKeepsInv(s, Next(s, a), a.node, node);
  }

  /** Every step keeps the invariant, a claim that commits provided that it goes forward and is exact. */
  lemma StepKeepsInv(s: State, a: Action)
    requires Inv(s) && Enabled(s, a) && ForwardClaim(s, a) && ExactClaim(s, a)
    ensures Inv(Next(s, a))
  {
    if a.Recover? || a.Claim? || a.Finish? {
      StoreStepKeepsInv(s, a);
    } else if a.Crash? || a.Create? || a.List? {
      OtherStepKeepsInv(s, a);
    } else {
      LocalStepKeepsInv(s, a);
    }
  }

  /** The three compare-and-set steps. */
  lemma StoreStepKeepsInv(s: State, a: Action)
    requires Inv(s) && Enabled(s, a) && ForwardClaim(s, a) && ExactClaim(s, a) && (a.Recover? || a.Claim? || a.Finish?)
    ensures Inv(Next(s, a))
  {
    match a
    case Recover(n) => RecoverKeepsInv(s, n);
    case Claim(n) => ClaimKeepsInv(s, n);
    case Finish(n, row) => FinishKeepsInv(s, n, row);
  }

  lemma OtherStepKeepsInv(s: State, a: Action)
    requires Inv(s) && Enabled(s, a) && (a.Crash? || a.Create? || a.List?)
    ensures Inv(Next(s, a))
  {
    if a.Crash? {
      CrashKeepsInv(s, a.node);
    } else if a.Create? {
      CreateKeepsInv(s, a.message);
    } else {
      ListKeepsInv(s, a.node, a.batch);
    }
  }
}
