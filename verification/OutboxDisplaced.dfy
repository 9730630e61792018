/** Dispatchers that have lost their lease. */
module OutboxDisplaced {
  import opened OutboxModel
  import opened OutboxProtocol
  import opened OutboxLeases
  import OutboxAccounting

  // ---- holders --------------------------------------------------------------------------------------

  /** The stored record is dated after the claim. */
  predicate Overtaken(s: State, claimed: Message) {
    claimed.id in s.outbox && s.outbox[claimed.id].updatedAt > claimed.updatedAt
  }

  ghost predicate HolderInv(s: State, node: Node) {
    RunOf(node) in s.runs && (Holder(node) ==> Keeps(s, node.claimed) || Overtaken(s, node.claimed))
  }

  /** Two dispatchers that hold the same message carry different tokens. */
  predicate Apart(a: Node, b: Node) {
    Holder(a) && Holder(b) && a.claimed.id == b.claimed.id ==> TokenOf(a.claimed) != TokenOf(b.claimed)
  }

  ghost predicate HoldersInv(s: State) {
    && (forall n :: n in s.nodes ==> HolderInv(s, s.nodes[n]))
    && (forall n, k :: n in s.nodes && k in s.nodes && n != k ==> Apart(s.nodes[n], s.nodes[k]))
  }

  /** Calls stay started, and stored records are replaced by records dated no earlier. */
  ghost predicate Advances(s: State, t: State) {
    && s.runs <= t.runs
    && forall id :: id in s.outbox ==> id in t.outbox && s.outbox[id].updatedAt <= t.outbox[id].updatedAt
  }

  /** Every lease that the store still shows, except that of `n`, is shown or overtaken in `t`. */
  ghost predicate Respects(s: State, t: State, n: nat) {
    forall k :: k in s.nodes && k != n && Holder(s.nodes[k]) && Keeps(s, s.nodes[k].claimed) ==>
      Keeps(t, s.nodes[k].claimed) || Overtaken(t, s.nodes[k].claimed)
  }

  lemma HolderAdvances(s: State, t: State, node: Node)
    requires HolderInv(s, node) && Advances(s, t)
    requires Holder(node) && Keeps(s, node.claimed) ==> Keeps(t, node.claimed) || Overtaken(t, node.claimed)
    ensures HolderInv(t, node)
  {
  }

  /** A step that moves dispatcher `n` and nobody else. */
  lemma MoveKeepsHolders(s: State, t: State, n: nat, node: Node)
    requires HoldersInv(s) && Advances(s, t) && Respects(s, t, n)
    requires t.nodes == s.nodes[n := node] && HolderInv(t, node)
    requires forall k :: k in s.nodes && k != n ==> Apart(node, s.nodes[k])
    ensures HoldersInv(t)
  {
    forall k | k in t.nodes
      ensures HolderInv(t, t.nodes[k])
    {
      if k != n {
        assert HolderInv(s, s.nodes[k]);
        HolderAdvances(s, t, s.nodes[k]);
      }
    }
    forall k, l | k in t.nodes && l in t.nodes && k != l
      ensures Apart(t.nodes[k], t.nodes[l])
    {
      if k != n && l != n {
        assert Apart(s.nodes[k], s.nodes[l]);
      } else if k == n {
        assert Apart(node, s.nodes[l]);
      } else {
        assert Apart(node, s.nodes[k]);
      }
    }
  }

  /** A dispatcher moves on with the lease it has, or with none, and nothing is written. */
  lemma LocalMoveKeepsHolders(s: State, t: State, n: nat, node: Node)
    requires HoldersInv(s) && t.outbox == s.outbox && s.runs <= t.runs
    requires t.nodes == s.nodes[n := node] && RunOf(node) in t.runs
    requires Holder(node) ==> n in s.nodes && Holder(s.nodes[n]) && s.nodes[n].claimed == node.claimed
    ensures HoldersInv(t)
  {
    if n in s.nodes {
      assert HolderInv(s, s.nodes[n]);
    }
    forall k | k in s.nodes && k != n
      ensures Apart(node, s.nodes[k])
    {
      if Holder(node) {
        assert Apart(s.nodes[n], s.nodes[k]);
      }
    }
    MoveKeepsHolders(s, t, n, node);
  }

  /** No dispatcher moves; some may leave. */
  lemma StayKeepsHolders(s: State, t: State)
    requires HoldersInv(s) && Advances(s, t)
    requires forall id :: id in s.outbox ==> t.outbox[id] == s.outbox[id]
    requires forall n :: n in t.nodes ==> n in s.nodes && t.nodes[n] == s.nodes[n]
    ensures HoldersInv(t)
  {
    forall n | n in t.nodes
      ensures HolderInv(t, t.nodes[n])
    {
      assert HolderInv(s, s.nodes[n]);
      HolderAdvances(s, t, s.nodes[n]);
    }
    forall n, k | n in t.nodes && k in t.nodes && n != k
      ensures Apart(t.nodes[n], t.nodes[k])
    {
      assert Apart(s.nodes[n], s.nodes[k]);
    }
  }

  // ---- compare-and-set steps --------------------------------------------------------------------------

  predicate Earlier(node: Node, m: Message) {
    Holder(node) && node.claimed.id == m.id ==> node.claimed.updatedAt < m.updatedAt
  }

  /** `m` is dated no earlier than the record it replaces, and after every lease that others than `n` hold on it. */
  ghost predicate Overtakes(s: State, m: Message, n: nat) {
    && m.id in s.outbox && s.outbox[m.id].updatedAt <= m.updatedAt
    && forall k :: k in s.nodes && k != n ==> Earlier(s.nodes[k], m)
  }

  lemma CommitRespects(s: State, m: Message, t: State, n: nat)
    requires Overtakes(s, m, n) && t.outbox == s.outbox[m.id := m] && t.runs == s.runs
    ensures Advances(s, t) && Respects(s, t, n)
  {
    forall k | k in s.nodes && k != n && Holder(s.nodes[k]) && Keeps(s, s.nodes[k].claimed)
      ensures Keeps(t, s.nodes[k].claimed) || Overtaken(t, s.nodes[k].claimed)
    {
      assert Earlier(s.nodes[k], m);
    }
  }

  /** A step that writes `m` and moves dispatcher `n`. */
  lemma CommitKeepsHolders(s: State, m: Message, t: State, n: nat, node: Node)
    requires HoldersInv(s) && Overtakes(s, m, n) && t.outbox == s.outbox[m.id := m] && t.runs == s.runs
    requires t.nodes == s.nodes[n := node] && RunOf(node) in s.runs && (Holder(node) ==> node.claimed == m)
    ensures HoldersInv(t)
  {
    CommitRespects(s, m, t, n);
    forall k | k in s.nodes && k != n
      ensures Apart(node, s.nodes[k])
    {
      assert Earlier(s.nodes[k], m);
    }
    MoveKeepsHolders(s, t, n, node);
  }

  /**
   A recovery is dated after the lease it ends; a claim that goes forward is dated after all leases, as the record it
   replaces is pending; and only one holder carries the stored token, so a finish overtakes all others.
   */
  lemma WrittenOvertakes(s: State, a: Action)
    requires Inv(s) && HoldersInv(s) && Enabled(s, a) && ForwardClaim(s, a) && Written(s, a).Some?
    ensures Overtakes(s, Written(s, a).value.msg, a.node)
  {
    var m := Written(s, a).value.msg;
    WrittenFollows(s, a);
    ForwardWrite(s, a);
    StoredLease(s, m.id);
    forall k | k in s.nodes && k != a.node
      ensures Earlier(s.nodes[k], m)
    {
      assert HolderInv(s, s.nodes[k]);
      if a.Finish? {
        assert Apart(s.nodes[a.node], s.nodes[k]);
      }
      WrittenIsLater(s, a, s.nodes[k], m);
    }
  }

  lemma WrittenIsLater(s: State, a: Action, other: Node, m: Message)
    requires Enabled(s, a) && Written(s, a).Some? && m == Written(s, a).value.msg && m.id in s.outbox
    requires Holder(other) ==> Keeps(s, other.claimed) || Overtaken(s, other.claimed)
    requires Holder(other) ==> other.claimed.status == Processing
    requires s.outbox[m.id].updatedAt <= m.updatedAt
    requires a.Recover? ==> s.outbox[m.id].updatedAt < m.updatedAt
    requires a.Finish? ==> Apart(s.nodes[a.node], other)
    ensures Earlier(other, m)
  {
  }

  /** Where the acting dispatcher stands after a step that writes. */
  lemma WriterMoves(s: State, a: Action)
    requires Enabled(s, a) && Written(s, a).Some? && RunOf(s.nodes[a.node]) in s.runs
    ensures var t := Next(s, a);
            && t.runs == s.runs && a.node in t.nodes && t.nodes == s.nodes[a.node := t.nodes[a.node]]
            && RunOf(t.nodes[a.node]) in s.runs
            && (Holder(t.nodes[a.node]) ==> t.nodes[a.node].claimed == Written(s, a).value.msg)
  {
  }

  /** And after one that does not. */
  lemma ReaderMoves(s: State, a: Action)
    requires Enabled(s, a) && !a.Create? && !a.Crash? && Written(s, a).None?
    requires a.node in s.nodes ==> RunOf(s.nodes[a.node]) in s.runs
    ensures var t := Next(s, a);
            && s.runs <= t.runs && a.node in t.nodes && t.nodes == s.nodes[a.node := t.nodes[a.node]]
            && RunOf(t.nodes[a.node]) in t.runs
            && (Holder(t.nodes[a.node]) ==>
                  a.node in s.nodes && Holder(s.nodes[a.node]) && s.nodes[a.node].claimed == t.nodes[a.node].claimed)
  {
  }

  /** Every step keeps the holders in order, a claim that commits provided that it goes forward. */
  lemma StepKeepsHolders(s: State, a: Action)
    requires Inv(s) && HoldersInv(s) && Enabled(s, a) && ForwardClaim(s, a)
    ensures HoldersInv(Next(s, a))
  {
    var t := Next(s, a);
    if a.Create? || a.Crash? {
      StayKeepsHolders(s, t);
    } else {
      StepWrites(s, a);
      assert a.node in s.nodes ==> HolderInv(s, s.nodes[a.node]);
      if Written(s, a).Some? {
        WrittenOvertakes(s, a);
        WriterMoves(s, a);
        CommitKeepsHolders(s, Written(s, a).value.msg, t, a.node, t.nodes[a.node]);
      } else {
        ReaderMoves(s, a);
        LocalMoveKeepsHolders(s, t, a.node, t.nodes[a.node]);
      }
    }
  }

  lemma {:induction false} ForwardRunKeepsHolders(r: Run, i: nat)
    requires IsRun(r) && ForwardRun(r) && i <= |r.acts|
    ensures HoldersInv(r.states[i])
  {
    if i == 0 {
    } else {
      ForwardRunKeepsHolders(r, i - 1);
      RunKeepsInv(r, i - 1);
      assert StepAt(r, i - 1);
      assert ForwardAt(r, i - 1);
      StepKeepsHolders(r.states[i - 1], r.acts[i - 1]);
    }
  }

  // ---- displaced dispatchers --------------------------------------------------------------------------

  /** A claim that commits is not dated like a lease that somebody still holds on its message. */
  ghost predicate FreshClaim(s: State, a: Action)
    requires Enabled(s, a)
  {
    a.Claim? && ClaimCommits(s, a.node) ==>
      forall k :: k in s.nodes ==> DatedApart(s.nodes[k], s.nodes[a.node].message.id, s.nodes[a.node].now)
  }

  predicate DatedApart(node: Node, id: string, now: int) {
    Holder(node) && node.claimed.id == id ==> node.claimed.updatedAt != now
  }

  ghost predicate FreshAt(r: Run, i: nat)
    requires IsRun(r) && i < |r.acts|
  {
    assert StepAt(r, i);
    FreshClaim(r.states[i], r.acts[i])
  }

  ghost predicate FreshRun(r: Run)
    requires IsRun(r)
  {
    forall i :: 0 <= i < |r.acts| ==> FreshAt(r, i)
  }

  /** Dispatcher `n` holds a lease that the store does not show. */
  predicate Displaced(s: State, n: nat) {
    n in s.nodes && Holder(s.nodes[n]) && !Keeps(s, s.nodes[n].claimed)
  }

  /** It is displaced before step `i` and later, in the same call, holds a lease that the store shows. */
  ghost predicate Regains(r: Run, i: nat, j: nat, n: nat)
    requires IsRun(r)
  {
    && i <= j <= |r.acts| && Displaced(r.states[i], n)
    && n in r.states[j].nodes && Holder(r.states[j].nodes[n]) && !Displaced(r.states[j], n)
    && RunOf(r.states[j].nodes[n]) == RunOf(r.states[i].nodes[n])
  }

  /** While dispatcher `n` is in call `run`, it holds the lost lease `claimed`; the call never starts again. */
  ghost predicate Lost(s: State, n: nat, run: nat, claimed: Message) {
    && run in s.runs
    && (n in s.nodes && RunOf(s.nodes[n]) == run && !s.nodes[n].Returned? ==>
          Displaced(s, n) && s.nodes[n].claimed == claimed)
  }

  /** Only a claim that is not fresh brings a token back that somebody still holds. */
  lemma TokenStaysLost(s: State, a: Action, n: nat)
    requires Inv(s) && Enabled(s, a) && FreshClaim(s, a) && Displaced(s, n)
    ensures !Keeps(Next(s, a), s.nodes[n].claimed)
  {
    assert NodeOk(s.nodes[n]);
    if a.Create? {
      CreateWrites(s, a.message);
    } else {
      StepWrites(s, a);
      if Written(s, a).Some? {
        WrittenFollows(s, a);
        if a.Claim? {
          assert DatedApart(s.nodes[n], s.nodes[a.node].message.id, s.nodes[a.node].now);
        }
      }
    }
  }

  lemma StepKeepsLost(s: State, a: Action, n: nat, run: nat, claimed: Message)
    requires Inv(s) && Enabled(s, a) && FreshClaim(s, a) && Lost(s, n, run, claimed)
    ensures Lost(Next(s, a), n, run, claimed)
  {
    RunsStay(s, a);
    if Displaced(s, n) {
      TokenStaysLost(s, a, n);
    }
    if !a.Create? && a.node == n {
      OwnStepKeepsLost(s, a, n, run, claimed);
    } else {
      OtherStepKeepsNode(s, a, n);
    }
  }

  lemma RunsStay(s: State, a: Action)
    requires Enabled(s, a)
    ensures s.runs <= Next(s, a).runs
  {
  }

  /** The holder of a lost lease can only start its handler, end it, fail to finish, or crash. */
  lemma OwnStepKeepsLost(s: State, a: Action, n: nat, run: nat, claimed: Message)
    requires Enabled(s, a) && Lost(s, n, run, claimed) && !a.Create? && a.node == n
    ensures var t := Next(s, a);
            n in t.nodes && RunOf(t.nodes[n]) == run && !t.nodes[n].Returned? ==>
              n in s.nodes && Displaced(s, n) && Holder(t.nodes[n]) && t.nodes[n].claimed == claimed
  {
  }

  lemma NextKeepsLost(r: Run, i: nat, n: nat, run: nat, claimed: Message)
    requires IsRun(r) && i < |r.acts| && FreshAt(r, i) && Inv(r.states[i]) && Lost(r.states[i], n, run, claimed)
    ensures Lost(r.states[i + 1], n, run, claimed)
  {
    assert StepAt(r, i);
    StepKeepsLost(r.states[i], r.acts[i], n, run, claimed);
  }

  lemma {:induction false} RunKeepsLost(r: Run, i: nat, j: nat, n: nat, run: nat, claimed: Message)
    requires IsRun(r) && FreshRun(r) && i <= j <= |r.acts| && Lost(r.states[i], n, run, claimed)
    ensures Lost(r.states[j], n, run, claimed)
    decreases j - i
  {
    if i < j {
      RunKeepsLost(r, i, j - 1, n, run, claimed);
      RunKeepsInv(r, j - 1);
      NextKeepsLost(r, j - 1, n, run, claimed);
    }
  }

  lemma DisplacedIsLost(r: Run, i: nat, n: nat)
    requires IsRun(r) && i <= |r.acts| && Displaced(r.states[i], n)
    ensures Lost(r.states[i], n, RunOf(r.states[i].nodes[n]), r.states[i].nodes[n].claimed)
  {
    OutboxAccounting.RunKeepsCount(r, i);
    assert OutboxAccounting.NodeCount(r.states[i], r.states[i].nodes[n]);
  }

  /** A claim that is not fresh gives a displaced dispatcher its token back at once. */
  lemma StaleDateRegains(r: Run, i: nat) returns (n: nat)
    requires IsRun(r) && i < |r.acts| && !FreshAt(r, i)
    ensures Regains(r, i, i + 1, n)
  {
    assert StepAt(r, i);
    var s, a := r.states[i], r.acts[i];
    RunKeepsInv(r, i);
    n :| n in s.nodes && !DatedApart(s.nodes[n], s.nodes[a.node].message.id, s.nodes[a.node].now);
    assert NodeOk(s.nodes[n]);
    OtherStepKeepsNode(s, a, n);
  }

  /**
   In a run, a dispatcher that has lost its lease never holds it again in that call if and only if no claim that
   commits is dated like a lease that somebody still holds on its message.
   */
  lemma NeverRegainsIffFresh(r: Run)
    requires IsRun(r)
    ensures (forall i: nat, j: nat, n: nat :: !Regains(r, i, j, n)) <==> FreshRun(r)
  {
    if FreshRun(r) {
      forall i: nat, j: nat, n: nat | Regains(r, i, j, n)
        ensures false
      {
        DisplacedIsLost(r, i, n);
        RunKeepsLost(r, i, j, n, RunOf(r.states[i].nodes[n]), r.states[i].nodes[n].claimed);
      }
    } else {
      var i :| 0 <= i < |r.acts| && !FreshAt(r, i);
      var n := StaleDateRegains(r, i);
    }
  }

  /** Claims that go forward are fresh. */
  lemma ForwardRunIsFresh(r: Run)
    requires IsRun(r) && ForwardRun(r)
    ensures FreshRun(r)
  {
    forall i | 0 <= i < |r.acts|
      ensures FreshAt(r, i)
    {
      RunKeepsInv(r, i);
      ForwardRunKeepsHolders(r, i);
      assert StepAt(r, i) && ForwardAt(r, i);
      ForwardIsFresh(r.states[i], r.acts[i]);
    }
  }

  lemma ForwardIsFresh(s: State, a: Action)
    requires Inv(s) && HoldersInv(s) && Enabled(s, a) && ForwardClaim(s, a)
    ensures FreshClaim(s, a)
  {
    if a.Claim? && ClaimCommits(s, a.node) {
      WrittenOvertakes(s, a);
      forall k | k in s.nodes
        ensures DatedApart(s.nodes[k], s.nodes[a.node].message.id, s.nodes[a.node].now)
      {
        assert k != a.node ==> Earlier(s.nodes[k], Written(s, a).value.msg);
      }
    }
  }

  /**
   If claims are fresh, a dispatcher that holds a lease whose token the store no longer shows never commits its
   finish, now or later in that call: the finish fails and messages, histories and job attempts stay as they are.
   */
  lemma DisplacedFinishRejected(r: Run, i: nat, j: nat, n: nat, row: string)
    requires IsRun(r) && FreshRun(r) && i <= j <= |r.acts|
    requires Displaced(r.states[i], n) && Enabled(r.states[j], Finish(n, row))
    requires RunOf(r.states[j].nodes[n]) == RunOf(r.states[i].nodes[n])
    ensures var s, t := r.states[j], FinishStep(r.states[j], n, row);
            && t.outbox == s.outbox && t.attempts == s.attempts && t.history == s.history && t.author == s.author
            && t.nodes[n] == Returned(s.nodes[n].p.run, s.nodes[n].p.processed, true)
  {
    DisplacedIsLost(r, i, n);
    RunKeepsLost(r, i, j, n, RunOf(r.states[i].nodes[n]), r.states[i].nodes[n].claimed);
  }
}
