/** When the three-field comparison may stand for a comparison of whole records. */
module OutboxTheorems {
  import opened OutboxModel
  import opened OutboxHistory
  import opened OutboxProtocol
  import opened OutboxSafety
  import opened OutboxWhole

  // ---- whole records --------------------------------------------------------------------------

  lemma {:induction false} ExactPrefixKeepsInv(r: Run, i: nat)
    requires IsRun(r) && ForwardRun(r) && i <= |r.acts|
    requires forall k :: 0 <= k < i ==> ExactAt(r, k)
    ensures Inv(r.states[i])
  {
    if i == 0 {
    } else {
      ExactPrefixKeepsInv(r, i - 1);
      assert StepAt(r, i - 1);
      assert ExactAt(r, i - 1);
      assert ForwardAt(r, i - 1);
      StepKeepsInv(r.states[i - 1], r.acts[i - 1]);
    }
  }

  lemma ExactStepIsWhole(s: State, a: Action)
    requires Inv(s) && Enabled(s, a) && ExactClaim(s, a)
    ensures WholeRecordStep(s, a)
  {
    if a.Finish? {
      FinishCommits(s, a.node);
    } else if a.Recover? {
      assert NodeInv(s, s.nodes[a.node]);
      CasComparesWholeRecords(s, s.nodes[a.node].message);
    }
  }

  /** In a sound state a stale claim shows in the attempt count. */
  lemma ExactIffCounted(s: State, a: Action)
    requires Inv(s) && Enabled(s, a)
    ensures ExactClaim(s, a) <==> CountedClaim(s, a)
  {
    if a.Claim? {
      assert NodeInv(s, s.nodes[a.node]);
      MatchingTokens(s, s.nodes[a.node].message);
    }
  }

  lemma {:induction false} CountedPrefixIsExact(r: Run, i: nat)
    requires IsRun(r) && ForwardRun(r) && i <= |r.acts| && forall k :: 0 <= k < i ==> CountedAt(r, k)
    ensures forall k :: 0 <= k < i ==> ExactAt(r, k)
  {
    if i > 0 {
      CountedPrefixIsExact(r, i - 1);
      ExactPrefixKeepsInv(r, i - 1);
      assert StepAt(r, i - 1);
      assert CountedAt(r, i - 1);
      ExactIffCounted(r.states[i - 1], r.acts[i - 1]);
    }
  }

  /**
   Every compare-and-set of a run decides equality of whole records if and only if no claim commits on a
   record other than the one it was listed with, and that is so if and only if every claim that commits finds
   the attempt count it was listed with.
   */
  lemma WholeRecordsIffExact(r: Run)
    requires IsRun(r) && ForwardRun(r)
    ensures WholeRun(r) <==> ExactRun(r)
    ensures ExactRun(r) <==> CountedRun(r)
  {
    if ExactRun(r) {
      forall i | 0 <= i < |r.acts|
        ensures WholeRecordAt(r, i) && CountedAt(r, i)
      {
        assert ExactAt(r, i);
        ExactPrefixKeepsInv(r, i);
        assert StepAt(r, i);
        ExactStepIsWhole(r.states[i], r.acts[i]);
      }
    }
    if WholeRun(r) {
      forall i | 0 <= i < |r.acts|
        ensures ExactAt(r, i)
      {
        assert WholeRecordAt(r, i);
      }
    }
    if CountedRun(r) {
      CountedPrefixIsExact(r, |r.acts|);
    }
  }

  // ---- tokens ---------------------------------------------------------------------------------

  ghost predicate AllTokensDistinct(s: State) {
    forall id :: id in s.history ==> DistinctTokens(s.history[id])
  }

  ghost predicate AllGuarded(s: State) {
    forall id :: id in s.history ==> RetriesGuarded(s.history[id])
  }

  lemma GuardedTokens(s: State)
    requires StoreInv(s) && AllGuarded(s)
    ensures AllTokensDistinct(s)
  {
    forall id | id in s.history
      ensures DistinctTokens(s.history[id])
    {
      assert HistoryInv(s, id);
      GuardedTokensDistinct(s.history[id]);
    }
  }

  /** With distinct tokens a claim that commits is exact. */
  lemma GuardedStateIsExact(s: State, a: Action)
    requires Inv(s) && AllGuarded(s) && Enabled(s, a)
    ensures ExactClaim(s, a)
  {
    if a.Claim? {
      var m := s.nodes[a.node].message;
      assert NodeInv(s, s.nodes[a.node]);
      var h := s.history[m.id];
      assert HistoryInv(s, m.id);
      GuardedTokensDistinct(h);
      var k :| 0 <= k < |h| && h[k].msg == m;
    }
  }

  /** The history of the finished message grows by one version, all others stay. */
  lemma FinishGrowsHistory(s: State, n: nat, row: string)
    requires Inv(s) && Enabled(s, Finish(n, row)) && FinishCommitted(s, n, row)
    ensures var node := s.nodes[n];
            var id := node.claimed.id;
            && id in s.history && |s.history[id]| >= 2 && s.history[id][|s.history[id]| - 2].msg == node.base
            && FinishStep(s, n, row).history == s.history[id := s.history[id] + [FinishVersion(node)]]
  {
    var node := s.nodes[n];
    assert NodeInv(s, node);
    FinishCommits(s, n);
    LeaseIsLast(s, node.p.run, node.base, node.claimed);
  }

  lemma AppendGuardedRetry(h: History, v: Version)
    requires RetriesGuarded(h) && |h| >= 2
    requires v.msg.status == Pending ==> v.msg.updatedAt != h[|h| - 2].msg.updatedAt
    ensures RetriesGuarded(h + [v])
  {
  }

  lemma FinishKeepsGuarded(s: State, n: nat, row: string)
    requires Inv(s) && AllGuarded(s) && Enabled(s, Finish(n, row)) && RetryGuard(s, Finish(n, row))
    ensures AllGuarded(FinishStep(s, n, row))
  {
    if FinishCommitted(s, n, row) {
      FinishGrowsHistory(s, n, row);
      AppendGuardedRetry(s.history[s.nodes[n].claimed.id], FinishVersion(s.nodes[n]));
    }
  }

  /** A version that is no retry keeps a history guarded. */
  lemma AppendKeepsGuarded(h: History, v: Version)
    requires RetriesGuarded(h) && !v.origin.FinishedBy?
    ensures RetriesGuarded(h + [v])
  {
  }

  lemma OtherStepKeepsGuarded(s: State, a: Action)
    requires AllGuarded(s) && Enabled(s, a) && !a.Finish?
    ensures AllGuarded(Next(s, a))
  {
    var t := Next(s, a);
    forall id | id in t.history
      ensures RetriesGuarded(t.history[id])
    {
      var h := if id in s.history then s.history[id] else [];
      if t.history[id] != h {
        assert RetriesGuarded(h);
        assert t.history[id] == h + [t.history[id][|h|]];
        AppendKeepsGuarded(h, t.history[id][|h|]);
      }
    }
  }

  lemma GuardedStep(s: State, a: Action)
    requires Inv(s) && AllGuarded(s) && Enabled(s, a) && ForwardClaim(s, a) && RetryGuard(s, a)
    ensures ExactClaim(s, a) && Inv(Next(s, a)) && AllGuarded(Next(s, a))
  {
    GuardedStateIsExact(s, a);
    StepKeepsInv(s, a);
    if a.Finish? {
      FinishKeepsGuarded(s, a.node, a.row);
    } else {
      OtherStepKeepsGuarded(s, a);
    }
  }

  /** As long as retries are guarded, claims are exact and histories sound and guarded. */
  lemma {:induction false} GuardedPrefix(r: Run, i: nat)
    requires IsRun(r) && ForwardRun(r) && i <= |r.acts| && forall k :: 0 <= k < i ==> GuardedAt(r, k)
    ensures Inv(r.states[i]) && AllGuarded(r.states[i])
    ensures forall k :: 0 <= k < i ==> ExactAt(r, k)
  {
    if i == 0 {
      ExactPrefixKeepsInv(r, 0);
    } else {
      GuardedPrefix(r, i - 1);
      assert StepAt(r, i - 1);
      assert ForwardAt(r, i - 1) && GuardedAt(r, i - 1);
      GuardedStep(r.states[i - 1], r.acts[i - 1]);
    }
  }

  /** A retry committed against the guard brings an old token back at once. */
  lemma UnguardedRetryRepeatsToken(s: State, n: nat, row: string)
    requires Inv(s) && Enabled(s, Finish(n, row)) && !RetryGuard(s, Finish(n, row))
    ensures !AllTokensDistinct(FinishStep(s, n, row))
  {
    var node, id := s.nodes[n], s.nodes[n].claimed.id;
    FinishGrowsHistory(s, n, row);
    var h := s.history[id];
    assert HistoryInv(s, id);
    assert NodeInv(s, node);
    LeasedIsProcessing(s, node.p.run, node.base, node.claimed);
    PendingHasNoDeadline(h, |h| - 2);
    var t := FinishStep(s, n, row);
    assert TokenOf(t.history[id][|h| - 2].msg) == TokenOf(t.history[id][|h|].msg);
  }

  lemma {:induction false} DistinctPrefixIsGuarded(r: Run, i: nat)
    requires IsRun(r) && ForwardRun(r) && i <= |r.acts|
    requires forall k :: 0 <= k <= |r.acts| ==> AllTokensDistinct(r.states[k])
    ensures forall k :: 0 <= k < i ==> GuardedAt(r, k)
  {
    if i > 0 {
      DistinctPrefixIsGuarded(r, i - 1);
      GuardedPrefix(r, i - 1);
      assert StepAt(r, i - 1);
      var s, a := r.states[i - 1], r.acts[i - 1];
      assert AllTokensDistinct(r.states[i]);
      if !RetryGuard(s, a) {
        UnguardedRetryRepeatsToken(s, a.node, a.row);
      }
    }
  }

  /**
   In a run, no message ever shows the same (status, deadline, updated-at) token twice if and only
   if every committed retry passed the guard.
   */
  lemma TokensNeverRecurIffGuarded(r: Run)
    requires IsRun(r) && ForwardRun(r)
    ensures (forall i :: 0 <= i <= |r.acts| ==> AllTokensDistinct(r.states[i])) <==> GuardedRun(r)
  {
    if GuardedRun(r) {
      forall i | 0 <= i <= |r.acts|
        ensures AllTokensDistinct(r.states[i])
      {
        GuardedPrefix(r, i);
        GuardedTokens(r.states[i]);
      }
    }
    if forall i :: 0 <= i <= |r.acts| ==> AllTokensDistinct(r.states[i]) {
      DistinctPrefixIsGuarded(r, |r.acts|);
    }
  }

  /** Guarded retries suffice for exact claims. */
  lemma GuardedRunIsExact(r: Run)
    requires IsRun(r) && ForwardRun(r) && GuardedRun(r)
    ensures ExactRun(r)
  {
    GuardedPrefix(r, |r.acts|);
  }

  // ---- handlers that take time ----------------------------------------------------------------------

  lemma LaterFinishIsGuarded(s: State, a: Action)
    requires Inv(s) && Enabled(s, a) && LaterFinish(s, a)
    ensures RetryGuard(s, a)
  {
    if a.Finish? {
      var node := s.nodes[a.node];
      assert NodeInv(s, node);
      LeasedIsProcessing(s, node.p.run, node.base, node.claimed);
    }
  }

  lemma {:induction false} LaterPrefixIsGuarded(r: Run, i: nat)
    requires IsRun(r) && ForwardRun(r) && i <= |r.acts| && forall k :: 0 <= k < i ==> LaterAt(r, k)
    ensures forall k :: 0 <= k < i ==> GuardedAt(r, k)
  {
    if i > 0 {
      LaterPrefixIsGuarded(r, i - 1);
      GuardedPrefix(r, i - 1);
      assert StepAt(r, i - 1);
      assert LaterAt(r, i - 1);
      LaterFinishIsGuarded(r.states[i - 1], r.acts[i - 1]);
    }
  }

  /**
   If every handler whose finish commits ended strictly after its claim, retries are guarded: tokens never recur,
   claims are exact and every compare-and-set compares whole records.
   */
  lemma LaterHandlersSuffice(r: Run)
    requires IsRun(r) && ForwardRun(r) && LaterRun(r)
    ensures GuardedRun(r) && ExactRun(r)
    ensures forall i :: 0 <= i <= |r.acts| ==> AllTokensDistinct(r.states[i])
    ensures WholeRun(r)
  {
    LaterPrefixIsGuarded(r, |r.acts|);
    GuardedRunIsExact(r);
    TokensNeverRecurIffGuarded(r);
    WholeRecordsIffExact(r);
  }
}
