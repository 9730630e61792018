/** Runs in which every compare-and-set compares whole records, whatever the clocks of the dispatchers show. */
module OutboxWhole {
  import opened Common
  import opened OutboxModel
  import opened OutboxHistory
  import opened OutboxProtocol
  import opened OutboxLeases

  predicate Holds(s: State, m: Message) {
    m.id in s.outbox && s.outbox[m.id] == m
  }

  /** The record that a compare-and-set step expects to find, in full. */
  function Expected(s: State, a: Action): Message
    requires Enabled(s, a) && (a.Recover? || a.Claim? || a.Finish?)
  {
    if a.Finish? then s.nodes[a.node].claimed else s.nodes[a.node].message
  }

  /** The compare-and-set of this step, if it is one, succeeds exactly when the expected record is the stored one. */
  predicate WholeRecordStep(s: State, a: Action)
    requires Enabled(s, a)
  {
    a.Recover? || a.Claim? || a.Finish? ==> (Written(s, a).Some? <==> Holds(s, Expected(s, a)))
  }

  /** What the step could check instead: if it succeeds, the stored attempt count is the expected one. */
  predicate CountedStep(s: State, a: Action)
    requires Enabled(s, a)
  {
    (a.Recover? || a.Claim? || a.Finish?) && Written(s, a).Some? ==>
      var m := Expected(s, a);
      m.id in s.outbox && s.outbox[m.id].attemptCount == m.attemptCount
  }

  ghost predicate WholeRecordAt(r: Run, i: nat)
    requires IsRun(r) && i < |r.acts|
  {
    assert StepAt(r, i);
    WholeRecordStep(r.states[i], r.acts[i])
  }

  ghost predicate CountedStepAt(r: Run, i: nat)
    requires IsRun(r) && i < |r.acts|
  {
    assert StepAt(r, i);
    CountedStep(r.states[i], r.acts[i])
  }

  ghost predicate WholeRun(r: Run)
    requires IsRun(r)
  {
    forall i :: 0 <= i < |r.acts| ==> WholeRecordAt(r, i)
  }

  // ---- records of one attempt count -----------------------------------------------------------------

  /** `b` differs from `a` at most in its token. */
  predicate SameBody(a: Message, b: Message) {
    b == a.(status := b.status, deadline := b.deadline, updatedAt := b.updatedAt)
  }

  /**
   What the write of `origin` turns `a` into, field by field: a lease of ten minutes, a success, or a failure that is
   counted and either retried after one, five, fifteen or sixty minutes and at most a tenth more, or final at the
   limit, which is five unless the record sets one.
   */
  predicate Follows(a: Message, b: Message, origin: Origin) {
    match origin
    case Created => false
    case Recovered => b == a.(status := Pending, deadline := 0, updatedAt := b.updatedAt)
    case Claimed(_) =>
      b == a.(status := Processing, deadline := b.updatedAt + 600_000_000_000, updatedAt := b.updatedAt)
    case FinishedBy(_, None, _) =>
      b == a.(status := Completed, deadline := 0, lastError := "", updatedAt := b.updatedAt)
    case FinishedBy(_, Some(error), _) =>
      var count, limit := a.attemptCount + 1, if a.maxAttempts > 0 then a.maxAttempts else 5;
      var failed := a.(deadline := 0, attemptCount := count, maxAttempts := limit, lastError := error,
                       updatedAt := b.updatedAt);
      if count >= limit then b == failed.(status := DeadLetter)
      else b == failed.(status := Pending, availableAt := b.availableAt) && Waits(count, b.availableAt - b.updatedAt)
  }

  /** The time a message waits after its `count`-th failure, in nanoseconds. */
  predicate Waits(count: int, wait: int) {
    if count <= 1 then 60_000_000_000 <= wait <= 66_000_000_000
    else if count == 2 then 300_000_000_000 <= wait <= 330_000_000_000
    else if count == 3 then 900_000_000_000 <= wait <= 990_000_000_000
    else 3600_000_000_000 <= wait <= 3960_000_000_000
  }

  ghost predicate Bodies(h: History) {
    forall k :: 1 <= k < |h| ==> Follows(h[k - 1].msg, h[k].msg, h[k].origin)
  }

  /** The number of failures that ends a message. */
  function LimitOf(m: Message): int {
    if m.maxAttempts > 0 then m.maxAttempts else 5
  }

  /** Attempt counts never fall, and while they stay the same only the token changes. */
  lemma {:induction false} CountFixesBody(h: History, i: nat, j: nat)
    requires LeaseChain(h) && Bodies(h) && i <= j < |h|
    ensures h[i].msg.attemptCount <= h[j].msg.attemptCount
    ensures LimitOf(h[i].msg) == LimitOf(h[j].msg)
    ensures h[i].msg.attemptCount == h[j].msg.attemptCount && !Terminal(h[j].msg.status) ==>
              SameBody(h[i].msg, h[j].msg)
    decreases j - i
  {
    if i < j {
      CountFixesBody(h, i, j - 1);
      assert Follows(h[j - 1].msg, h[j].msg, h[j].origin) && LeaseEdge(h[j - 1], h[j]);
    }
  }

  // ---- what whole comparisons keep ------------------------------------------------------------------

  ghost predicate AllStored(s: State, batch: seq<Message>) {
    forall m :: m in batch ==> Stored(s, m)
  }

  /** Everything a dispatcher carries was once stored. */
  ghost predicate NodeStored(s: State, node: Node) {
    match node
    case Listing(_, _) => true
    case Looping(p, _) => AllStored(s, p.rest)
    case Claiming(p, m, _) => AllStored(s, p.rest) && Stored(s, m)
    case Holding(p, _, claimed) => AllStored(s, p.rest) && Stored(s, claimed)
    case Running(p, _, claimed, _) => AllStored(s, p.rest) && Stored(s, claimed)
    case Finishing(p, _, claimed, _, _, _, _) => AllStored(s, p.rest) && Stored(s, claimed)
    case Returned(_, _, _) => true
  }

  ghost predicate BodyInv(s: State) {
    && Inv(s) && (forall id :: id in s.history ==> Bodies(s.history[id]))
    && forall n :: n in s.nodes ==> NodeStored(s, s.nodes[n])
  }

  ghost predicate Grows(s: State, t: State) {
    forall id :: id in s.history ==> id in t.history && s.history[id] <= t.history[id]
  }

  lemma StoredGrows(s: State, t: State, m: Message)
    requires Grows(s, t) && Stored(s, m)
    ensures Stored(t, m)
  {
    var k :| 0 <= k < |s.history[m.id]| && s.history[m.id][k].msg == m;
    assert t.history[m.id][k].msg == m;
  }

  lemma BatchGrows(s: State, t: State, batch: seq<Message>)
    requires Grows(s, t) && AllStored(s, batch)
    ensures AllStored(t, batch)
  {
    forall m | m in batch
      ensures Stored(t, m)
    {
      StoredGrows(s, t, m);
    }
  }

  lemma NodeGrows(s: State, t: State, node: Node)
    requires Grows(s, t) && NodeStored(s, node)
    ensures NodeStored(t, node)
  {
    if !node.Listing? && !node.Returned? {
      BatchGrows(s, t, node.p.rest);
    }
    if node.Claiming? {
      StoredGrows(s, t, node.message);
    } else if Holder(node) {
      StoredGrows(s, t, node.claimed);
    }
  }

  lemma StepGrows(s: State, a: Action)
    requires Inv(s) && Enabled(s, a)
    ensures Grows(s, Next(s, a))
  {
    if a.Create? {
      CreateWrites(s, a.message);
    } else {
      StepWrites(s, a);
    }
  }

  /** What is in the store was stored. */
  lemma HeldIsStored(s: State, m: Message)
    requires StoreInv(s) && Holds(s, m)
    ensures Stored(s, m)
  {
    assert RowInv(s, m.id);
    assert s.history[m.id][|s.history[m.id]| - 1].msg == m;
  }

  lemma ListedIsStored(s: State, n: nat, batch: seq<Message>)
    requires StoreInv(s) && Enabled(s, List(n, batch))
    ensures AllStored(s, batch)
  {
    forall m | m in batch
      ensures Stored(s, m)
    {
      HeldIsStored(s, m);
    }
  }

  /** What a step writes is what its dispatcher carries on with. */
  lemma WrittenIsStored(s: State, a: Action)
    requires Inv(s) && Enabled(s, a) && Written(s, a).Some?
    ensures Stored(Next(s, a), Written(s, a).value.msg)
  {
    StepWrites(s, a);
    var v, t := Written(s, a).value, Next(s, a);
    assert t.history[v.msg.id][|s.history[v.msg.id]|].msg == v.msg;
  }

  lemma StepKeepsNodeStored(s: State, a: Action)
    requires BodyInv(s) && Enabled(s, a) && !a.Create? && !a.Crash?
    ensures a.node in Next(s, a).nodes && NodeStored(Next(s, a), Next(s, a).nodes[a.node])
  {
    var t := Next(s, a);
    StepGrows(s, a);
    if a.List? {
      ListedIsStored(s, a.node, a.batch);
      BatchGrows(s, t, a.batch);
    } else if !a.ReadListClock? {
      assert NodeStored(s, s.nodes[a.node]);
      NodeGrows(s, t, s.nodes[a.node]);
      if Written(s, a).Some? {
        WrittenIsStored(s, a);
      }
      MoveKeepsStored(s, a, t);
    }
  }

  /** A dispatcher that moves on carries what it carried, and what it wrote. */
  lemma MoveKeepsStored(s: State, a: Action, t: State)
    requires Enabled(s, a) && t == Next(s, a) && !a.Create? && !a.Crash? && !a.List? && !a.ReadListClock?
    requires NodeStored(t, s.nodes[a.node]) && (Written(s, a).Some? ==> Stored(t, Written(s, a).value.msg))
    ensures a.node in t.nodes && NodeStored(t, t.nodes[a.node])
  {
    if a.Recover? || a.Claim? || a.Finish? {
      CasMoveKeepsStored(s, a, t);
    }
  }

  lemma CasMoveKeepsStored(s: State, a: Action, t: State)
    requires Enabled(s, a) && t == Next(s, a) && (a.Recover? || a.Claim? || a.Finish?)
    requires NodeStored(t, s.nodes[a.node]) && (Written(s, a).Some? ==> Stored(t, Written(s, a).value.msg))
    ensures a.node in t.nodes && NodeStored(t, t.nodes[a.node])
  {
  }

  lemma StepKeepsNodesStored(s: State, a: Action)
    requires BodyInv(s) && Enabled(s, a)
    ensures forall n :: n in Next(s, a).nodes ==> NodeStored(Next(s, a), Next(s, a).nodes[n])
  {
    var t := Next(s, a);
    StepGrows(s, a);
    forall n | n in t.nodes
      ensures NodeStored(t, t.nodes[n])
    {
      if a.Create? || a.node != n {
        OtherStepKeepsNode(s, a, n);
        NodeGrows(s, t, s.nodes[n]);
      } else if !a.Crash? {
        StepKeepsNodeStored(s, a);
      }
    }
  }

  lemma WholeWriteFollows(s: State, a: Action)
    requires Inv(s) && Enabled(s, a) && WholeRecordStep(s, a) && Written(s, a).Some?
    ensures var v := Written(s, a).value;
            v.msg.id in s.outbox && Follows(s.outbox[v.msg.id], v.msg, v.origin)
  {
    assert NodeOk(s.nodes[a.node]);
    if a.Finish? {
      var node := s.nodes[a.node];
      FinishFollows(node.claimed, node.p.run, node.handlerError, node.finishedAt, node.hash);
    }
  }

  lemma FinishFollows(claimed: Message, run: nat, handlerError: Option<string>, finishedAt: int, hash: nat)
    ensures Follows(claimed, Finished(claimed, handlerError, finishedAt, hash), FinishedBy(run, handlerError, hash))
  {
  }

  lemma AppendKeepsBodies(h: History, v: Version)
    requires Bodies(h) && h != [] && Follows(h[|h| - 1].msg, v.msg, v.origin)
    ensures Bodies(h + [v])
  {
  }

  lemma StepKeepsBodies(s: State, a: Action)
    requires BodyInv(s) && Enabled(s, a) && WholeRecordStep(s, a)
    ensures forall id :: id in Next(s, a).history ==> Bodies(Next(s, a).history[id])
  {
    if a.Create? {
      CreateWrites(s, a.message);
    } else {
      StepWrites(s, a);
      if Written(s, a).Some? {
        WholeWriteFollows(s, a);
        var v := Written(s, a).value;
        assert RowInv(s, v.msg.id);
        var h := s.history[v.msg.id];
        AppendKeepsBodies(h, v);
      }
    }
  }

  lemma WholeStepKeepsInv(s: State, a: Action)
    requires BodyInv(s) && Enabled(s, a) && WholeRecordStep(s, a)
    ensures BodyInv(Next(s, a))
  {
    StepKeepsInv(s, a);
    StepKeepsBodies(s, a);
    StepKeepsNodesStored(s, a);
  }

  lemma {:induction false} WholePrefixKeepsInv(r: Run, i: nat)
    requires IsRun(r) && i <= |r.acts| && forall k :: 0 <= k < i ==> WholeRecordAt(r, k)
    ensures BodyInv(r.states[i])
  {
    if i > 0 {
      WholePrefixKeepsInv(r, i - 1);
      assert StepAt(r, i - 1) && WholeRecordAt(r, i - 1);
      WholeStepKeepsInv(r.states[i - 1], r.acts[i - 1]);
    }
  }

  /** With whole comparisons every stored version follows from the one before it, field by field. */
  lemma VersionsFollow(r: Run, i: nat, id: string, k: nat)
    requires IsRun(r) && WholeRun(r) && i <= |r.acts|
    requires id in r.states[i].history && 1 <= k < |r.states[i].history[id]|
    ensures var h := r.states[i].history[id]; Follows(h[k - 1].msg, h[k].msg, h[k].origin)
  {
    WholePrefixKeepsInv(r, i);
    assert Bodies(r.states[i].history[id]);
  }

  // ---- the attempt count decides --------------------------------------------------------------------

  /** A stored record that shows the token of an earlier one is that record, or has more attempts. */
  lemma TokenAndCountDecide(s: State, m: Message)
    requires BodyInv(s) && Stored(s, m) && !Terminal(m.status)
    ensures m.id in s.outbox
    ensures TokenOf(s.outbox[m.id]) == TokenOf(m) && s.outbox[m.id] != m ==>
              m.attemptCount < s.outbox[m.id].attemptCount
  {
    assert RowInv(s, m.id) && Bodies(s.history[m.id]);
    var h := s.history[m.id];
    var k :| 0 <= k < |h| && h[k].msg == m;
    CountFixesBody(h, k, |h| - 1);
  }

  /** A compare-and-set that succeeds on another record than the expected one finds more attempts. */
  lemma StaleStepFindsMore(s: State, a: Action)
    requires BodyInv(s) && Enabled(s, a) && !WholeRecordStep(s, a)
    ensures Written(s, a).Some? && Expected(s, a).id in s.outbox
    ensures Expected(s, a).attemptCount < s.outbox[Expected(s, a).id].attemptCount
  {
    HeldIsWritten(s, a);
    ExpectedIsStored(s, a);
    TokenAndCountDecide(s, Expected(s, a));
  }

  lemma HeldIsWritten(s: State, a: Action)
    requires Enabled(s, a) && (a.Recover? || a.Claim? || a.Finish?)
    ensures Holds(s, Expected(s, a)) ==> Written(s, a).Some?
  {
  }

  lemma ExpectedIsStored(s: State, a: Action)
    requires BodyInv(s) && Enabled(s, a) && (a.Recover? || a.Claim? || a.Finish?)
    ensures Stored(s, Expected(s, a)) && !Terminal(Expected(s, a).status)
    ensures Written(s, a).Some? ==> Keeps(s, Expected(s, a))
  {
    assert NodeStored(s, s.nodes[a.node]) && NodeOk(s.nodes[a.node]);
  }

  lemma WholeIffCounted(s: State, a: Action)
    requires BodyInv(s) && Enabled(s, a)
    ensures WholeRecordStep(s, a) <==> CountedStep(s, a)
  {
    if !WholeRecordStep(s, a) {
      StaleStepFindsMore(s, a);
    }
  }

  lemma {:induction false} CountedPrefixIsWhole(r: Run, i: nat)
    requires IsRun(r) && i <= |r.acts| && forall k :: 0 <= k < i ==> CountedStepAt(r, k)
    ensures forall k :: 0 <= k < i ==> WholeRecordAt(r, k)
  {
    if i > 0 {
      CountedPrefixIsWhole(r, i - 1);
      WholePrefixKeepsInv(r, i - 1);
      assert StepAt(r, i - 1) && CountedStepAt(r, i - 1);
      WholeIffCounted(r.states[i - 1], r.acts[i - 1]);
    }
  }

  /**
   In every run, the three-field comparison stands for one of whole records throughout if and only if every
   compare-and-set that succeeds finds the attempt count it expects.
   */
  lemma WholeRecordsIffCounted(r: Run)
    requires IsRun(r)
    ensures WholeRun(r) <==> forall i :: 0 <= i < |r.acts| ==> CountedStepAt(r, i)
  {
    if WholeRun(r) {
      forall i | 0 <= i < |r.acts|
        ensures CountedStepAt(r, i)
      {
        assert WholeRecordAt(r, i);
      }
    }
    if forall i :: 0 <= i < |r.acts| ==> CountedStepAt(r, i) {
      CountedPrefixIsWhole(r, |r.acts|);
    }
  }
}
