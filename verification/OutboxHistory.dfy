/** The history of one outbox message: every record ever stored under its id, oldest first. */
module OutboxHistory {
  import opened Common
  import opened OutboxModel

  datatype Origin =
    | Created
    | Recovered
    | Claimed(run: nat)
    | FinishedBy(run: nat, handlerError: Option<string>, hash: nat)

  datatype Version = Version(msg: Message, origin: Origin)

  type History = seq<Version>

  /** `b` may follow `a` in a history. */
  predicate Edge(a: Version, b: Version) {
    match b.origin
    case Created => false
    case Recovered =>
      a.msg.status == Processing && a.msg.deadline <= b.msg.updatedAt && b.msg == RecoverRecord(a.msg, b.msg.updatedAt)
    case Claimed(_) =>
      && a.msg.status == Pending
      && a.msg.updatedAt <= b.msg.updatedAt && a.msg.availableAt <= b.msg.updatedAt
      && b.msg == ClaimRecord(a.msg, b.msg.updatedAt)
    case FinishedBy(run, handlerError, hash) =>
      && a.origin == Claimed(run)
      && a.msg.updatedAt <= b.msg.updatedAt
      && b.msg == Finished(a.msg, handlerError, b.msg.updatedAt, hash)
  }

  ghost predicate ValidHistory(h: History) {
    && |h| >= 1
    && h[0].origin == Created && Fresh(h[0].msg)
    && (forall k :: 1 <= k < |h| ==> Edge(h[k - 1], h[k]))
  }

  /** A retry never carries the update time of the pending record whose claim it ends. */
  ghost predicate RetriesGuarded(h: History) {
    forall k :: 2 <= k < |h| && h[k].origin.FinishedBy? && h[k].msg.status == Pending
             ==> h[k].msg.updatedAt != h[k - 2].msg.updatedAt
  }

  ghost predicate DistinctTokens(h: History) {
    forall i, j :: 0 <= i < j < |h| ==> TokenOf(h[i].msg) != TokenOf(h[j].msg)
  }

  /** A leased record always comes from a claim, and its lease starts at its update time. */
  lemma ProcessingIsClaimed(h: History, k: nat)
    requires ValidHistory(h) && k < |h| && h[k].msg.status == Processing
    ensures k >= 1 && h[k].origin.Claimed? && h[k].msg.deadline == h[k].msg.updatedAt + LEASE
    ensures h[k - 1].msg.status == Pending
  {
    if k >= 1 {
      assert Edge(h[k - 1], h[k]);
    }
  }

  /** Only a leased record carries a deadline. */
  lemma {:induction false} PendingHasNoDeadline(h: History, k: nat)
    requires ValidHistory(h) && k < |h| && h[k].msg.status != Processing
    ensures h[k].msg.deadline == ZERO_TIME
  {
    if k >= 1 {
      assert Edge(h[k - 1], h[k]);
    }
  }

  /** Claimed versions are leased versions. */
  lemma ClaimedIsProcessing(h: History, k: nat)
    requires ValidHistory(h) && k < |h| && h[k].origin.Claimed?
    ensures k >= 1 && h[k].msg.status == Processing
  {
    assert Edge(h[k - 1], h[k]);
  }

  lemma TerminalHasNoSuccessor(h: History, k: nat)
    requires ValidHistory(h) && k + 1 < |h|
    ensures !Terminal(h[k].msg.status)
  {
    assert Edge(h[k], h[k + 1]);
    if h[k + 1].origin.FinishedBy? {
      ClaimedIsProcessing(h, k);
    }
  }

  /** Update times never go back along a history, and leaving a lease by recovery moves them on. */
  lemma StepTimes(h: History, k: nat)
    requires ValidHistory(h) && k + 1 < |h|
    ensures h[k].msg.updatedAt <= h[k + 1].msg.updatedAt
    ensures h[k + 1].origin.Recovered? ==> h[k].msg.updatedAt + LEASE <= h[k + 1].msg.updatedAt
  {
    assert Edge(h[k], h[k + 1]);
    if h[k + 1].origin.Recovered? {
      ProcessingIsClaimed(h, k);
    }
  }

  lemma {:induction false} UpdatedAtMonotone(h: History, i: nat, j: nat)
    requires ValidHistory(h) && i <= j < |h|
    ensures h[i].msg.updatedAt <= h[j].msg.updatedAt
    decreases j - i
  {
    if i < j {
      UpdatedAtMonotone(h, i, j - 1);
      StepTimes(h, j - 1);
    }
  }

  /** A retry becomes available only strictly after the run that scheduled it. */
  lemma RetryIsLater(h: History, k: nat)
    requires ValidHistory(h) && 1 <= k && k + 1 < |h|
    requires h[k].origin.FinishedBy? && h[k].msg.status == Pending
    ensures h[k].msg.updatedAt < h[k + 1].msg.updatedAt
  {
    assert Edge(h[k - 1], h[k]);
    assert Edge(h[k], h[k + 1]);
    if h[k + 1].origin.FinishedBy? {
      ClaimedIsProcessing(h, k);
    }
  }

  /** What follows a lease that ends at its own update time can only be a finish. */
  lemma SameInstantIsFinish(h: History, k: nat)
    requires ValidHistory(h) && k + 1 < |h| && h[k].msg.status == Processing
    requires h[k].msg.updatedAt == h[k + 1].msg.updatedAt
    ensures h[k + 1].origin.FinishedBy?
  {
    StepTimes(h, k);
    assert Edge(h[k], h[k + 1]);
  }

  /** A successor of a record that is not leased is its claim. */
  lemma SuccessorOfUnleased(h: History, k: nat)
    requires ValidHistory(h) && k + 1 < |h| && h[k].msg.status != Processing
    ensures h[k].msg.status == Pending && h[k + 1].origin.Claimed?
  {
    assert Edge(h[k], h[k + 1]);
    if h[k + 1].origin.FinishedBy? {
      ClaimedIsProcessing(h, k);
    }
  }

  /** After a finish nothing more happens at the same instant. */
  lemma LaterThanFinish(h: History, k: nat, j: nat)
    requires ValidHistory(h) && 1 <= k < j < |h| && h[k].origin.FinishedBy?
    ensures h[k].msg.updatedAt < h[j].msg.updatedAt
  {
    assert Edge(h[k - 1], h[k]);
    TerminalHasNoSuccessor(h, k);
    RetryIsLater(h, k);
    UpdatedAtMonotone(h, k + 1, j);
  }

  /** Two records of one status at one instant can only be a pending record and the retry of its claim. */
  lemma RepeatIsRetry(h: History, i: nat, j: nat)
    requires ValidHistory(h) && i < j < |h| && TokenOf(h[i].msg) == TokenOf(h[j].msg)
    ensures j == i + 2 && h[j].origin.FinishedBy? && h[j].msg.status == Pending
  {
    UpdatedAtMonotone(h, i, i + 1);
    UpdatedAtMonotone(h, i + 1, j);
    if h[i].msg.status == Processing {
      SameInstantIsFinish(h, i);
      assert Edge(h[i], h[i + 1]);
      if i + 1 < j {
        LaterThanFinish(h, i + 1, j);
      }
    } else {
      SuccessorOfUnleased(h, i);
      ClaimedIsProcessing(h, i + 1);
      UpdatedAtMonotone(h, i + 1, i + 2);
      UpdatedAtMonotone(h, i + 2, j);
      SameInstantIsFinish(h, i + 1);
      if i + 2 < j {
        LaterThanFinish(h, i + 2, j);
      }
    }
  }

  /** A claim and its failed retry count one attempt. */
  lemma RetryCountsOne(h: History, i: nat)
    requires ValidHistory(h) && i + 2 < |h| && h[i + 2].origin.FinishedBy? && h[i + 2].msg.status == Pending
    ensures h[i + 2].msg.attemptCount == h[i].msg.attemptCount + 1
  {
    assert Edge(h[i], h[i + 1]);
    assert Edge(h[i + 1], h[i + 2]);
  }

  /** If no retry lands on the instant of the record it started from, no token is ever used twice. */
  lemma GuardedTokensDistinct(h: History)
    requires ValidHistory(h) && RetriesGuarded(h)
    ensures DistinctTokens(h)
  {
    forall i, j | 0 <= i < j < |h|
      ensures TokenOf(h[i].msg) != TokenOf(h[j].msg)
    {
      if TokenOf(h[i].msg) == TokenOf(h[j].msg) {
        RepeatIsRetry(h, i, j);
      }
    }
  }

  /** Conversely, one unguarded retry already repeats a token: the guard is exact. */
  lemma DistinctTokensGuarded(h: History)
    requires ValidHistory(h) && DistinctTokens(h)
    ensures RetriesGuarded(h)
  {
    forall k | 2 <= k < |h| && h[k].origin.FinishedBy? && h[k].msg.status == Pending
      ensures h[k].msg.updatedAt != h[k - 2].msg.updatedAt
    {
      assert Edge(h[k - 1], h[k]);
      ClaimedIsProcessing(h, k - 1);
      ProcessingIsClaimed(h, k - 1);
      PendingHasNoDeadline(h, k - 2);
      assert TokenOf(h[k - 2].msg) != TokenOf(h[k].msg);
    }
  }

  /** Between two claims with no finish in between, the first lease had run out. */
  lemma {:induction false} LeaseNeverStolen(h: History, i: nat, j: nat)
    requires ValidHistory(h) && i < j < |h|
    requires h[i].msg.status == Processing && h[j].msg.status == Processing
    requires forall k :: i < k <= j ==> !h[k].origin.FinishedBy?
    ensures h[i].msg.deadline <= h[j].msg.updatedAt
  {
    assert Edge(h[i], h[i + 1]);
    UpdatedAtMonotone(h, i + 1, j);
  }

  /** No step of a history forgets a failed attempt or changes the effective limit. */
  lemma {:induction false} AttemptCountMonotone(h: History, i: nat, j: nat)
    requires ValidHistory(h) && i <= j < |h|
    ensures h[i].msg.attemptCount <= h[j].msg.attemptCount
    ensures EffectiveMaxAttempts(h[i].msg) == EffectiveMaxAttempts(h[j].msg)
    decreases j - i
  {
    if i < j {
      AttemptCountMonotone(h, i, j - 1);
      assert Edge(h[j - 1], h[j]);
    }
  }
}
