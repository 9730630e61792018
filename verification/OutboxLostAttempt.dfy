/** What a retry at the instant of its claim can do: cost an attempt, or nothing at all. */
module OutboxLostAttempt {
  import opened Common
  import opened OutboxModel
  import opened OutboxHistory
  import opened OutboxProtocol
  import opened OutboxScenarios
  import opened OutboxTheorems
  import opened OutboxAccounting

  /** Both dispatchers list the message before either takes it. */
  function BothListed(m: Message): State {
    State(map[m.id := m], map[],
          map[1 := Looping(Progress(1, [m], 0), m.updatedAt), 2 := Looping(Progress(2, [m], 0), m.updatedAt)],
          map[m.id := [Version(m, Created)]], map[], {1, 2})
  }

  lemma ReachBothListed(m: Message) returns (r: Run)
    requires Fresh(m) && m.availableAt <= m.updatedAt
    ensures IsRun(r) && Last(r) == BothListed(m) && ExactRun(r) && ForwardRun(r)
  {
    var s;
    r, s := CreateOne(m);
    r, s := ListOne(r, s, 1, m, m.updatedAt);
    r, s := ListOne(r, s, 2, m, m.updatedAt);
    assert s == BothListed(m);
  }

  /** One of them takes the message, and its handler fails, all at the instant `now`. */
  lemma FailOne(r: Run, s: State, n: nat, m: Message, now: int, error: string, row: string)
    returns (longer: Run, t: State)
    requires IsRun(r) && Last(r) == s && m.status == Pending && m.updatedAt <= now && row !in s.attempts
    requires n in s.nodes && s.nodes[n] == Looping(Progress(n, [m], 0), now)
    requires m.id in s.outbox && TokenOf(s.outbox[m.id]) == TokenOf(m) && m.id in s.history
    ensures IsRun(longer) && Last(longer) == t && (ForwardRun(r) ==> ForwardRun(longer))
    ensures ExactRun(r) && s.outbox[m.id] == m ==> ExactRun(longer)
    ensures var claimed := ClaimRecord(m, now);
            var failed := Finished(claimed, Some(error), now, 0);
            && t.outbox == s.outbox[m.id := failed]
            && t.attempts == s.attempts[row := AttemptRow(claimed, Some(error), now, now, row)]
            && t.nodes == s.nodes[n := Looping(Progress(n, [], 1), now)]
            && t.history == s.history[m.id := s.history[m.id] + [Version(claimed, Claimed(n)),
                                                                 Version(failed, FinishedBy(n, Some(error), 0))]]
  {
    longer, t := TakeOne(r, s, n, m, now, now);
    longer, t := ClaimOne(longer, t, n, m, now);
    longer, t := HandleOne(longer, t, n, m, ClaimRecord(m, now), Some(error), now);
    longer, t := FinishOne(longer, t, n, row);
    var claimed := ClaimRecord(m, now);
    var a := Version(claimed, Claimed(n));
    var b := Version(Finished(claimed, Some(error), now, 0), FinishedBy(n, Some(error), 0));
    assert s.history[m.id] + [a] + [b] == s.history[m.id] + [a, b];
  }

  /**
   For every message that may fail twice there is a run in which both dispatchers read the creation instant and both
   handlers fail at once: two failed rows, but one counted attempt.
   */
  lemma EqualInstantsLoseAnAttempt(m: Message) returns (r: Run)
    requires Fresh(m) && m.availableAt <= m.updatedAt && EffectiveMaxAttempts(m) >= 2
    ensures IsRun(r) && ForwardRun(r) && !ExactRun(r)
    ensures var s := Last(r);
            && m.id in s.outbox
            && |Rows(s.attempts, m.id, AttemptFailed)| == 2 && s.outbox[m.id].attemptCount == 1
  {
    r := ReachBothListed(m);
    var s := BothListed(m);
    r, s := FailOne(r, s, 1, m, m.updatedAt, "first", "a");
    assert TokenOf(s.outbox[m.id]) == TokenOf(m);
    r, s := FailOne(r, s, 2, m, m.updatedAt, "second", "b");
    assert Rows(s.attempts, m.id, AttemptFailed) == {"a", "b"};
    NotAccounted(r, m.id);
  }

  lemma NotAccounted(r: Run, id: string)
    requires IsRun(r) && ForwardRun(r) && id in Last(r).outbox && !CountsFailures(Last(r), id)
    ensures !ExactRun(r)
  {
    if ExactRun(r) {
      WholeRecordsIffExact(r);
      AttemptsAccounted(r, |r.acts|);
    }
  }

  /** With one failure only, the same instants repeat a token and cost nothing: the retry guard is not necessary. */
  lemma LoneRetryIsHarmless(m: Message) returns (r: Run)
    requires Fresh(m) && m.availableAt <= m.updatedAt && EffectiveMaxAttempts(m) >= 2
    ensures IsRun(r) && ForwardRun(r) && !GuardedRun(r) && ExactRun(r)
    ensures m.id in Last(r).outbox && CountsAgree(Last(r)) && Last(r).outbox[m.id].attemptCount == 1
  {
    r := ReachBothListed(m);
    var s := BothListed(m);
    r, s := FailOne(r, s, 1, m, m.updatedAt, "only", "a");
    assert Rows(s.attempts, m.id, AttemptFailed) == {"a"};
    assert CountsFailures(s, m.id);
    var h := s.history[m.id];
    assert h[0].msg == m && TokenOf(h[2].msg) == TokenOf(m);
    RepeatsToken(r, m.id);
  }

  lemma RepeatsToken(r: Run, id: string)
    requires IsRun(r) && ForwardRun(r) && id in Last(r).history && !DistinctTokens(Last(r).history[id])
    ensures !GuardedRun(r)
  {
    TokensNeverRecurIffGuarded(r);
    assert !AllTokensDistinct(r.states[|r.acts|]);
  }
}
