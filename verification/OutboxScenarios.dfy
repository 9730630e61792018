/** Building blocks of concrete protocol runs. */
module OutboxScenarios {
  import opened Common
  import opened OutboxModel
  import opened OutboxHistory
  import opened OutboxProtocol

  const NOTHING := Run([], [INITIAL])

  lemma ExtendedAt(r: Run, a: Action, i: nat)
    requires IsRun(r) && Enabled(Last(r), a) && i <= |r.acts|
    ensures IsRun(Extended(r, a)) && Extended(r, a).states[i] == r.states[i]
    ensures i < |r.acts| ==> Extended(r, a).acts[i] == r.acts[i]
  {
    ExtendedIsRun(r, a);
  }

  /** One more step keeps a run exact, and forward, if the step is. */
  lemma Do(r: Run, a: Action) returns (longer: Run)
    requires IsRun(r) && Enabled(Last(r), a)
    ensures longer == Extended(r, a) && IsRun(longer) && Last(longer) == Next(Last(r), a) && GoesOn(r, longer)
    ensures ExactRun(r) && ExactClaim(Last(r), a) ==> ExactRun(longer)
    ensures ForwardRun(r) && ForwardClaim(Last(r), a) ==> ForwardRun(longer)
  {
    longer := Extended(r, a);
    ExtendedIsRun(r, a);
    forall i | 0 <= i < |r.acts|
      ensures ExactAt(longer, i) == ExactAt(r, i) && ForwardAt(longer, i) == ForwardAt(r, i)
    {
      ExtendedAt(r, a, i);
    }
    assert longer.states[|r.acts|] == Last(r);
  }

  /** `t` goes on where `r` ended and loses neither exactness nor direction. */
  ghost predicate KeepsKind(r: Run, t: Run) {
    IsRun(r) && IsRun(t) && GoesOn(r, t) && (ExactRun(r) ==> ExactRun(t)) && (ForwardRun(r) ==> ForwardRun(t))
  }

  /** A step other than a claim. */
  lemma Step(r: Run, a: Action) returns (longer: Run)
    requires IsRun(r) && Enabled(Last(r), a) && !a.Claim?
    ensures longer == Extended(r, a) && KeepsKind(r, longer) && Last(longer) == Next(Last(r), a)
  {
    longer := Do(r, a);
  }

  /** Dispatcher `n` starts call `n` and lists one due message. */
  lemma ListOne(r: Run, s: State, n: nat, m: Message, now: int) returns (longer: Run, t: State)
    requires IsRun(r) && Last(r) == s && n !in s.nodes && n !in s.runs
    requires m.id in s.outbox && s.outbox[m.id] == m && Due(m, now)
    ensures KeepsKind(r, longer) && Last(longer) == t
    ensures t == At(s, n, Looping(Progress(n, [m], 0), now)).(runs := s.runs + {n})
  {
    longer := Step(r, ReadListClock(n, n, now));
    longer := Step(longer, List(n, [m]));
    t := Last(longer);
    assert t.nodes == s.nodes[n := Looping(Progress(n, [m], 0), now)];
  }

  /** It takes the message at reading `now`. */
  lemma TakeOne(r: Run, s: State, n: nat, m: Message, listed: int, now: int) returns (longer: Run, t: State)
    requires IsRun(r) && Last(r) == s && n in s.nodes && s.nodes[n] == Looping(Progress(n, [m], 0), listed)
    requires listed <= now
    ensures KeepsKind(r, longer) && Last(longer) == t && t == At(s, n, Claiming(Progress(n, [], 0), m, now))
  {
    longer := Step(r, TakeNext(n, now));
    t := Last(longer);
    assert [m][1..] == [];
  }

  /** The version `v` on top of the history of its message. */
  function Grown(s: State, v: Version): map<string, History> {
    s.history[v.msg.id := (if v.msg.id in s.history then s.history[v.msg.id] else []) + [v]]
  }

  /** The claim commits. */
  lemma ClaimOne(r: Run, s: State, n: nat, m: Message, now: int) returns (longer: Run, t: State)
    requires IsRun(r) && Last(r) == s && n in s.nodes && s.nodes[n] == Claiming(Progress(n, [], 0), m, now)
    requires m.status == Pending && m.id in s.outbox && TokenOf(s.outbox[m.id]) == TokenOf(m)
    ensures IsRun(longer) && Last(longer) == t && GoesOn(r, longer)
    ensures ExactRun(r) && s.outbox[m.id] == m ==> ExactRun(longer)
    ensures ForwardRun(r) && m.updatedAt <= now ==> ForwardRun(longer)
    ensures t == s.(outbox := s.outbox[m.id := ClaimRecord(m, now)],
                    history := Grown(s, Version(ClaimRecord(m, now), Claimed(n))),
                    nodes := s.nodes[n := Holding(Progress(n, [], 0), m, ClaimRecord(m, now))])
  {
    longer := Do(r, Claim(n));
    t := Last(longer);
  }

  /** Its handler ends at reading `now`. */
  lemma HandleOne(r: Run, s: State, n: nat, base: Message, claimed: Message, error: Option<string>, now: int)
    returns (longer: Run, t: State)
    requires IsRun(r) && Last(r) == s && n in s.nodes && s.nodes[n] == Holding(Progress(n, [], 0), base, claimed)
    requires claimed.updatedAt <= now
    ensures KeepsKind(r, longer) && Last(longer) == t
    ensures t == At(s, n, Finishing(Progress(n, [], 0), base, claimed, now, error, now, 0))
  {
    longer := Step(r, Start(n, now));
    longer := Step(longer, Handle(n, error, 0, now));
    t := Last(longer);
    var node := Finishing(Progress(n, [], 0), base, claimed, now, error, now, 0);
    assert t.nodes == s.nodes[n := node];
  }

  /** The finish commits. */
  lemma FinishOne(r: Run, s: State, n: nat, row: string) returns (longer: Run, t: State)
    requires IsRun(r) && Last(r) == s && Enabled(s, Finish(n, row)) && Keeps(s, s.nodes[n].claimed)
    ensures KeepsKind(r, longer) && Last(longer) == t
    ensures var node := s.nodes[n];
            var v := Version(FinishWrite(node), FinishedBy(node.p.run, node.handlerError, node.hash));
            t == s.(outbox := s.outbox[node.claimed.id := FinishWrite(node)], history := Grown(s, v),
                    nodes := s.nodes[n := Looping(node.p.(processed := node.p.processed + 1), node.finishedAt)],
                    attempts := s.attempts[row := FinishRow(node, row)],
                    author := s.author[row := node.p.run])
  {
    longer := Step(r, Finish(n, row));
    t := Last(longer);
  }

  /** A run in which one message has been created. */
  lemma CreateOne(m: Message) returns (r: Run, s: State)
    requires Fresh(m)
    ensures IsRun(r) && Last(r) == s && ExactRun(r) && ForwardRun(r)
    ensures s == State(map[m.id := m], map[], map[], map[m.id := [Version(m, Created)]], map[], {})
  {
    assert IsRun(NOTHING) && ExactRun(NOTHING) && ForwardRun(NOTHING);
    r := Step(NOTHING, Create(m));
    s := Last(r);
    assert [] + [Version(m, Created)] == [Version(m, Created)];
  }
}
