/** Clocks that agree make claims go forward; clocks that do not can break leases. */
module OutboxClocks {
  import opened Common
  import opened OutboxModel
  import opened OutboxHistory
  import opened OutboxProtocol
  import opened OutboxScenarios
  import opened OutboxLeases
  import opened OutboxDisplaced

  // ---- one clock ------------------------------------------------------------------------------------

  /** The time a step brings into the protocol: a clock reading, or the update time of a created record. */
  function Stamp(a: Action): Option<int> {
    match a
    case Create(m) => Some(m.updatedAt)
    case ReadListClock(_, _, now) => Some(now)
    case TakeNext(_, now) => Some(now)
    case Start(_, now) => Some(now)
    case Handle(_, _, _, now) => Some(now)
    case _ => None
  }

  /** The latest time among `start` and those of the first `n` steps. */
  function Latest(start: int, acts: seq<Action>, n: nat): int
    requires n <= |acts|
  {
    if n == 0 then start
    else
      var before := Latest(start, acts, n - 1);
      match Stamp(acts[n - 1])
      case Some(time) => if before < time then time else before
      case None => before
  }

  /** All dispatchers read one clock that never goes back, and producers do not date records ahead of it. */
  predicate OneClock(start: int, acts: seq<Action>) {
    forall i :: 0 <= i < |acts| && !acts[i].Create? && Stamp(acts[i]).Some? ==>
      Latest(start, acts, i) <= Stamp(acts[i]).value
  }

  predicate NoneAfter(batch: seq<Message>, time: int) {
    forall m :: m in batch ==> m.updatedAt <= time
  }

  predicate NodeBounded(node: Node, time: int) {
    && (!node.Returned? ==> LastRead(node) <= time)
    && (!node.Returned? && !node.Listing? ==> NoneAfter(node.p.rest, time))
    && (node.Claiming? ==> node.message.updatedAt <= node.now)
  }

  /** No reading and no record is dated after `time`. */
  ghost predicate Bounded(s: State, time: int) {
    && (forall id :: id in s.outbox ==> s.outbox[id].updatedAt <= time)
    && (forall n :: n in s.nodes ==> NodeBounded(s.nodes[n], time))
  }

  /** Where the acting dispatcher stands after its step. */
  lemma StepKeepsNodeBounded(s: State, a: Action, time: int, later: int)
    requires Bounded(s, time) && Enabled(s, a) && time <= later && !a.Create? && !a.Crash?
    requires Stamp(a).Some? ==> time <= Stamp(a).value == later
    ensures a.node in Next(s, a).nodes && NodeBounded(Next(s, a).nodes[a.node], later)
  {
    assert a.node in s.nodes ==> NodeBounded(s.nodes[a.node], time);
    if a.Recover? || a.Claim? || a.Finish? {
      CasKeepsNodeBounded(s, a, time, later);
    }
  }

  lemma CasKeepsNodeBounded(s: State, a: Action, time: int, later: int)
    requires Enabled(s, a) && (a.Recover? || a.Claim? || a.Finish?) && NodeBounded(s.nodes[a.node], time)
    requires time <= later
    ensures a.node in Next(s, a).nodes && NodeBounded(Next(s, a).nodes[a.node], later)
  {
  }

  lemma StepKeepsStoreBounded(s: State, a: Action, time: int, later: int)
    requires Bounded(s, time) && Enabled(s, a) && time <= later && (a.Create? ==> a.message.updatedAt <= later)
    ensures forall id :: id in Next(s, a).outbox ==> Next(s, a).outbox[id].updatedAt <= later
  {
    assert !a.Create? && a.node in s.nodes ==> NodeBounded(s.nodes[a.node], time);
  }

  lemma StepKeepsBounded(s: State, a: Action, time: int, later: int)
    requires Bounded(s, time) && Enabled(s, a) && time <= later
    requires a.Create? ==> a.message.updatedAt <= later
    requires !a.Create? && Stamp(a).Some? ==> time <= Stamp(a).value == later
    ensures Bounded(Next(s, a), later)
  {
    var t := Next(s, a);
    StepKeepsStoreBounded(s, a, time, later);
    forall n | n in t.nodes
      ensures NodeBounded(t.nodes[n], later)
    {
      if a.Create? || a.node != n {
        OtherStepKeepsNode(s, a, n);
        assert NodeBounded(s.nodes[n], time);
      } else if !a.Crash? {
        StepKeepsNodeBounded(s, a, time, later);
      }
    }
  }

  lemma {:induction false} RunIsBounded(start: int, r: Run, i: nat)
    requires IsRun(r) && OneClock(start, r.acts) && i <= |r.acts|
    ensures Bounded(r.states[i], Latest(start, r.acts, i))
  {
    if i > 0 {
      RunIsBounded(start, r, i - 1);
      assert StepAt(r, i - 1);
      StepKeepsBounded(r.states[i - 1], r.acts[i - 1], Latest(start, r.acts, i - 1), Latest(start, r.acts, i));
    }
  }

  /** When all read one clock that never goes back, every claim goes forward. */
  lemma OneClockIsForward(start: int, r: Run)
    requires IsRun(r) && OneClock(start, r.acts)
    ensures ForwardRun(r)
  {
    forall i | 0 <= i < |r.acts|
      ensures ForwardAt(r, i)
    {
      RunIsBounded(start, r, i);
      assert StepAt(r, i);
      if r.acts[i].Claim? {
        assert NodeBounded(r.states[i].nodes[r.acts[i].node], Latest(start, r.acts, i));
      }
    }
  }

  // ---- a lease that changes hands ---------------------------------------------------------------------

  /** The recovery of an expired lease commits. */
  lemma RecoverOne(r: Run, s: State, n: nat, m: Message, now: int) returns (longer: Run, t: State)
    requires IsRun(r) && Last(r) == s && n in s.nodes && s.nodes[n] == Claiming(Progress(n, [], 0), m, now)
    requires m.status == Processing && m.id in s.outbox && s.outbox[m.id] == m
    ensures KeepsKind(r, longer) && Last(longer) == t
    ensures t == s.(outbox := s.outbox[m.id := RecoverRecord(m, now)],
                    history := Grown(s, Version(RecoverRecord(m, now), Recovered)),
                    nodes := s.nodes[n := Claiming(Progress(n, [], 0), RecoverRecord(m, now), now)])
  {
    longer := Step(r, Recover(n));
    t := Last(longer);
  }

  /** Dispatcher 1 holds the message since `time`. */
  function Held(m: Message, time: int): State {
    var claimed := ClaimRecord(m, time);
    State(map[m.id := claimed], map[], map[1 := Holding(Progress(1, [], 0), m, claimed)],
          map[m.id := [Version(m, Created), Version(claimed, Claimed(1))]], map[], {1})
  }

  lemma ReachHeld(m: Message, time: int) returns (r: Run)
    requires Fresh(m) && m.availableAt <= time && m.updatedAt <= time
    ensures IsRun(r) && ForwardRun(r) && Last(r) == Held(m, time)
  {
    var s;
    r, s := CreateOne(m);
    r, s := ListOne(r, s, 1, m, time);
    r, s := TakeOne(r, s, 1, m, time, time);
    r, s := ClaimOne(r, s, 1, m, time);
    assert s.history[m.id] == [Version(m, Created), Version(ClaimRecord(m, time), Claimed(1))];
    assert s == Held(m, time);
  }

  /** Dispatcher 2 has taken the lease back at `over`. */
  function TakenBack(m: Message, time: int, over: int): State {
    var claimed := ClaimRecord(m, time);
    var recovered := RecoverRecord(claimed, over);
    State(map[m.id := recovered], map[],
          map[1 := Holding(Progress(1, [], 0), m, claimed), 2 := Claiming(Progress(2, [], 0), recovered, over)],
          map[m.id := [Version(m, Created), Version(claimed, Claimed(1)), Version(recovered, Recovered)]],
          map[], {1, 2})
  }

  /** A message and two readings that let dispatcher 1 lease it and dispatcher 2 take the lease back. */
  predicate Expires(m: Message, time: int, over: int) {
    Fresh(m) && m.availableAt <= time && m.updatedAt <= time && time + LEASE <= over && time + LEASE != ZERO_TIME
  }

  lemma ReachTakenBack(m: Message, time: int, over: int) returns (r: Run)
    requires Expires(m, time, over)
    ensures IsRun(r) && ForwardRun(r) && Last(r) == TakenBack(m, time, over)
  {
    r := ReachHeld(m, time);
    var s, claimed := Held(m, time), ClaimRecord(m, time);
    var h := s.history[m.id];
    r, s := ListOne(r, s, 2, claimed, over);
    r, s := TakeOne(r, s, 2, claimed, over, over);
    r, s := RecoverOne(r, s, 2, claimed, over);
    assert s.history[m.id] == h + [Version(RecoverRecord(claimed, over), Recovered)];
    assert s.history[m.id] == TakenBack(m, time, over).history[m.id];
    assert s == TakenBack(m, time, over);
  }

  /** Dispatcher 1 ends its handler without noticing. */
  lemma UnawareHandler(r: Run, s: State, m: Message, time: int) returns (longer: Run)
    requires IsRun(r) && Last(r) == s
    requires 1 in s.nodes && s.nodes[1] == Holding(Progress(1, [], 0), m, ClaimRecord(m, time))
    ensures KeepsKind(r, longer)
    ensures Last(longer).outbox == s.outbox && Last(longer).history == s.history
    ensures Last(longer).attempts == s.attempts && 1 in Last(longer).nodes
    ensures Last(longer).nodes[1] ==
            Finishing(Progress(1, [], 0), m, ClaimRecord(m, time), time, None, time, 0)
  {
    longer := Step(r, Start(1, time));
    longer := Step(longer, Handle(1, None, 0, time));
  }

  /**
   The theorems on leases and on displaced dispatchers speak of real runs: every message can be leased, taken back
   and leased again by another dispatcher, while the first one still holds it and goes on to its finish.
   */
  lemma LeaseHandedOver(m: Message, time: int, over: int) returns (r: Run, i: nat)
    requires Expires(m, time, over)
    ensures IsRun(r) && ForwardRun(r) && i <= |r.acts|
    ensures m.id in Last(r).history && Rivals(Last(r).history[m.id], 1, 3)
    ensures Displaced(r.states[i], 1)
    ensures forall row :: Enabled(Last(r), Finish(1, row))
    ensures RunOf(Last(r).nodes[1]) == RunOf(r.states[i].nodes[1])
  {
    r := ReachTakenBack(m, time, over);
    var s := TakenBack(m, time, over);
    r, s := ClaimOne(r, s, 2, RecoverRecord(ClaimRecord(m, time), over), over);
    i := |r.acts|;
    assert r.states[i] == s;
    assert s.history[m.id][3].origin == Claimed(2);
    r := UnawareHandler(r, s, m, time);
  }

  // ---- clocks that disagree ---------------------------------------------------------------------------

  /** Dispatcher 2 is gone, and dispatcher 3 claims the message at its own reading `slow`. */
  lemma ReachSlowClaim(m: Message, time: int, over: int, slow: int) returns (r: Run, s: State, i: nat)
    requires Expires(m, time, over) && m.availableAt <= slow
    ensures IsRun(r) && Last(r) == s && i <= |r.acts| && s.history.Keys == {m.id}
    ensures r.states[i].outbox == TakenBack(m, time, over).outbox && 1 in r.states[i].nodes
    ensures 1 in s.nodes && s.attempts == map[]
    ensures s.nodes[1] == r.states[i].nodes[1] == Holding(Progress(1, [], 0), m, ClaimRecord(m, time))
    ensures var claimed := ClaimRecord(m, slow);
            && s.outbox == map[m.id := claimed] && m.id in s.history
            && s.history[m.id] == TakenBack(m, time, over).history[m.id] + [Version(claimed, Claimed(3))]
  {
    r := ReachTakenBack(m, time, over);
    var recovered := RecoverRecord(ClaimRecord(m, time), over);
    i := |r.acts|;
    s := TakenBack(m, time, over);
    r := Step(r, Crash(2));
    s := Last(r);
    r, s := ListOne(r, s, 3, recovered, slow);
    r, s := TakeOne(r, s, 3, recovered, slow, slow);
    r, s := ClaimOne(r, s, 3, recovered, slow);
  }

  /**
   A dispatcher whose clock is behind steals the lease: for every reading before the deadline at which the message
   is available, there is a run in which the lease is taken back at its deadline and claimed again at that reading.
   */
  lemma SlowClockStealsLease(m: Message, time: int, slow: int) returns (r: Run)
    requires Expires(m, time, time + LEASE) && m.availableAt <= slow < time + LEASE
    ensures IsRun(r) && !ForwardRun(r) && !AllLeasesKept(Last(r)) && m.id in Last(r).history
    ensures var h := Last(r).history[m.id];
            && Rivals(h, 1, 3) && h[2].msg.updatedAt == h[1].msg.deadline
            && h[1].msg.updatedAt == time && h[3].msg.updatedAt == slow < h[1].msg.deadline
  {
    var s, i;
    r, s, i := ReachSlowClaim(m, time, time + LEASE, slow);
    var h := s.history[m.id];
    assert h[3] == Version(ClaimRecord(m, slow), Claimed(3));
    assert Rivals(h, 1, 3) && !LeasesKept(h);
    if ForwardRun(r) {
      ActiveLeaseNeverStolen(r, m.id, 1, 3);
    }
  }

  /** A claim backwards does no harm to leases as long as it is not dated before the deadline. */
  lemma BackwardClaimCanKeepLease(m: Message, time: int, over: int, slow: int) returns (r: Run)
    requires Expires(m, time, over) && time + LEASE <= slow < over
    ensures IsRun(r) && !ForwardRun(r) && AllLeasesKept(Last(r))
  {
    var s, i;
    r, s, i := ReachSlowClaim(m, time, over, slow);
    var h := s.history[m.id];
    assert h[0].origin == Created && h[1].origin == Claimed(1) && h[2].origin == Recovered;
    assert h[3] == Version(ClaimRecord(m, slow), Claimed(3));
    assert forall a, b :: Rivals(h, a, b) ==> a == 1 && b == 3;
    assert LeasesKept(h);
    assert !Chronological(h);
    ChronologicalIffForward(r);
  }

  /**
   If its clock shows the reading of the first claim again, the displaced dispatcher commits: the store does not show
   its lease at step `i`, but its finish succeeds in the end.
   */
  lemma RepeatedReadingHidesDisplacement(m: Message, time: int, over: int, row: string) returns (r: Run, i: nat)
    requires Expires(m, time, over)
    ensures IsRun(r) && !FreshRun(r) && i <= |r.acts|
    ensures Displaced(r.states[i], 1)
    ensures Enabled(Last(r), Finish(1, row)) && FinishCommitted(Last(r), 1, row)
    ensures RunOf(Last(r).nodes[1]) == RunOf(r.states[i].nodes[1])
  {
    var s;
    r, s, i := ReachSlowClaim(m, time, over, time);
    r := UnawareHandler(r, s, m, time);
    assert Regains(r, i, |r.acts|, 1);
    NeverRegainsIffFresh(r);
  }
}
