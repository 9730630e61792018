/** Whole runs of appends and prunes, and how the two operations combine. */
module AuditRuns {
  import opened Common
  import opened AuditChain
  import opened AuditLog

  datatype Op = AppendOp(event: Event) | PruneOp(before: int)

  ghost function Apply(c: Crypto, log: Log, op: Op): Outcome {
    match op
    case AppendOp(e) => Append(c, log, e)
    case PruneOp(before) => Prune(c, log, before)
  }

  /** The log after a sequence of calls on an empty store. */
  ghost function Run(c: Crypto, ops: seq<Op>): Log {
    if ops == [] then EMPTY_LOG else Apply(c, Run(c, ops[..|ops| - 1]), ops[|ops| - 1]).log
  }

  /** The same calls without the prunes. */
  function OnlyAppends(ops: seq<Op>): seq<Op> {
    if ops == [] then []
    else OnlyAppends(ops[..|ops| - 1]) + if ops[|ops| - 1].AppendOp? then [ops[|ops| - 1]] else []
  }

  /**
   `log` is what is left of `full`: the events from the checkpoint on, the checkpoint itself, and
   the same latest event; `full` counts its events from one.
   */
  ghost predicate IsSuffix(c: Crypto, log: Log, full: Log) {
    var k := log.chain.checkpointSequence;
    && 0 <= k <= |full.events| <= INT64_MAX
    && log.events == full.events[k..]
    && log.chain.checkpointHash == (if k == 0 then "" else full.events[k - 1].eventHash)
    && log.chain.latestSequence == full.chain.latestSequence == |full.events|
    && log.chain.latestHash == full.chain.latestHash
    && full.chain.checkpointSequence == 0 && full.chain.checkpointHash == ""
    && (forall i :: 0 <= i < |full.events| ==> full.events[i].sequence == i + 1)
    && Sound(c, log) && Sound(c, full)
  }

  lemma ExtendedKeepsSuffix(c: Crypto, log: Log, full: Log, e: Event)
    requires IsSuffix(c, log, full) && e.sequence == |full.events| + 1 <= INT64_MAX
    requires Sound(c, Extended(log, e)) && Sound(c, Extended(full, e))
    ensures IsSuffix(c, Extended(log, e), Extended(full, e))
  {
    var k := log.chain.checkpointSequence;
    assert (full.events + [e])[k..] == full.events[k..] + [e];
  }

  lemma SameAppend(c: Crypto, log: Log, full: Log, e: Event)
    requires IsSuffix(c, log, full)
    ensures IsSuffix(c, Append(c, log, e).log, Append(c, full, e).log)
    ensures Append(c, log, e).error == Append(c, full, e).error
  {
    AppendEquals(c, log, e);
    AppendEquals(c, full, e);
    var prepared := WithHash(c, Inc64(log.chain.latestSequence), log.chain.latestHash, e);
    if prepared.Ok? {
      ExtendedKeepsSuffix(c, log, full, prepared.value);
    }
  }

  lemma DroppedKeepsSuffix(c: Crypto, log: Log, full: Log, k: nat)
    requires IsSuffix(c, log, full) && 0 < k <= |log.events| && Sound(c, Dropped(log, k))
    ensures IsSuffix(c, Dropped(log, k), full)
  {
    var start := log.chain.checkpointSequence;
    assert log.events[k - 1] == full.events[start + k - 1];
    assert full.events[start..][k..] == full.events[start + k..];
  }

  lemma PruneKeepsSuffix(c: Crypto, log: Log, full: Log, before: int)
    requires IsSuffix(c, log, full)
    ensures IsSuffix(c, Prune(c, log, before).log, full)
  {
    var k := OldPrefix(log.events, before);
    if k > 0 {
      assert log.events[k - 1] == full.events[log.chain.checkpointSequence + k - 1];
    }
    PruneEquals(c, log, before);
    if k > 0 && !CutoffSplits(log.events, before) {
      DroppedKeepsSuffix(c, log, full, k);
    }
  }

  /**
   After any sequence of appends and prunes the retained events are exactly the part of the
   never-pruned log behind the checkpoint, and verification succeeds.
   */
  lemma {:induction false} RetainedIsSuffix(c: Crypto, ops: seq<Op>)
    ensures IsSuffix(c, Run(c, ops), Run(c, OnlyAppends(ops)))
    ensures FaultOf(c, Run(c, ops)) == NoFault
  {
    if ops == [] {
      assert IsSuffix(c, EMPTY_LOG, EMPTY_LOG);
    } else {
      var prefix, op := ops[..|ops| - 1], ops[|ops| - 1];
      RetainedIsSuffix(c, prefix);
      var log, full := Run(c, prefix), Run(c, OnlyAppends(prefix));
      match op {
        case AppendOp(e) =>
          SameAppend(c, log, full, e);
          var appends := OnlyAppends(ops);
          assert appends[..|appends| - 1] == OnlyAppends(prefix) && appends[|appends| - 1] == op;
        case PruneOp(before) =>
          PruneKeepsSuffix(c, log, full, before);
          assert OnlyAppends(ops) == OnlyAppends(prefix);
      }
    }
    StateFaultIff(c, Run(c, ops).events, Run(c, ops).chain);
  }

  /** No sequence number is given out twice: an accepted append takes a number above every earlier one. */
  lemma NumbersNeverReused(c: Crypto, ops: seq<Op>, e: Event)
    requires Append(c, Run(c, ops), e).error == None
    ensures var number := Append(c, Run(c, ops), e).log.chain.latestSequence;
            forall i :: 0 <= i < |Run(c, OnlyAppends(ops)).events| ==>
                Run(c, OnlyAppends(ops)).events[i].sequence < number
  {
    RetainedIsSuffix(c, ops);
    AppendAllOrNothing(c, Run(c, ops), e);
  }

  // ---- combining operations -------------------------------------------------------------------

  /** Equal but for the time of the last change. */
  predicate SameButTime(a: Log, b: Log) {
    a.events == b.events && a.chain.(updatedAt := ZERO_TIME) == b.chain.(updatedAt := ZERO_TIME)
  }

  /** Numbers that can be checkpoints; all logs reached from the empty one have them. */
  ghost predicate PositiveNumbers(log: Log) {
    && 0 <= log.chain.latestSequence
    && forall i :: 0 <= i < |log.events| ==> log.events[i].sequence > 0
  }

  lemma SuffixHasPositiveNumbers(c: Crypto, log: Log, full: Log)
    requires IsSuffix(c, log, full)
    ensures Sound(c, log) && PositiveNumbers(log)
  {
    forall i | 0 <= i < |log.events|
      ensures log.events[i].sequence > 0
    {
      assert log.events[i] == full.events[log.chain.checkpointSequence + i];
    }
  }

  lemma RunsHavePositiveNumbers(c: Crypto, ops: seq<Op>)
    ensures Sound(c, Run(c, ops)) && PositiveNumbers(Run(c, ops))
  {
    RetainedIsSuffix(c, ops);
    SuffixHasPositiveNumbers(c, Run(c, ops), Run(c, OnlyAppends(ops)));
  }

  lemma OldPrefixOfExtended(events: seq<Event>, e: Event, before: int)
    requires e.createdAt >= before
    ensures RetentionPrefix(events + [e], before) == RetentionPrefix(events, before)
  {
    OldPrefixSpec(events, before);
    var k := OldPrefix(events, before);
    OldPrefixUnique(events + [e], before, k);
    if CutoffSplits(events, before) {
      var i :| k <= i < |events| && events[i].createdAt < before;
      assert (events + [e])[i].createdAt < before;
    }
  }

  lemma DropExtended(log: Log, e: Event, k: nat)
    requires 0 < k <= |log.events|
    ensures SameButTime(Extended(Dropped(log, k), e), Dropped(Extended(log, e), k))
  {
    assert (log.events + [e])[k..] == log.events[k..] + [e];
  }

  /** Pruning and appending a newer event commute, up to the time of the last change. */
  lemma PruneCommutesWithAppend(c: Crypto, log: Log, before: int, e: Event)
    requires Sound(c, log) && PositiveNumbers(log)
    requires e.createdAt >= before
    ensures var appended, pruned := Append(c, log, e).log, Prune(c, log, before).log;
            && Append(c, pruned, e).error == Append(c, log, e).error
            && Prune(c, log, before).error == Prune(c, appended, before).error
            && SameButTime(Append(c, pruned, e).log, Prune(c, appended, before).log)
  {
    var k := OldPrefix(log.events, before);
    var prepared := WithHash(c, Inc64(log.chain.latestSequence), log.chain.latestHash, e);
    AppendEquals(c, log, e);
    PruneEquals(c, log, before);
    AppendEquals(c, Prune(c, log, before).log, e);
    if Append(c, log, e).error == None {
      OldPrefixOfExtended(log.events, prepared.value, before);
      PruneEquals(c, Extended(log, prepared.value), before);
      if k > 0 {
        DropExtended(log, prepared.value, k);
      }
    }
  }

  lemma EarlierCutIsShorter(events: seq<Event>, b1: int, b2: int)
    requires b1 <= b2
    ensures OldPrefix(events, b1) <= OldPrefix(events, b2)
  {
    OldPrefixSpec(events, b1);
    OldPrefixSpec(events, b2);
  }

  lemma CutOfTail(events: seq<Event>, before: int, k1: nat, k2: nat)
    requires k1 <= k2 <= |events| && RetentionPrefix(events, before) == Some(k2)
    ensures RetentionPrefix(events[k1..], before) == Some(k2 - k1)
  {
    RetentionPrefixIff(events, before, k2);
    RetentionPrefixIff(events[k1..], before, k2 - k1);
  }

  lemma DropTwice(log: Log, k1: nat, k2: nat)
    requires 0 < k1 < k2 <= |log.events|
    ensures Dropped(Dropped(log, k1), k2 - k1) == Dropped(log, k2)
  {
    assert log.events[k1..][k2 - k1..] == log.events[k2..];
  }

  /** Pruning twice, the second time with the later cutoff, is pruning once with that cutoff. */
  lemma PruneTwice(c: Crypto, log: Log, b1: int, b2: int)
    requires Sound(c, log) && PositiveNumbers(log) && b1 <= b2
    requires Prune(c, log, b2).error == None
    ensures var first := Prune(c, log, b1).log;
            Prune(c, first, b2).error == None && Prune(c, first, b2).log == Prune(c, log, b2).log
  {
    PruneEquals(c, log, b1);
    PruneEquals(c, log, b2);
    var k1, k2 := OldPrefix(log.events, b1), OldPrefix(log.events, b2);
    if !CutoffSplits(log.events, b1) && k1 > 0 {
      EarlierCutIsShorter(log.events, b1, b2);
      CutOfTail(log.events, b2, k1, k2);
      PruneEquals(c, Dropped(log, k1), b2);
      if k1 < k2 {
        DropTwice(log, k1, k2);
      }
    }
  }
}
