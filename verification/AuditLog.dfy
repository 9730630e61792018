/** Appending to the audit log and pruning its old end, in memory. */
module AuditLog {
  import opened Common
  import opened AuditHex
  import opened AuditChain

  datatype Log = Log(events: seq<Event>, chain: ChainState)

  const EMPTY_LOG := Log([], EMPTY_CHAIN)

  datatype AuditError = Integrity(fault: Fault) | Unhashable(error: HashError) | NonPrefixCutoff

  /** What a call leaves behind: the log, how many events it deleted, and its error if any. */
  datatype Outcome = Outcome(log: Log, deleted: nat, error: Option<AuditError>)

  ghost predicate Sound(c: Crypto, log: Log) {
    ValidState(c, log.events, log.chain)
  }

  function FaultOf(c: Crypto, log: Log): Fault {
    StateFault(c, log.events, log.chain)
  }

  /** The log with a prepared event at its end. */
  function Extended(log: Log, e: Event): Log {
    Log(log.events + [e],
        log.chain.(algorithm := ALGORITHM, latestSequence := e.sequence, latestHash := e.eventHash,
                   updatedAt := e.createdAt))
  }

  /** appendMemoryAuditEvent. */
  function Append(c: Crypto, log: Log, e: Event): Outcome {
    if FaultOf(c, log) != NoFault then Outcome(log, 0, Some(Integrity(FaultOf(c, log))))
    else
      match WithHash(c, Inc64(log.chain.latestSequence), log.chain.latestHash, e)
      case Err(error) => Outcome(log, 0, Some(Unhashable(error)))
      case Ok(prepared) =>
        var after := Extended(log, prepared);
        Outcome(after, 0, if FaultOf(c, after) == NoFault then None else Some(Integrity(FaultOf(c, after))))
  }

  /** How many events at the front were created before the cutoff. */
  function OldPrefix(events: seq<Event>, before: int): (n: nat)
    ensures n <= |events|
  {
    if events == [] || events[0].createdAt >= before then 0 else 1 + OldPrefix(events[1..], before)
  }

  /** Some event created before the cutoff comes after one that is kept. */
  ghost predicate CutoffSplits(events: seq<Event>, before: int) {
    exists i :: OldPrefix(events, before) <= i < |events| && events[i].createdAt < before
  }

  /** auditRetentionPrefixLength; None stands for its -1. */
  ghost function RetentionPrefix(events: seq<Event>, before: int): Option<nat> {
    if CutoffSplits(events, before) then None else Some(OldPrefix(events, before))
  }

  /** The log without its first `k` events, the last of them now being the checkpoint. */
  function Dropped(log: Log, k: nat): Log
    requires 0 < k <= |log.events|
  {
    var last := log.events[k - 1];
    Log(log.events[k..],
        log.chain.(algorithm := ALGORITHM, checkpointSequence := last.sequence, checkpointHash := last.eventHash,
                   updatedAt := last.createdAt))
  }

  /** pruneMemoryAuditEvents. */
  ghost function Prune(c: Crypto, log: Log, before: int): Outcome {
    if FaultOf(c, log) != NoFault then Outcome(log, 0, Some(Integrity(FaultOf(c, log))))
    else
      match RetentionPrefix(log.events, before)
      case None => Outcome(log, 0, Some(NonPrefixCutoff))
      case Some(k) =>
        if k == 0 then Outcome(log, 0, None)
        else
          var after := Dropped(log, k);
          if FaultOf(c, after) == NoFault then Outcome(after, k, None)
          else Outcome(after, 0, Some(Integrity(FaultOf(c, after))))
  }

  // ---- the retention prefix -----------------------------------------------------------------

  lemma {:induction false} OldPrefixSpec(events: seq<Event>, before: int)
    ensures forall i :: 0 <= i < OldPrefix(events, before) ==> events[i].createdAt < before
    ensures OldPrefix(events, before) < |events| ==> events[OldPrefix(events, before)].createdAt >= before
  {
    if events != [] && events[0].createdAt < before {
      OldPrefixSpec(events[1..], before);
    }
  }

  lemma {:induction false} OldPrefixUnique(events: seq<Event>, before: int, k: nat)
    requires k <= |events|
    requires forall i :: 0 <= i < k ==> events[i].createdAt < before
    requires k < |events| ==> events[k].createdAt >= before
    ensures OldPrefix(events, before) == k
  {
    if k > 0 {
      OldPrefixUnique(events[1..], before, k - 1);
    }
  }

  /** The cutoff is accepted with `k` exactly when the old events are the first `k`. */
  lemma RetentionPrefixIff(events: seq<Event>, before: int, k: nat)
    requires k <= |events|
    ensures RetentionPrefix(events, before) == Some(k) <==>
            forall i :: 0 <= i < |events| ==> (events[i].createdAt < before <==> i < k)
  {
    OldPrefixSpec(events, before);
    if forall i :: 0 <= i < |events| ==> (events[i].createdAt < before <==> i < k) {
      OldPrefixUnique(events, before, k);
    }
  }

  method CountRetentionPrefix(events: seq<Event>, before: int) returns (deleteCount: int)
    ensures deleteCount == match RetentionPrefix(events, before) case Some(k) => k case None => -1
  {
    deleteCount := 0;
    var seenRetained := false;
    OldPrefixSpec(events, before);
    for index := 0 to |events|
      invariant 0 <= deleteCount <= index
      invariant deleteCount == if index < OldPrefix(events, before) then index else OldPrefix(events, before)
      invariant seenRetained <==> index > OldPrefix(events, before)
      invariant forall i :: OldPrefix(events, before) <= i < index ==> events[i].createdAt >= before
    {
      if events[index].createdAt < before {
        if seenRetained {
          return -1;
        }
        deleteCount := deleteCount + 1;
      } else {
        seenRetained := true;
      }
    }
  }

  // ---- soundness after each call --------------------------------------------------------------

  lemma PreparedIsLinked(c: Crypto, sequence: int, previousHash: string, e: Event)
    requires WithHash(c, sequence, previousHash, e).Ok?
    ensures Continues(c, WithHash(c, sequence, previousHash, e).value, sequence, previousHash)
  {
  }

  lemma ExtendedIsSound(c: Crypto, log: Log, e: Event)
    requires Sound(c, log) && Continues(c, e, Inc64(log.chain.latestSequence), log.chain.latestHash)
    ensures Sound(c, Extended(log, e))
  {
    var cp, after := CheckpointOf(log.chain), Extended(log, e);
    var n := |log.events|;
    LastSequenceCounts(c, log.events, cp);
    forall i | 0 <= i < |after.events|
      ensures Linked(c, after.events, cp, i)
    {
      if i < n {
        assert Linked(c, log.events, cp, i);
      } else {
        assert SequenceAt(cp, n) == Inc64(log.chain.latestSequence);
      }
    }
    assert CheckpointOf(after.chain) == cp;
  }

  /** The tail of a sound chain is sound from the dropped event on, provided that one can be a checkpoint. */
  lemma DroppedIsSound(c: Crypto, log: Log, k: nat)
    requires Sound(c, log) && 0 < k <= |log.events| && log.events[k - 1].sequence > 0
    ensures Sound(c, Dropped(log, k))
  {
    var cp, after := CheckpointOf(log.chain), Dropped(log, k);
    var cp' := CheckpointOf(after.chain);
    assert Linked(c, log.events, cp, k - 1);
    OwnHashIsAuditHash(c, log.events[k - 1], HashBefore(log.events, cp, k - 1));
    forall i | 0 <= i < |after.events|
      ensures Linked(c, after.events, cp', i)
    {
      assert Linked(c, log.events, cp, k + i);
      SequenceAfterAdd(cp.sequence, k, i + 1);
    }
    assert log.events[k..] == [] ==> k == |log.events|;
  }

  lemma DroppedIsUnsound(c: Crypto, log: Log, k: nat)
    requires Sound(c, log) && 0 < k <= |log.events| && log.events[k - 1].sequence <= 0
    ensures !Sound(c, Dropped(log, k))
  {
    assert Linked(c, log.events, CheckpointOf(log.chain), k - 1);
  }

  /** Exactly when an append is accepted. */
  ghost predicate Appendable(c: Crypto, log: Log, e: Event) {
    && Sound(c, log)
    && c.canonical(e.metadata).Some?
    && 0 <= log.chain.latestSequence != 9223372036854775807
  }

  /** On a sound log, appending is hashing the event onto the end; the second verification always succeeds. */
  lemma AppendEquals(c: Crypto, log: Log, e: Event)
    requires Sound(c, log)
    ensures Append(c, log, e) ==
            match WithHash(c, Inc64(log.chain.latestSequence), log.chain.latestHash, e)
            case Err(error) => Outcome(log, 0, Some(Unhashable(error)))
            case Ok(prepared) => Outcome(Extended(log, prepared), 0, None)
    ensures Sound(c, Append(c, log, e).log)
  {
    StateFaultIff(c, log.events, log.chain);
    var prepared := WithHash(c, Inc64(log.chain.latestSequence), log.chain.latestHash, e);
    if prepared.Ok? {
      var after := Extended(log, prepared.value);
      PreparedIsLinked(c, Inc64(log.chain.latestSequence), log.chain.latestHash, e);
      ExtendedIsSound(c, log, prepared.value);
      StateFaultIff(c, after.events, after.chain);
    }
  }

  /** What an accepted append stores: `stored` and the new chain state, from the log and the event as given. */
  predicate Appended(log: Log, e: Event, stored: Event, chain: ChainState) {
    && stored == e.(sequence := log.chain.latestSequence + 1, algorithm := "sha256-v1",
                    previousHash := log.chain.latestHash, eventHash := stored.eventHash)
    && chain == log.chain.(latestSequence := stored.sequence, latestHash := stored.eventHash, updatedAt := e.createdAt)
  }

  /**
   An append is accepted exactly for sound logs, canonical metadata and a sequence number that does
   not run over; a refused one changes nothing, and an accepted one leaves a sound log: the event as
   given, with the next number, the latest hash before it and the hash that makes the log sound.
   */
  lemma AppendAllOrNothing(c: Crypto, log: Log, e: Event)
    ensures Append(c, log, e).error == None <==> Appendable(c, log, e)
    ensures Append(c, log, e).error != None ==> Append(c, log, e).log == log
    ensures Append(c, log, e).error == None ==>
              var after := Append(c, log, e).log;
              && Sound(c, after)
              && |after.events| == |log.events| + 1 && after.events[..|log.events|] == log.events
              && Appended(log, e, after.events[|log.events|], after.chain)
  {
    StateFaultIff(c, log.events, log.chain);
    if Sound(c, log) {
      AppendEquals(c, log, e);
    }
  }

  /** The last event a prune would drop can be a checkpoint. */
  predicate CutIsCheckpoint(log: Log, before: int) {
    var k := OldPrefix(log.events, before);
    k > 0 ==> log.events[k - 1].sequence > 0
  }

  /** On a sound log with such a cut, pruning drops the old prefix; the second verification always succeeds. */
  lemma PruneEquals(c: Crypto, log: Log, before: int)
    requires Sound(c, log) && CutIsCheckpoint(log, before)
    ensures var k := OldPrefix(log.events, before);
            Prune(c, log, before) ==
            if CutoffSplits(log.events, before) then Outcome(log, 0, Some(NonPrefixCutoff))
            else if k == 0 then Outcome(log, 0, None)
            else Outcome(Dropped(log, k), k, None)
    ensures Sound(c, Prune(c, log, before).log)
  {
    StateFaultIff(c, log.events, log.chain);
    var k := OldPrefix(log.events, before);
    if k > 0 {
      DroppedIsSound(c, log, k);
      StateFaultIff(c, Dropped(log, k).events, Dropped(log, k).chain);
    }
  }

  /**
   A prune either changes nothing, or drops the old prefix and leaves a sound log. The one
   exception is a cut whose last dropped event carries a number that cannot be a checkpoint.
   */
  lemma PruneAllOrNothing(c: Crypto, log: Log, before: int)
    requires Sound(c, log) && CutIsCheckpoint(log, before)
    ensures var out := Prune(c, log, before);
            && (out.error != None <==> CutoffSplits(log.events, before))
            && (out.error != None ==> out.log == log && out.deleted == 0)
            && (out.error == None ==> Sound(c, out.log) && out.deleted == OldPrefix(log.events, before))
            && (out.error == None ==> out.log.events == log.events[out.deleted..])
            && (out.error == None && out.deleted > 0 ==>
                  var last := log.events[out.deleted - 1];
                  out.log.chain == log.chain.(checkpointSequence := last.sequence, checkpointHash := last.eventHash,
                                              updatedAt := last.createdAt))
  {
    PruneEquals(c, log, before);
    assert log.events[0..] == log.events;
  }

  /**
   A failed prune has changed the log if and only if the log was sound and its last dropped number is not
   positive.
   */
  lemma PruneLeavesDamageIff(c: Crypto, log: Log, before: int)
    ensures var out, k := Prune(c, log, before), OldPrefix(log.events, before);
            out.error != None && out.log != log
            <==> Sound(c, log) && !CutoffSplits(log.events, before) && k > 0 && log.events[k - 1].sequence <= 0
  {
    var k := OldPrefix(log.events, before);
    StateFaultIff(c, log.events, log.chain);
    if k > 0 && Sound(c, log) {
      StateFaultIff(c, Dropped(log, k).events, Dropped(log, k).chain);
      if log.events[k - 1].sequence > 0 {
        DroppedIsSound(c, log, k);
      } else {
        DroppedIsUnsound(c, log, k);
      }
      assert |log.events[k..]| < |log.events|;
    }
  }

  /** Such a log exists: one event numbered past the largest checkpoint. */
  lemma PruneCanLeaveDamage(c: Crypto, e: Event) returns (log: Log)
    requires c.canonical(e.metadata).Some?
    ensures Sound(c, log)
    ensures var out := Prune(c, log, e.createdAt + 1); out.error != None && out.log != log
  {
    var link := Encode(c.sha256(""));
    DigestIsAuditHash(c.sha256(""));
    var placed := e.(sequence := Inc64(INT64_MAX), algorithm := ALGORITHM, previousHash := link);
    var hash := EventHash(c, link, placed).value;
    DigestIsAuditHash(c.sha256(HashInput(c, link, PayloadOf(c, placed).value)));
    var last := placed.(eventHash := hash);
    log := Log([last], ChainState(ALGORITHM, last.sequence, hash, INT64_MAX, link, ZERO_TIME));
    var cp := CheckpointOf(log.chain);
    assert SequenceAfter(INT64_MAX, 1) == Inc64(SequenceAfter(INT64_MAX, 0));
    assert Linked(c, log.events, cp, 0);
    assert OldPrefix(log.events, e.createdAt + 1) == 1 by {
      OldPrefixUnique(log.events, e.createdAt + 1, 1);
    }
    PruneLeavesDamageIff(c, log, e.createdAt + 1);
  }

  // ---- the log as an object -------------------------------------------------------------------

  class MemoryAuditLog {
    const crypto: Crypto
    var events: seq<Event>
    var chain: ChainState

    constructor (crypto: Crypto)
      ensures this.crypto == crypto && View() == EMPTY_LOG
    {
      this.crypto := crypto;
      events := [];
      chain := EMPTY_CHAIN;
    }

    function View(): Log
      reads this
    {
      Log(events, chain)
    }

    method CreateAuditEvent(event: Event) returns (error: Option<AuditError>)
      modifies this
      ensures Outcome(View(), 0, error) == Append(crypto, old(View()), event)
      ensures error == None <==> Appendable(crypto, old(View()), event)
      ensures error != None ==> View() == old(View())
      ensures error == None ==>
                && |events| == |old(events)| + 1 && events[..|old(events)|] == old(events)
                && Appended(old(View()), event, events[|old(events)|], chain) && Sound(crypto, View())
    {
      AppendAllOrNothing(crypto, View(), event);
      var report := VerifyState(crypto, events, chain);
      if !report.valid {
        return Some(Integrity(report.failureReason));
      }
      var prepared := WithHash(crypto, Inc64(report.lastSequence), report.lastEventHash, event);
      if prepared.Err? {
        return Some(Unhashable(prepared.error));
      }
      events := events + [prepared.value];
      chain := chain.(algorithm := ALGORITHM, latestSequence := prepared.value.sequence,
                      latestHash := prepared.value.eventHash, updatedAt := prepared.value.createdAt);
      var after := VerifyState(crypto, events, chain);
      if !after.valid {
        return Some(Integrity(after.failureReason));
      }
      return None;
    }

    method DeleteAuditEventsBefore(before: int) returns (deleted: nat, error: Option<AuditError>)
      modifies this
      ensures Outcome(View(), deleted, error) == Prune(crypto, old(View()), before)
    {
      var report := VerifyState(crypto, events, chain);
      if !report.valid {
        return 0, Some(Integrity(report.failureReason));
      }
      var deleteCount := CountRetentionPrefix(events, before);
      if deleteCount < 0 {
        return 0, Some(NonPrefixCutoff);
      }
      if deleteCount == 0 {
        return 0, None;
      }
      var lastDeleted := events[deleteCount - 1];
      chain := chain.(algorithm := ALGORITHM, checkpointSequence := lastDeleted.sequence,
                      checkpointHash := lastDeleted.eventHash, updatedAt := lastDeleted.createdAt);
      events := events[deleteCount..];
      var after := VerifyState(crypto, events, chain);
      if !after.valid {
        return 0, Some(Integrity(after.failureReason));
      }
      return deleteCount, None;
    }
  }
}
