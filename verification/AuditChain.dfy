/** The hash chain over audit events: hashing, linking and verification. */
module AuditChain {
  import opened Common
  import opened AuditHex

  const ALGORITHM: string := "sha256-v1"
  const INT64_MAX: int := 0x7fff_ffff_ffff_ffff

  /** 64-bit signed increment. */
  function Inc64(x: int): int {
    if x == INT64_MAX then -INT64_MAX - 1 else x + 1
  }

  /** The number that follows `s` after `n` increments. */
  function SequenceAfter(s: int, n: nat): int {
    if n == 0 then s else Inc64(SequenceAfter(s, n - 1))
  }

  lemma {:induction false} SequenceAfterAdd(s: int, a: nat, b: nat)
    ensures SequenceAfter(SequenceAfter(s, a), b) == SequenceAfter(s, a + b)
  {
    if b > 0 {
      SequenceAfterAdd(s, a, b - 1);
    }
  }

  /** Within the range of a slice length, the number says how many increments were made. */
  lemma {:induction false} SequenceAfterValue(s: int, n: nat)
    requires 0 <= s <= INT64_MAX && n <= INT64_MAX
    ensures SequenceAfter(s, n) == if s + n <= INT64_MAX then s + n else s + n - 2 * INT64_MAX - 2
  {
    if n > 0 {
      SequenceAfterValue(s, n - 1);
    }
  }

  datatype Event = Event(
    id: string,
    sequence: int,
    actor: string,
    action: string,
    resourceType: string,
    resourceId: string,
    metadata: string,
    algorithm: string,
    previousHash: string,
    eventHash: string,
    createdAt: int)

  /** What is hashed of an event; `metadata` is in canonical form here. */
  datatype Payload = Payload(
    algorithm: string,
    sequence: int,
    id: string,
    actor: string,
    action: string,
    resourceType: string,
    resourceId: string,
    metadata: string,
    createdAt: int)

  /** SHA-256, the JSON encoder and the metadata canonicaliser are parameters. */
  datatype Crypto = Crypto(
    sha256: string -> Digest,
    encode: Payload -> string,
    canonical: string -> Option<string>)

  function PayloadOf(c: Crypto, e: Event): Option<Payload> {
    match c.canonical(e.metadata)
    case None => None
    case Some(metadata) =>
      Some(Payload(e.algorithm, e.sequence, e.id, e.actor, e.action, e.resourceType, e.resourceId, metadata,
                   e.createdAt))
  }

  function HashInput(c: Crypto, previousHash: string, p: Payload): string {
    previousHash + c.encode(p)
  }

  function EventHash(c: Crypto, previousHash: string, e: Event): Option<string> {
    match PayloadOf(c, e)
    case None => None
    case Some(p) => Some(Encode(c.sha256(HashInput(c, previousHash, p))))
  }

  datatype HashError = NonPositiveSequence | InvalidMetadata

  /** Give an event its place in the chain. */
  function WithHash(c: Crypto, sequence: int, previousHash: string, e: Event): Result<Event, HashError> {
    if sequence <= 0 then Err(NonPositiveSequence)
    else
      var placed := e.(sequence := sequence, algorithm := ALGORITHM, previousHash := previousHash);
      match EventHash(c, previousHash, placed)
      case None => Err(InvalidMetadata)
      case Some(hash) => Ok(placed.(eventHash := hash))
  }

  // ---- verification -----------------------------------------------------------------------

  datatype Checkpoint = Checkpoint(sequence: int, algorithm: string, eventHash: string)

  /** The failure reasons of a report, by their names in it. */
  datatype Fault =
    | NoFault
    | CheckpointSequenceInvalid
    | CheckpointHashUnexpected
    | CheckpointAlgorithmMismatch
    | CheckpointHashInvalid
    | SequenceGap
    | HashAlgorithmMismatch
    | PreviousHashMismatch
    | MetadataInvalid
    | EventHashMismatch
    | StateAlgorithmMismatch
    | StateLatestMismatch

  /** Why a checkpoint is refused. */
  function CheckpointFault(cp: Checkpoint): Fault {
    if cp.sequence < 0 then CheckpointSequenceInvalid
    else if cp.sequence == 0 then
      if cp.eventHash != "" then CheckpointHashUnexpected
      else if cp.algorithm != "" && cp.algorithm != ALGORITHM then CheckpointAlgorithmMismatch
      else NoFault
    else if cp.algorithm != ALGORITHM then CheckpointAlgorithmMismatch
    else if !IsAuditHash(cp.eventHash) then CheckpointHashInvalid
    else NoFault
  }

  /** Why an event does not continue the chain. */
  function EventFault(c: Crypto, e: Event, expectedSequence: int, previousHash: string): Fault {
    if e.sequence != expectedSequence then SequenceGap
    else if e.algorithm != ALGORITHM then HashAlgorithmMismatch
    else if e.previousHash != previousHash then PreviousHashMismatch
    else
      match EventHash(c, previousHash, e)
      case None => MetadataInvalid
      case Some(hash) => if e.eventHash != hash || !IsAuditHash(e.eventHash) then EventHashMismatch else NoFault
  }

  /** The fault of the first event that does not continue the chain. */
  function EventsFault(c: Crypto, events: seq<Event>, expectedSequence: int, previousHash: string): Fault
    decreases |events|
  {
    if events == [] then NoFault
    else
      var fault := EventFault(c, events[0], expectedSequence, previousHash);
      if fault != NoFault then fault
      else EventsFault(c, events[1..], Inc64(expectedSequence), events[0].eventHash)
  }

  function ChainFault(c: Crypto, events: seq<Event>, cp: Checkpoint): Fault {
    if CheckpointFault(cp) != NoFault then CheckpointFault(cp)
    else EventsFault(c, events, Inc64(cp.sequence), cp.eventHash)
  }

  /** The sequence number of position `i` and the hash before it. */
  function SequenceAt(cp: Checkpoint, i: nat): int {
    SequenceAfter(cp.sequence, i + 1)
  }

  function HashBefore(events: seq<Event>, cp: Checkpoint, i: nat): string
    requires i <= |events|
  {
    if i == 0 then cp.eventHash else events[i - 1].eventHash
  }

  function LastSequence(events: seq<Event>, cp: Checkpoint): int {
    if events == [] then cp.sequence else events[|events| - 1].sequence
  }

  /** The event carries the hash of its fields, in canonical form, behind `previousHash`. */
  predicate OwnHash(c: Crypto, e: Event, previousHash: string) {
    && c.canonical(e.metadata).Some?
    && var fields := Payload("sha256-v1", e.sequence, e.id, e.actor, e.action, e.resourceType, e.resourceId,
                             c.canonical(e.metadata).value, e.createdAt);
       e.eventHash == Encode(c.sha256(previousHash + c.encode(fields)))
  }

  /** The event continues a chain whose next number and last hash are given. */
  predicate Continues(c: Crypto, e: Event, sequence: int, previousHash: string) {
    && e.sequence == sequence && e.algorithm == "sha256-v1" && e.previousHash == previousHash
    && OwnHash(c, e, previousHash)
  }

  /** Position `i` carries its number and is hashed onto the one before. */
  predicate Linked(c: Crypto, events: seq<Event>, cp: Checkpoint, i: nat)
    requires i < |events|
  {
    Continues(c, events[i], SequenceAt(cp, i), HashBefore(events, cp, i))
  }

  /** A chain may start at the beginning, with no hash before it, or behind a numbered event and its hash. */
  predicate ValidCheckpoint(cp: Checkpoint) {
    || (cp.sequence == 0 && cp.eventHash == "" && (cp.algorithm == "" || cp.algorithm == "sha256-v1"))
    || (cp.sequence > 0 && cp.algorithm == "sha256-v1" && IsAuditHash(cp.eventHash))
  }

  /** The chain is sound. */
  ghost predicate ValidChain(c: Crypto, events: seq<Event>, cp: Checkpoint) {
    ValidCheckpoint(cp) && forall i :: 0 <= i < |events| ==> Linked(c, events, cp, i)
  }

  /** What each fault says of the event it is found at; the faults are looked for in this order. */
  predicate Names(c: Crypto, fault: Fault, e: Event, sequence: int, previousHash: string) {
    match fault
    case SequenceGap => e.sequence != sequence
    case HashAlgorithmMismatch => e.sequence == sequence && e.algorithm != "sha256-v1"
    case PreviousHashMismatch =>
      e.sequence == sequence && e.algorithm == "sha256-v1" && e.previousHash != previousHash
    case MetadataInvalid =>
      && e.sequence == sequence && e.algorithm == "sha256-v1" && e.previousHash == previousHash
      && c.canonical(e.metadata).None?
    case EventHashMismatch =>
      && e.sequence == sequence && e.algorithm == "sha256-v1" && e.previousHash == previousHash
      && c.canonical(e.metadata).Some? && !OwnHash(c, e, previousHash)
    case _ => false
  }

  lemma OwnHashIsAuditHash(c: Crypto, e: Event, previousHash: string)
    requires OwnHash(c, e, previousHash)
    ensures IsAuditHash(e.eventHash)
  {
    var fields := Payload("sha256-v1", e.sequence, e.id, e.actor, e.action, e.resourceType, e.resourceId,
                          c.canonical(e.metadata).value, e.createdAt);
    DigestIsAuditHash(c.sha256(previousHash + c.encode(fields)));
  }

  lemma EventFaultNames(c: Crypto, e: Event, sequence: int, previousHash: string)
    ensures var fault := EventFault(c, e, sequence, previousHash);
            && (fault == NoFault <==> Continues(c, e, sequence, previousHash))
            && (fault != NoFault ==> Names(c, fault, e, sequence, previousHash))
  {
    if PayloadOf(c, e).Some? {
      DigestIsAuditHash(c.sha256(HashInput(c, previousHash, PayloadOf(c, e).value)));
    }
  }

  lemma CheckpointFaultNames(cp: Checkpoint)
    ensures CheckpointFault(cp) == NoFault <==> ValidCheckpoint(cp)
    ensures CheckpointFault(cp) == CheckpointSequenceInvalid <==> cp.sequence < 0
    ensures CheckpointFault(cp) == CheckpointHashUnexpected <==> cp.sequence == 0 && cp.eventHash != ""
    ensures CheckpointFault(cp) == CheckpointAlgorithmMismatch <==>
            && cp.algorithm != "sha256-v1"
            && (cp.sequence > 0 || (cp.sequence == 0 && cp.eventHash == "" && cp.algorithm != ""))
    ensures CheckpointFault(cp) == CheckpointHashInvalid <==>
            cp.sequence > 0 && cp.algorithm == "sha256-v1" && !IsAuditHash(cp.eventHash)
  {
  }

  lemma {:induction false} EventsFaultIff(c: Crypto, events: seq<Event>, cp: Checkpoint, i: nat)
    requires i <= |events|
    ensures EventsFault(c, events[i..], SequenceAt(cp, i), HashBefore(events, cp, i)) == NoFault
       <==> forall k :: i <= k < |events| ==> Linked(c, events, cp, k)
    decreases |events| - i
  {
    if i < |events| {
      EventsFaultIff(c, events, cp, i + 1);
      assert events[i..][0] == events[i] && events[i..][1..] == events[i + 1..];
      assert SequenceAt(cp, i + 1) == Inc64(SequenceAt(cp, i));
      assert HashBefore(events, cp, i + 1) == events[i].eventHash;
      EventFaultNames(c, events[i], SequenceAt(cp, i), HashBefore(events, cp, i));
      assert Linked(c, events, cp, i) <==>
          EventFault(c, events[i], SequenceAt(cp, i), HashBefore(events, cp, i)) == NoFault;
    }
  }

  /** Verification finds no fault exactly in sound chains. */
  lemma ChainFaultIff(c: Crypto, events: seq<Event>, cp: Checkpoint)
    ensures ChainFault(c, events, cp) == NoFault <==> ValidChain(c, events, cp)
  {
    EventsFaultIff(c, events, cp, 0);
    CheckpointFaultNames(cp);
    assert events[0..] == events;
    assert SequenceAfter(cp.sequence, 0) == cp.sequence;
    assert SequenceAt(cp, 0) == Inc64(cp.sequence);
  }

  lemma {:induction false} EventsFaultIsFirst(c: Crypto, events: seq<Event>, cp: Checkpoint, i: nat) returns (k: nat)
    requires i <= |events|
    requires EventsFault(c, events[i..], SequenceAt(cp, i), HashBefore(events, cp, i)) != NoFault
    ensures i <= k < |events| && forall j :: i <= j < k ==> Linked(c, events, cp, j)
    ensures var fault := EventsFault(c, events[i..], SequenceAt(cp, i), HashBefore(events, cp, i));
            Names(c, fault, events[k], SequenceAt(cp, k), HashBefore(events, cp, k))
    decreases |events| - i
  {
    EventFaultNames(c, events[i], SequenceAt(cp, i), HashBefore(events, cp, i));
    assert events[i..][0] == events[i] && events[i..][1..] == events[i + 1..];
    if EventFault(c, events[i], SequenceAt(cp, i), HashBefore(events, cp, i)) != NoFault {
      k := i;
    } else {
      assert SequenceAt(cp, i + 1) == Inc64(SequenceAt(cp, i));
      k := EventsFaultIsFirst(c, events, cp, i + 1);
    }
  }

  /** Behind a good checkpoint the fault that is reported names what is wrong with the first event that is. */
  lemma FaultNamesFirstBreak(c: Crypto, events: seq<Event>, cp: Checkpoint) returns (k: nat)
    requires ValidCheckpoint(cp) && ChainFault(c, events, cp) != NoFault
    ensures k < |events| && forall j :: 0 <= j < k ==> Linked(c, events, cp, j)
    ensures Names(c, ChainFault(c, events, cp), events[k], SequenceAt(cp, k), HashBefore(events, cp, k))
  {
    CheckpointFaultNames(cp);
    assert events[0..] == events;
    assert SequenceAfter(cp.sequence, 0) == cp.sequence;
    assert SequenceAt(cp, 0) == Inc64(cp.sequence);
    k := EventsFaultIsFirst(c, events, cp, 0);
  }

  datatype Report = Report(
    valid: bool,
    algorithm: string,
    eventCount: nat,
    firstSequence: int,
    lastSequence: int,
    lastEventHash: string,
    checkpointSequence: int,
    checkpointEventHash: string,
    failureReason: Fault)

  /** verifyAuditEvents: the loop over the events with its early exits. */
  method VerifyEvents(c: Crypto, events: seq<Event>, cp: Checkpoint) returns (report: Report)
    ensures report.valid <==> ChainFault(c, events, cp) == NoFault
    ensures report.failureReason == ChainFault(c, events, cp)
    ensures report.valid ==> report.lastSequence == LastSequence(events, cp)
    ensures report.valid ==> report.lastEventHash == HashBefore(events, cp, |events|)
    ensures report.valid && events != [] ==> report.firstSequence == events[0].sequence
    ensures report.eventCount == |events| && report.algorithm == ALGORITHM
    ensures report.checkpointSequence == cp.sequence && report.checkpointEventHash == cp.eventHash
  {
    report := Report(false, ALGORITHM, |events|, 0, 0, "", cp.sequence, cp.eventHash, CheckpointFault(cp));
    if report.failureReason != NoFault {
      return;
    }
    var expectedSequence := Inc64(cp.sequence);
    var previousHash := cp.eventHash;
    var index := 0;
    assert events[0..] == events;
    while index < |events|
      invariant 0 <= index <= |events|
      invariant ChainFault(c, events, cp) == EventsFault(c, events[index..], expectedSequence, previousHash)
      invariant previousHash == HashBefore(events, cp, index)
      invariant index > 0 ==> report.firstSequence == events[0].sequence
      invariant index > 0 ==> report.lastSequence == events[index - 1].sequence && report.lastEventHash == previousHash
      invariant report ==
                Report(false, ALGORITHM, |events|, report.firstSequence, report.lastSequence, report.lastEventHash,
                       cp.sequence, cp.eventHash, NoFault)
    {
      var event := events[index];
      var fault := EventFault(c, event, expectedSequence, previousHash);
      if fault != NoFault {
        report := report.(failureReason := fault);
        return;
      }
      if index == 0 {
        report := report.(firstSequence := event.sequence);
      }
      report := report.(lastSequence := event.sequence, lastEventHash := event.eventHash);
      assert events[index..][1..] == events[index + 1..];
      previousHash := event.eventHash;
      expectedSequence := Inc64(expectedSequence);
      index := index + 1;
    }
    if |events| == 0 {
      report := report.(lastSequence := cp.sequence, lastEventHash := cp.eventHash);
    }
    report := report.(valid := true);
  }

  // ---- the chain state --------------------------------------------------------------------

  datatype ChainState = ChainState(
    algorithm: string,
    latestSequence: int,
    latestHash: string,
    checkpointSequence: int,
    checkpointHash: string,
    updatedAt: int)

  const EMPTY_CHAIN := ChainState(ALGORITHM, 0, "", 0, "", ZERO_TIME)

  function CheckpointOf(st: ChainState): Checkpoint {
    Checkpoint(st.checkpointSequence, st.algorithm, st.checkpointHash)
  }

  function StateFault(c: Crypto, events: seq<Event>, st: ChainState): Fault {
    var cp := CheckpointOf(st);
    if ChainFault(c, events, cp) != NoFault then ChainFault(c, events, cp)
    else if st.algorithm != ALGORITHM then StateAlgorithmMismatch
    else if st.latestSequence != LastSequence(events, cp) || st.latestHash != HashBefore(events, cp, |events|)
    then StateLatestMismatch
    else NoFault
  }

  ghost predicate ValidState(c: Crypto, events: seq<Event>, st: ChainState) {
    var cp := CheckpointOf(st);
    && ValidChain(c, events, cp)
    && st.algorithm == "sha256-v1"
    && st.latestSequence == LastSequence(events, cp) && st.latestHash == HashBefore(events, cp, |events|)
  }

  lemma StateFaultIff(c: Crypto, events: seq<Event>, st: ChainState)
    ensures StateFault(c, events, st) == NoFault <==> ValidState(c, events, st)
  {
    ChainFaultIff(c, events, CheckpointOf(st));
  }

  method VerifyState(c: Crypto, events: seq<Event>, st: ChainState) returns (report: Report)
    ensures report.valid <==> StateFault(c, events, st) == NoFault
    ensures report.failureReason == StateFault(c, events, st)
    ensures report.valid ==> report.lastSequence == st.latestSequence && report.lastEventHash == st.latestHash
  {
    report := VerifyEvents(c, events, CheckpointOf(st));
    if !report.valid {
      return;
    }
    if st.algorithm != ALGORITHM {
      report := report.(valid := false, failureReason := StateAlgorithmMismatch);
      return;
    }
    if st.latestSequence != report.lastSequence || st.latestHash != report.lastEventHash {
      report := report.(valid := false, failureReason := StateLatestMismatch);
    }
  }

  // ---- tamper evidence ----------------------------------------------------------------------

  /** The encoder writes JSON objects. */
  ghost predicate WritesObjects(c: Crypto) {
    forall p :: |c.encode(p)| > 0 && c.encode(p)[0] == '{'
  }

  /** A hash in the chain, or the empty one before the first event. */
  ghost predicate IsLink(hash: string) {
    hash == "" || IsAuditHash(hash)
  }

  /** `previousHash ++ payload` can be read in one way only. */
  lemma ConcatenationUnambiguous(h1: string, h2: string, p1: string, p2: string)
    requires IsLink(h1) && IsLink(h2)
    requires |p1| > 0 && p1[0] == '{' && |p2| > 0 && p2[0] == '{'
    requires h1 + p1 == h2 + p2
    ensures h1 == h2 && p1 == p2
  {
    assert |h1| == |h2| by {
      var input := h1 + p1;
      assert input[0] == if h1 == "" then '{' else h1[0];
      assert input[0] == if h2 == "" then '{' else h2[0];
    }
    assert h1 == (h1 + p1)[..|h1|] && h2 == (h2 + p2)[..|h2|];
    assert p1 == (h1 + p1)[|h1|..] && p2 == (h2 + p2)[|h2|..];
  }

  lemma ChainHashesAreLinks(c: Crypto, events: seq<Event>, cp: Checkpoint, i: nat)
    requires ValidChain(c, events, cp) && i <= |events|
    ensures IsLink(HashBefore(events, cp, i))
  {
    if i > 0 {
      assert Linked(c, events, cp, i - 1);
      OwnHashIsAuditHash(c, events[i - 1], HashBefore(events, cp, i - 1));
    }
  }

  /** What one event of a chain feeds to the hash. */
  ghost function InputAt(c: Crypto, events: seq<Event>, cp: Checkpoint, i: nat): string
    requires ValidChain(c, events, cp) && i < |events|
  {
    assert Linked(c, events, cp, i);
    HashInput(c, HashBefore(events, cp, i), PayloadOf(c, events[i]).value)
  }

  /** The hash has no collision between the inputs of two chains. */
  ghost predicate NoCollision(c: Crypto, a: seq<Event>, cpa: Checkpoint, b: seq<Event>, cpb: Checkpoint)
    requires ValidChain(c, a, cpa) && ValidChain(c, b, cpb)
  {
    forall i, j :: 0 <= i < |a| && 0 <= j < |b| && c.sha256(InputAt(c, a, cpa, i)) == c.sha256(InputAt(c, b, cpb, j))
                ==> InputAt(c, a, cpa, i) == InputAt(c, b, cpb, j)
  }

  /** The encoder has no collision between the payloads of two event lists. */
  ghost predicate NoEncodingClash(c: Crypto, a: seq<Event>, b: seq<Event>) {
    forall i, j :: 0 <= i < |a| && 0 <= j < |b|
                && PayloadOf(c, a[i]).Some? && PayloadOf(c, b[j]).Some?
                && c.encode(PayloadOf(c, a[i]).value) == c.encode(PayloadOf(c, b[j]).value)
                ==> PayloadOf(c, a[i]) == PayloadOf(c, b[j])
  }

  /** All fields agree, the metadata in canonical form. */
  predicate SameFields(c: Crypto, a: Event, b: Event) {
    a.(metadata := b.metadata) == b && c.canonical(a.metadata) == c.canonical(b.metadata)
  }

  /** Two events with the same hash carry the same fields and hang on the same hash. */
  lemma SameHashSameEvent(c: Crypto, a: seq<Event>, b: seq<Event>, cp: Checkpoint, i: nat)
    requires ValidChain(c, a, cp) && ValidChain(c, b, cp) && i < |a| && i < |b|
    requires WritesObjects(c) && NoCollision(c, a, cp, b, cp) && NoEncodingClash(c, a, b)
    requires a[i].eventHash == b[i].eventHash
    ensures SameFields(c, a[i], b[i]) && HashBefore(a, cp, i) == HashBefore(b, cp, i)
  {
    assert Linked(c, a, cp, i);
    assert Linked(c, b, cp, i);
    EncodeInjective(c.sha256(InputAt(c, a, cp, i)), c.sha256(InputAt(c, b, cp, i)));
    assert InputAt(c, a, cp, i) == InputAt(c, b, cp, i);
    ChainHashesAreLinks(c, a, cp, i);
    ChainHashesAreLinks(c, b, cp, i);
    ConcatenationUnambiguous(HashBefore(a, cp, i), HashBefore(b, cp, i),
                             c.encode(PayloadOf(c, a[i]).value), c.encode(PayloadOf(c, b[i]).value));
  }

  lemma {:induction false} AgreeBackwards(c: Crypto, a: seq<Event>, b: seq<Event>, cp: Checkpoint, n: nat)
    requires ValidChain(c, a, cp) && ValidChain(c, b, cp) && n <= |a| && n <= |b|
    requires WritesObjects(c) && NoCollision(c, a, cp, b, cp) && NoEncodingClash(c, a, b)
    requires HashBefore(a, cp, n) == HashBefore(b, cp, n)
    ensures forall i :: 0 <= i < n ==> SameFields(c, a[i], b[i])
  {
    if n > 0 {
      SameHashSameEvent(c, a, b, cp, n - 1);
      AgreeBackwards(c, a, b, cp, n - 1);
    }
  }

  /** The last number of a sound chain is the checkpoint's, counted up once per event. */
  lemma LastSequenceCounts(c: Crypto, events: seq<Event>, cp: Checkpoint)
    requires ValidChain(c, events, cp)
    ensures LastSequence(events, cp) == SequenceAfter(cp.sequence, |events|)
  {
    if events != [] {
      var n := |events| - 1;
      assert Linked(c, events, cp, n);
    }
  }

  /**
   Two event lists that verify against one chain state have the same length and agree at every
   position on every field, on the metadata in its canonical form.
   */
  lemma TamperEvident(c: Crypto, a: seq<Event>, b: seq<Event>, st: ChainState)
    requires ValidState(c, a, st) && ValidState(c, b, st)
    requires |a| <= INT64_MAX && |b| <= INT64_MAX
    requires st.checkpointSequence <= INT64_MAX
    requires WritesObjects(c) && NoCollision(c, a, CheckpointOf(st), b, CheckpointOf(st)) && NoEncodingClash(c, a, b)
    ensures |a| == |b|
    ensures forall i :: 0 <= i < |a| ==>
              a[i].(metadata := b[i].metadata) == b[i] && c.canonical(a[i].metadata) == c.canonical(b[i].metadata)
  {
    var cp := CheckpointOf(st);
    LastSequenceCounts(c, a, cp);
    LastSequenceCounts(c, b, cp);
    SequenceAfterValue(st.checkpointSequence, |a|);
    SequenceAfterValue(st.checkpointSequence, |b|);
    AgreeBackwards(c, a, b, cp, |a|);
    assert forall i :: 0 <= i < |a| ==> SameFields(c, a[i], b[i]);
  }
}
