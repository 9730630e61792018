/** Outbox records, the compare-and-set write and the pure parts of the dispatcher. */
module OutboxModel {
  import opened Common

  datatype Status = Pending | Processing | Completed | Failed | DeadLetter

  datatype Message = Message(
    id: string,
    kind: string,
    payload: string,
    status: Status,
    availableAt: int,
    deadline: int,
    attemptCount: int,
    maxAttempts: int,
    lastError: string,
    createdAt: int,
    updatedAt: int)

  datatype AttemptStatus = Succeeded | AttemptFailed

  datatype JobAttempt = JobAttempt(
    id: string,
    messageId: string,
    status: AttemptStatus,
    error: string,
    startedAt: int,
    finishedAt: int,
    createdAt: int)

  const DEFAULT_MAX_ATTEMPTS: int := 5
  const LEASE: int := 10 * MINUTE
  const RETRY_DELAYS: seq<int> := [MINUTE, 5 * MINUTE, 15 * MINUTE, 60 * MINUTE]

  /** The part of a record that the compare-and-set looks at. */
  datatype Token = Token(status: Status, deadline: int, updatedAt: int)

  function TokenOf(m: Message): Token {
    Token(m.status, m.deadline, m.updatedAt)
  }

  predicate Terminal(status: Status) {
    status == Completed || status == DeadLetter
  }

  /** The record a producer inserts: pending, never attempted, no lease. */
  predicate Fresh(m: Message) {
    m.status == Pending && m.deadline == ZERO_TIME && m.attemptCount == 0
  }

  /** Whether a listing at `now` returns the record. */
  predicate Due(m: Message, now: int) {
    match m.status
    case Pending => m.availableAt <= now
    case Processing => m.deadline != ZERO_TIME && m.deadline <= now
    case _ => false
  }

  datatype CasError = NotFound | InvalidTransition

  /** UpdateOutboxMessageIfCurrent: replace the record if the stored token is still the expected one. */
  function CompareAndSet(outbox: map<string, Message>, next: Message, current: Message)
    : (r: Result<map<string, Message>, CasError>)
  {
    if next.id !in outbox then Err(NotFound)
    else if TokenOf(outbox[next.id]) != TokenOf(current) then Err(InvalidTransition)
    else Ok(outbox[next.id := next])
  }

  function EffectiveMaxAttempts(m: Message): (n: int)
    ensures n >= 1
  {
    if m.maxAttempts > 0 then m.maxAttempts else DEFAULT_MAX_ATTEMPTS
  }

  function RetryDelayForAttempt(attemptCount: int): (d: int)
    ensures MINUTE <= d <= 60 * MINUTE
  {
    if attemptCount <= 1 then RETRY_DELAYS[0]
    else
      var index := attemptCount - 1;
      RETRY_DELAYS[if index >= |RETRY_DELAYS| then |RETRY_DELAYS| - 1 else index]
  }

  /** `hash` is the 32-bit FNV sum of the message id and the attempt count. */
  function RetryDelay(m: Message, hash: nat): (d: int)
    ensures RetryDelayForAttempt(m.attemptCount) <= d
    ensures d <= RetryDelayForAttempt(m.attemptCount) + RetryDelayForAttempt(m.attemptCount) / 10
  {
    var base := RetryDelayForAttempt(m.attemptCount);
    var jitterMax := base / 10;
    if jitterMax <= 0 then base else base + hash % (jitterMax + 1)
  }

  /** Every delay up to a tenth above the base is that of some hash. */
  lemma JitterReachesEveryDelay(m: Message, delay: int)
    requires var base := RetryDelayForAttempt(m.attemptCount); base <= delay <= base + base / 10
    ensures RetryDelay(m, delay - RetryDelayForAttempt(m.attemptCount)) == delay
  {
  }

  /** The record written when an expired lease is taken back. */
  function RecoverRecord(m: Message, now: int): Message {
    m.(status := Pending, deadline := ZERO_TIME, updatedAt := now)
  }

  /** The record written when a lease is taken. */
  function ClaimRecord(m: Message, now: int): Message {
    m.(status := Processing, deadline := now + LEASE, updatedAt := now)
  }

  /** What RunOnce does to its copy of the claimed record once the handler is back. */
  function AfterHandler(claimed: Message, handlerError: Option<string>, finishedAt: int, hash: nat): Message {
    match handlerError
    case None => claimed.(lastError := "")
    case Some(error) =>
      var counted := claimed.(attemptCount := claimed.attemptCount + 1,
                              maxAttempts := EffectiveMaxAttempts(claimed),
                              lastError := error);
      if counted.attemptCount >= counted.maxAttempts then counted
      else counted.(availableAt := finishedAt + RetryDelay(counted, hash))
  }

  function NextStatus(claimed: Message, handlerError: Option<string>): Status {
    match handlerError
    case None => Completed
    case Some(_) => if claimed.attemptCount + 1 >= EffectiveMaxAttempts(claimed) then DeadLetter else Pending
  }

  /** The record that `finish` writes. */
  function FinishRecord(mutated: Message, status: Status, finishedAt: int): Message {
    mutated.(status := status, deadline := ZERO_TIME, updatedAt := finishedAt)
  }

  /** The record a finished run leaves behind, from the record it claimed. */
  function Finished(claimed: Message, handlerError: Option<string>, finishedAt: int, hash: nat): Message {
    FinishRecord(AfterHandler(claimed, handlerError, finishedAt, hash), NextStatus(claimed, handlerError), finishedAt)
  }

  function AttemptRow(claimed: Message, handlerError: Option<string>, startedAt: int, finishedAt: int,
                      id: string): JobAttempt {
    JobAttempt(id, claimed.id,
               if handlerError.None? then Succeeded else AttemptFailed,
               if handlerError.None? then "" else handlerError.value,
               startedAt, finishedAt, finishedAt)
  }
}
