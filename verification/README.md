# AnoPKI: a verified model of the hard parts

This project models the parts of AnoPKI Community whose correctness is not visible from any one function, and
proves what they promise for every input, every run or every reachable state. It is plain Dafny 4.11 without
dependencies; `dafny verify dfyconfig.toml` checks all of it. Times are integers in nanoseconds, and the zero
value of a Go `time.Time` is 0.

**Outbox leases** (`Outbox*.dfy`). Any number of dispatchers share one store. Every repository call, clock
reading and handler call is one step; steps interleave freely and a dispatcher may crash between any two. Each
dispatcher reads its own clock: readings within one `RunOnce` call do not go back, readings of different calls and
the times of producers need not agree in any way. The store compares only (status, deadline, updated-at) before it
writes. What that is worth is stated exactly, for every run:

- Final records never change and `RunOnce` returns the number of rows it committed, whatever the clocks show.
- The comparison stands for one of whole records, and every attempt is counted, if and only if every write that
  succeeds finds the attempt count it expects (`WholeRecordsIffCounted`, `AccountedIffWhole`).
- Claims of one message without a finish between them lie a full lease apart if and only if no claim of a record taken
  back from a lease is dated before that lease's deadline (`LeasesKeptIffOver`).
- A dispatcher that has lost its lease never holds it again if and only if no claim is dated like a lease that
  somebody still holds (`NeverRegainsIffFresh`); it then never commits (`DisplacedFinishRejected`).
- Versions are dated in order if and only if no claim reads a time before the update time of the record it replaces
  (`ChronologicalIffForward`). Such runs, called forward, keep leases and displaced dispatchers safe, and one clock
  that never goes back makes every run forward (`OneClockIsForward`). `SlowClockStealsLease` and
  `RepeatedReadingHidesDisplacement` show what a slow clock can do.
- In a forward run equal readings cost attempt counts only: all is counted if and only if every claim that commits
  finds the record it was listed with (`WholeRecordsIffExact`, `AccountedIffExact`). `EqualInstantsLoseAnAttempt`
  builds a run in which an attempt is lost. Tokens never recur if and only if no committed retry carries the update
  time of the record that was claimed (`TokensNeverRecurIffGuarded`), which handlers that take time always meet.

The store and the dispatcher are also written as classes; between any two steps of the dispatcher the others may take
any steps of theirs, and it carries the protocol run performed so far.

**Audit chain** (`Audit*.dfy`). Verification accepts exactly the linked chains; two lists that verify against
one state agree on every hashed field; appends and prunes are all-or-nothing, commute and compose as promised;
the retained events are always a suffix of the log that was never pruned. The SQL store, called from empty tables,
answers every call as the memory store does if and only if no append repeats a stored id, which memory accepts and
the primary key refuses. Sequence numbers are int64 and wrap. A prune whose after-check fails leaves a changed log
in memory, if and only if the last dropped number is not positive, which no run from the empty log reaches.

**Core CLI JSON** (`Json*.dfy`). A grammar with all whitespace gives every text a meaning. The parser object
returns a map exactly for the texts of the grammar and returns their last-wins meaning; everything the printers
write is read back field by field; integers are exact over the whole int64 range with no overflow on the way.

**ACME nonces and rate limiter** (`Nonce*.dfy`, `RateLimiter.dfy`). The bounded cache against the unbounded
table (section 6.5 of RFC 8555), and a bound over arbitrary intervals for the fixed-window limiter (section 6.6
of RFC 8555). The bound is twice the limit minus one and is reached in every window longer than one instant; a
window of one instant never holds more than the limit.

**CAA lookup** (`DnsWire.dfy`, `Caa*.dfy`). Responses are parsed exactly when they are well formed, to exactly
their class-IN CAA records; queries and the climb towards the root. A byte is a character below 256.

**Webhook deliveries and store uniqueness** (`Webhook*.dfy`, `StoreUniqueness.dfy`). Any number of handler runs
for any messages; the uniqueness rules of the store inside and outside transactions.

Where a property does not hold of the code as it stands, the code is kept, a concrete case is given and the
exact condition is proved: the outbox theorems above, `CallSimulatesMemory`, `SqlRefinesMemory`,
`PruneLeavesDamageIff`, `EvictsOldestIff`, `KeysCollideIff`.

## Model

| member | source | states |
|---|---|---|
| OutboxModel.RetryDelay | service/internal/lifecycle/outbox_dispatcher.go:126-138 | jitter adds at most a tenth of the base delay and never shortens it |
| OutboxModel.JitterReachesEveryDelay | service/internal/lifecycle/outbox_dispatcher.go:126-138 | and every delay in that range is that of some hash |
| OutboxHistory.ProcessingIsClaimed | service/internal/lifecycle/outbox_dispatcher.go:168-178 | a leased record was written by a claim of a pending one and its lease runs from its update time |
| OutboxHistory.PendingHasNoDeadline | service/internal/lifecycle/outbox_dispatcher.go:181-192 | only a leased record carries a deadline |
| OutboxHistory.RetryIsLater | service/internal/lifecycle/outbox_dispatcher.go:79-90 | a retry becomes available strictly after the run that scheduled it |
| OutboxHistory.RepeatIsRetry | service/internal/lifecycle/outbox_dispatcher.go:147-192 | two versions of a message can share a token only through a retry that ends at the update time of the version it was claimed from |
| OutboxHistory.GuardedTokensDistinct | service/internal/lifecycle/outbox_dispatcher.go:147-192 | in a guarded history all tokens differ |
| OutboxHistory.DistinctTokensGuarded | service/internal/lifecycle/outbox_dispatcher.go:147-192 | and a history with distinct tokens is guarded |
| OutboxHistory.LeaseNeverStolen | service/internal/store/memory.go:1088-1097 | claims of one message without a finish between them lie at least one full lease apart |
| OutboxHistory.AttemptCountMonotone | service/internal/lifecycle/outbox_dispatcher.go:79-90 | along a history the attempt count never falls and the effective limit never changes |
| OutboxSafety.MatchingTokens | service/internal/store/memory.go:1135-1147 | a stored record that shows the token of an earlier version of its message is that version, or a pending retry of it with one more attempt |
| OutboxSafety.CasComparesWholeRecords | service/internal/store/memory.go:1135-1147 | for a record that is not pending the three-field comparison succeeds exactly when the stored record equals the expected one in full |
| OutboxSafety.FinishCommits | service/internal/lifecycle/outbox_dispatcher.go:181-192 | a finish commits exactly when the leased record is still the stored one |
| OutboxSafety.StepKeepsInv | service/internal/lifecycle/outbox_dispatcher.go:53-192 | every step in which a committing claim goes forward and finds the listed record keeps histories sound and every dispatcher consistent with them |
| OutboxWhole.VersionsFollow | service/internal/lifecycle/outbox_dispatcher.go:79-192 | with whole comparisons every stored version follows from the one before it, field by field: a lease of ten minutes, a success, or a failure that is counted and retried after 1, 5, 15 or 60 minutes and at most a tenth more, or final at the limit the record sets, five if it sets none |
| OutboxWhole.CountFixesBody | service/internal/lifecycle/outbox_dispatcher.go:79-90 | attempt counts never fall along such a history, the limit never changes, and versions with the same count differ in their tokens only |
| OutboxWhole.WholeRecordsIffCounted | service/internal/store/memory.go:1135-1147 | in every run all compare-and-sets agree with a comparison of whole records if and only if each that succeeds finds the attempt count it expects |
| OutboxTheorems.WholeRecordsIffExact | service/internal/store/memory.go:1135-1147 | in a forward run that is so if and only if every committing claim finds the record it was listed with, or just its attempt count |
| OutboxTheorems.TokensNeverRecurIffGuarded | service/internal/lifecycle/outbox_dispatcher.go:147-192 | in a forward run no message shows a token twice if and only if every committed retry passed the guard |
| OutboxTheorems.GuardedRunIsExact | service/internal/lifecycle/outbox_dispatcher.go:147-192 | in a forward run guarded retries are enough for exact claims |
| OutboxTheorems.LaterHandlersSuffice | service/internal/lifecycle/outbox_dispatcher.go:68-90 | in a forward run whose committed handlers all end strictly after their claims, retries are guarded, tokens never recur and every compare-and-set compares whole records |
| OutboxLeases.StepKeepsInv | service/internal/lifecycle/outbox_dispatcher.go:53-192 | whatever the clocks show, every step keeps histories in which only a claim can be dated before the version it replaces, recoveries follow deadlines and finishes follow claims |
| OutboxLeases.ChronologicalIffForward | service/internal/lifecycle/outbox_dispatcher.go:147-179 | in every run versions are dated in order if and only if no committing claim reads a time before the update time of the record it replaces |
| OutboxLeases.LeasesKeptIffOver | service/internal/lifecycle/outbox_dispatcher.go:147-179 | in every run claims without a finish between them lie a full lease apart if and only if no committing claim on a record taken back from a lease reads a time before that lease's deadline |
| OutboxLeases.ActiveLeaseNeverStolen | service/internal/lifecycle/outbox_dispatcher.go:147-179 | in every forward run the later of two claims without a finish between them is not before the first deadline, which is ten minutes after the first claim |
| OutboxLeases.TerminalForever | service/internal/store/memory.go:1088-1097 | in every run a completed or dead-lettered record is never changed again |
| OutboxDisplaced.NeverRegainsIffFresh | service/internal/lifecycle/outbox_dispatcher.go:181-192 | in every run a dispatcher that has lost its lease never holds it again in that call if and only if no committing claim is dated like a lease that somebody still holds on its message |
| OutboxDisplaced.ForwardRunIsFresh | service/internal/lifecycle/outbox_dispatcher.go:147-179 | forward runs meet that condition |
| OutboxDisplaced.DisplacedFinishRejected | service/internal/lifecycle/outbox_dispatcher.go:181-192 | under it a dispatcher whose lease the store no longer shows never commits in that call: its finish fails and leaves messages, histories and job attempts unchanged |
| OutboxClocks.OneClockIsForward | service/internal/lifecycle/outbox_dispatcher.go:147-179 | when all read one clock that never goes back and producers do not date ahead of it, every claim goes forward |
| OutboxClocks.LeaseHandedOver | service/internal/lifecycle/outbox_dispatcher.go:147-192 | every message can be leased, taken back and leased by another dispatcher in a forward run while the first goes on to its finish |
| OutboxClocks.SlowClockStealsLease | service/internal/lifecycle/outbox_dispatcher.go:147-179 | for every reading before the deadline there is a run in which the lease is taken back and claimed again at that reading |
| OutboxClocks.BackwardClaimCanKeepLease | service/internal/lifecycle/outbox_dispatcher.go:147-179 | a claim backwards that is not before the deadline keeps all leases, so going forward is not necessary for them |
| OutboxClocks.RepeatedReadingHidesDisplacement | service/internal/lifecycle/outbox_dispatcher.go:181-192 | a claim dated like the first one lets the displaced dispatcher commit |
| OutboxAccounting.AttemptsAccounted | service/internal/lifecycle/outbox_dispatcher.go:79-113 | with whole comparisons the attempt count is the number of failed rows, rows never exceed the limit the created record sets, five if it sets none, dead letter holds exactly when failures reach it, completed exactly with one success |
| OutboxAccounting.AccountedIffWhole | service/internal/lifecycle/outbox_dispatcher.go:79-113 | in every run, whatever the clocks show, all of that holds throughout if and only if every compare-and-set compares whole records; the same for the attempt counts alone |
| OutboxAccounting.AccountedIffExact | service/internal/lifecycle/outbox_dispatcher.go:79-113 | in a forward run it holds throughout if and only if every committing claim finds the record it was listed with |
| OutboxAccounting.LaterHandlersAccount | service/internal/lifecycle/outbox_dispatcher.go:68-113 | in a forward run handlers that end strictly after their claims conserve every attempt |
| OutboxAccounting.RunOnceReturnsItsRows | service/internal/lifecycle/outbox_dispatcher.go:53-106 | in every run RunOnce returns exactly the number of rows it committed |
| OutboxLostAttempt.EqualInstantsLoseAnAttempt | service/internal/lifecycle/outbox_dispatcher.go:79-90 | for every message that may fail twice a forward run with a stale claim ends with two failed rows and one counted attempt |
| OutboxLostAttempt.LoneRetryIsHarmless | service/internal/lifecycle/outbox_dispatcher.go:79-90 | for every message that may fail twice a run with a retry that fails the guard, in which all claims are exact and the counts are right: the guard is not necessary |
| OutboxListing.ListDue | service/internal/store/memory.go:1047-1074 | the list holds exactly stored records that are pending and available or leased and expired, by that time, then creation time, then id, the first of them up to the limit |
| OutboxListing.LessTotal | service/internal/store/memory.go:1059-1069 | records with different ids are ordered one way |
| Common.StringLessIff | service/internal/store/memory.go:1059-1069 | ids compare by prefix and first differing character |
| OutboxDispatcher.MemoryTx.UpdateOutboxMessageIfCurrent | service/internal/store/memory.go:1135-1147 | not-found exactly for a missing record, invalid-transition exactly for another status, deadline or update time; no record appears, goes or changes but the named one, and that only on success |
| OutboxDispatcher.MemoryStore.CommitFinish | service/internal/store/memory.go:66-119 | record and job attempt are both written or neither is |
| OutboxDispatcher.Dispatcher.Others | service/internal/lifecycle/outbox_dispatcher.go:53-106 | any steps of other dispatchers and producers extend the run, and leave this dispatcher's place and the rows of its call as they are |
| OutboxDispatcher.Dispatcher.Claim | service/internal/lifecycle/outbox_dispatcher.go:147-179 | follows the protocol: takes back an expired lease if needed, then holds the lease or goes on; other statuses are passed over |
| OutboxDispatcher.Dispatcher.TakeBack | service/internal/lifecycle/outbox_dispatcher.go:153-166 | the recovery write is the protocol step and stores the record as pending, without a deadline, at the reading |
| OutboxDispatcher.Dispatcher.TakeLease | service/internal/lifecycle/outbox_dispatcher.go:167-178 | the claim write is the protocol step and stores the record as leased for ten minutes from the reading |
| OutboxDispatcher.Dispatcher.ProcessNext | service/internal/lifecycle/outbox_dispatcher.go:59-103 | whatever the others do meanwhile, one turn adds this call's next row when it commits and none otherwise |
| OutboxDispatcher.Dispatcher.CommitOutcome | service/internal/lifecycle/outbox_dispatcher.go:76-103 | the outcome is committed as one protocol step, with record and job attempt given field by field, or the run stops with the error |
| OutboxDispatcher.Dispatcher.RunOnce | service/internal/lifecycle/outbox_dispatcher.go:53-106 | whatever the others do between its steps, performs its part of a run of the protocol and returns with exactly the rows it counted |
| AuditHex.AuditHashIsDecodeEncode | service/internal/store/audit_hash.go:206-212 | a string passes the check exactly when decoding and encoding give it back and it stands for 32 bytes, that is, for 64 lower-case hex digits |
| AuditHex.DecodeEncode | service/internal/store/audit_hash.go:206-212 | decoding undoes encoding |
| AuditHex.DigestIsAuditHash | service/internal/store/audit_hash.go:43-67 | every printed digest passes the check |
| AuditHex.EncodeInjective | service/internal/store/audit_hash.go:43-67 | different digests print differently |
| AuditChain.VerifyEvents | service/internal/store/audit_hash.go:104-174 | reports the first fault, or none, of the linked chain |
| AuditChain.ChainFaultIff | service/internal/store/audit_hash.go:104-174 | no fault is found exactly behind a good checkpoint in chains whose every event has the next number, the algorithm, the previous hash and the SHA-256 of that hash and its own encoded fields |
| AuditChain.FaultNamesFirstBreak | service/internal/store/audit_hash.go:104-174 | the fault that is reported names what is wrong with the first event that breaks the chain |
| AuditChain.CheckpointFaultNames | service/internal/store/audit_hash.go:104-174 | each checkpoint fault is reported exactly for the checkpoints it names |
| AuditChain.VerifyState | service/internal/store/audit_hash.go:176-197 | reports the fault of events and state together |
| AuditChain.StateFaultIff | service/internal/store/audit_hash.go:176-197 | no fault is found exactly when the chain is linked and ends at the latest number and hash |
| AuditChain.ConcatenationUnambiguous | service/internal/store/audit_hash.go:43-67 | previous hash followed by payload can be split in one way only |
| AuditChain.SameHashSameEvent | service/internal/store/audit_hash.go:43-67 | equal hashes mean equal events, metadata in canonical form, behind equal previous hashes |
| AuditChain.AgreeBackwards | service/internal/store/audit_hash.go:104-174 | two chains that end in the same hash agree on every field backwards from the end |
| AuditChain.TamperEvident | service/internal/store/audit_hash.go:104-197 | two lists that verify against one state have equal length and agree everywhere on every field, on the metadata in canonical form |
| AuditLog.CountRetentionPrefix | service/internal/store/memory.go:2269-2283 | the loop returns the length of the old prefix, or -1 when an old event follows a newer one |
| AuditLog.RetentionPrefixIff | service/internal/store/memory.go:2269-2283 | the length k exactly when the old events are the first k, -1 exactly when some old event follows a newer one |
| AuditLog.AppendAllOrNothing | service/internal/store/memory.go:2223-2241 | accepted exactly for sound logs, canonical metadata and a number that does not run over; refused changes nothing, accepted leaves a sound log with the event as given but for the next number, the algorithm, the previous hash and its own hash |
| AuditLog.PruneAllOrNothing | service/internal/store/memory.go:2243-2267 | either refused and unchanged, or exactly the old prefix dropped, its last event the checkpoint and the log sound |
| AuditLog.PruneLeavesDamageIff | service/internal/store/memory.go:2243-2267 | a failed prune has changed the log if and only if the log was sound and the last dropped number is not positive |
| AuditLog.PruneCanLeaveDamage | service/internal/store/memory.go:2243-2267 | a concrete log for which that happens |
| AuditLog.MemoryAuditLog.CreateAuditEvent | service/internal/store/memory.go:2223-2241 | the object ends with the event appended as above, or unchanged |
| AuditLog.MemoryAuditLog.DeleteAuditEventsBefore | service/internal/store/memory.go:2243-2267 | the object ends in the state the prune gives |
| AuditRuns.RetainedIsSuffix | service/internal/store/memory.go:2223-2283 | after any appends and prunes from empty, the events are a suffix of the unpruned log, the checkpoint is the last dropped event, and verification succeeds |
| AuditRuns.NumbersNeverReused | service/internal/store/memory.go:2223-2241 | an accepted append takes a number above all numbers ever given out |
| AuditRuns.RunsHavePositiveNumbers | service/internal/store/memory.go:2223-2283 | every reachable log has positive numbers, so every prune is all-or-nothing |
| AuditRuns.PruneCommutesWithAppend | service/internal/store/memory.go:2223-2283 | pruning commutes with appending any event created at or after the cutoff, accepted or refused, with the same answers |
| AuditRuns.PruneTwice | service/internal/store/memory.go:2243-2267 | an earlier prune does not change what an accepted later one gives |
| AuditSql.ListBySequence | service/internal/store/sqlstore_audit.go:289-311 | the listing holds exactly the rows, in sequence order |
| AuditSql.ListingUnique | service/internal/store/sqlstore_audit.go:289-311 | a strictly numbered table has one listing |
| AuditSql.SoundListingIsStrict | service/internal/store/sqlstore_audit.go:239-259 | a listing that verifies is strictly numbered |
| AuditSql.DeleteThroughDropsPrefix | service/internal/store/sqlstore_audit.go:200-237 | deleting rows up to the last dropped number removes exactly the retention prefix, so the row count cannot disagree |
| AuditSql.SqlAuditStore.CreateAuditEvent | service/internal/store/sqlstore_audit.go:49-91 | one new row holds the event as given but for its place in the chain, and the state row follows; or nothing changes |
| AuditSql.SqlAuditStore.DeleteAuditEventsBefore | service/internal/store/sqlstore_audit.go:200-237 | exactly the rows up to the last dropped event go, that event becomes the checkpoint of the state row; or nothing changes; the row-count error cannot occur |
| AuditSqlRuns.SelectSeesMemoryLog | service/internal/store/sqlstore_audit.go:239-259 | what the SELECT returns is the memory log whenever that log is sound |
| AuditSqlRuns.CallSimulatesMemory | service/internal/store/sqlstore_audit.go:49-91 | from tables that hold a memory log a call answers as memory does if and only if it is not an append of a stored id that memory accepts; the tables then hold the log memory reaches, unless a failed prune damaged the memory log |
| AuditSqlRuns.SqlRefinesMemory | service/internal/store/sqlstore_audit.go:49-91 | from empty tables every call of a run is answered as memory does if and only if no call repeats a stored id; then the tables hold the memory log after every call |
| AuditSqlRuns.NewIdsRefine | service/internal/store/sqlstore_audit.go:200-237 | with new ids the two stores agree on every run of appends and prunes |
| AuditSqlRuns.SecondAppendIsRefused | service/internal/store/sqlstore_audit.go:49-91 | appending one event twice: memory accepts both, the table only the first |
| AuditSqlRuns.AppendTwice | service/internal/store/sqlstore_audit.go:49-91 | two calls on a new store that make such a run |
| JsonReader.ReadsDocument | src/cli/main.cpp:51-85 | every text of the grammar, with any whitespace, is read whole as its meaning |
| JsonAccepts.SplitDocument | src/cli/main.cpp:51-85 | every text that is read is a text of the grammar |
| JsonAccepts.AcceptsExactlyDocuments | src/cli/main.cpp:51-85 | a text is read as a map exactly when it is a text of the grammar with that last-wins meaning |
| JsonAccepts.DocumentsUnambiguous | src/cli/main.cpp:51-85 | texts with the same characters have the same meaning |
| JsonReader.ReadsInteger | src/cli/main.cpp:206-238 | a digit run with an optional minus is read as its value |
| JsonAccepts.SplitNumber | src/cli/main.cpp:206-238 | whatever is read as an integer is a digit run with that value inside int64 |
| JsonParser.PushDigit | src/cli/main.cpp:222-231 | one digit is added in 64 bits without overflow, or refused because the value would pass the limit |
| JsonParser.TooLarge | src/cli/main.cpp:222-231 | refusing at a digit is never wrong: any longer run is outside int64 |
| JsonParser.Fits | src/cli/main.cpp:218-238 | a run that was never refused is inside int64 |
| JsonParser.JsonParser.ParseObject | src/cli/main.cpp:51-85 | returns the map of the whole text or fails, as the reader does |
| JsonParser.JsonParser.ParseMembers | src/cli/main.cpp:66-77 | the member loop ends where the reader ends, with the last value of each key |
| JsonParser.JsonParser.ParseValue | src/cli/main.cpp:120-171 | reads one value and stops behind it |
| JsonParser.JsonParser.ConsumeLiteral | src/cli/main.cpp:173-181 | moves past the literal exactly when it is there |
| JsonParser.JsonParser.ParseStringArray | src/cli/main.cpp:183-204 | reads an array of strings and stops behind it |
| JsonParser.JsonParser.ParseInteger | src/cli/main.cpp:206-238 | the exact value of the digit run, failing exactly when it is outside int64 |
| JsonReader.EscapesAre | src/cli/main.cpp:262-286 | a backslash is followed by one of five letters, each with its meaning, and refused before any other |
| JsonReader.PlainCharactersAre | src/cli/main.cpp:245-260 | any other character stands for itself up to the closing quote |
| JsonParser.JsonParser.ParseString | src/cli/main.cpp:240-290 | reads one string literal and stops behind it |
| JsonParser.JsonParser.SkipWhitespace | src/cli/main.cpp:88-99 | moves past all whitespace and nothing else |
| JsonParser.JsonParser.Consume | src/cli/main.cpp:101-110 | skips whitespace and moves past the expected character exactly when it is next |
| JsonPrinter.JsonEscape | src/cli/main.cpp:328-357 | the loop writes the pieces of the value |
| JsonPrinter.PiecesOfMeans | src/cli/main.cpp:328-357 | the escaped text is a legal literal that means the value |
| JsonPrinter.JsonString | src/cli/main.cpp:359-362 | the quoted literal of the value |
| JsonPrinter.JsonStringArray | src/cli/main.cpp:364-376 | the loop writes the literals between brackets, separated by commas |
| JsonPrinter.PrintedReadsBack | src/cli/main.cpp:328-376 | any keys and values printed with any whitespace are read back whole, the last value of a key winning |
| JsonPrinter.FlatObjectReadsBack | src/cli/main.cpp:584-601 | any object printed without whitespace is read back as its fields |
| JsonResults.CsrInfoToJson | src/cli/main.cpp:584-591 | the printed CSR information is read back as exactly its seven fields |
| JsonResults.IssueResultToJson | src/cli/main.cpp:593-596 | the printed issue result is read back as exactly its five fields |
| JsonResults.CrlResultToJson | src/cli/main.cpp:598-601 | the printed CRL result is read back as exactly its field |
| JsonResults.BackendInfoToJson | src/cli/main.cpp:637-658 | the printed backend information is read back as exactly its eleven fields |
| NonceStores.EvictsOldestIff | service/internal/httpapi/acme.go:820-832 | every visiting order evicts an oldest entry exactly when the empty name is not the single oldest of several |
| NonceStores.EmptyNameOutlivesNewer | service/internal/httpapi/acme.go:820-832 | two entries and an order for which the newer one is evicted |
| NonceStores.MemoryNonceStore.FindOldest | service/internal/httpapi/acme.go:822-829 | returns a stored nonce, the oldest under that condition |
| NonceStores.MemoryNonceStore.EvictOldest | service/internal/httpapi/acme.go:820-832 | ends with at most the target size, dropping only entries at least as old as those kept |
| NonceStores.MemoryNonceStore.RemoveExpired | service/internal/httpapi/acme.go:812-818 | keeps exactly the entries that expire later |
| NonceStores.MemoryNonceStore.Issue | service/internal/httpapi/acme.go:786-796 | live entries, evicted to one below the size, plus the new nonce |
| NonceStores.MemoryNonceStore.Consume | service/internal/httpapi/acme.go:798-810 | accepts exactly a live stored nonce and removes it |
| NonceStores.SqlNonceStore.Issue | service/internal/httpapi/nonce_sql.go:28-41 | refused exactly when an unexpired row has the nonce; every other row stays exactly while it is unexpired, and the nonce then holds the new times or keeps the old ones |
| NonceStores.SqlNonceStore.Consume | service/internal/httpapi/nonce_sql.go:43-57 | one row is deleted exactly when the nonce is stored and unexpired |
| NonceTheorems.CacheBounded | service/internal/httpapi/acme.go:786-832 | the cache never holds more than its size |
| NonceTheorems.CacheAcceptsOncePerIssue | service/internal/httpapi/acme.go:786-810 | between two acceptances of a nonce it has been issued again |
| NonceTheorems.CacheAcceptsOnce | service/internal/httpapi/acme.go:786-810 | with fresh nonces each is accepted at most once |
| NonceTheorems.TableAcceptsOnce | service/internal/httpapi/nonce_sql.go:28-57 | the same for the table |
| NonceTheorems.CacheWithinTable | service/internal/httpapi/acme.go:786-832 | every cached entry is a row of the table |
| NonceTheorems.CacheAcceptsOnlyWhatTableAccepts | service/internal/httpapi/nonce_sql.go:43-57 | what the cache accepts, the table accepts |
| NonceTheorems.UnfilledCacheAgrees | service/internal/httpapi/nonce_sql.go:28-57 | with non-decreasing times and fresh nonces both stores give the same answers to Consume, and the table too accepts every Issue, while each Issue finds fewer live nonces than the size |
| NonceTheorems.Survives | service/internal/httpapi/acme.go:786-832 | with increasing issue times a nonce neither consumed nor expired survives the next size minus one Issues |
| NonceTheorems.FullCacheDropsOldest | service/internal/httpapi/acme.go:820-832 | and no more: an Issue that finds the cache full drops the oldest |
| RateLimiter.Limiter.constructor | service/internal/httpapi/server.go:158-163 | limit and window are those configured, or 120 per minute |
| RateLimiter.Limiter.CheckRateLimit | service/internal/httpapi/server.go:1360-1380 | in an open window accepts exactly while there is room, counting only what it accepts; otherwise opens a new window at the request; no other key is touched |
| RateLimiter.AtMostTwiceTheLimit | service/internal/httpapi/server.go:1360-1380 | no half-open interval of one window length holds more than twice the limit minus one accepted requests of a key |
| RateLimiter.RejectedOnlyWhenFull | service/internal/httpapi/server.go:1371-1375 | a rejected request falls in a window in which exactly the limit was already accepted |
| RateLimiter.BoundIsReached | service/internal/httpapi/server.go:1360-1380 | for every limit and every window of at least two instants some run reaches the bound |
| RateLimiter.OneInstantHoldsTheLimit | service/internal/httpapi/server.go:1360-1380 | a window of one instant never holds more than the limit |
| CaaResponse.SkipDnsName | service/internal/lifecycle/caa.go:164-185 | ends where the labels or the pointer end, or fails inside the message |
| DnsWire.SkipsName | service/internal/lifecycle/caa.go:164-185 | every well-formed name is skipped to its end |
| DnsWire.SplitName | service/internal/lifecycle/caa.go:164-185 | whatever is skipped is a well-formed name |
| DnsWire.RecordInIff | service/internal/lifecycle/caa.go:146-156 | an answer gives a record exactly when it is a class-IN CAA answer whose data spells that record |
| CaaResponse.ParseCaaResponse | service/internal/lifecycle/caa.go:99-162 | the loops compute the parse of the whole message, error cases included |
| CaaResponse.ParseAnswers | service/internal/lifecycle/caa.go:133-160 | the answer loop collects the records in answer order |
| CaaResponse.ParseQuestions | service/internal/lifecycle/caa.go:122-131 | the question loop ends behind the questions or fails |
| CaaResponse.ParsesExactlyMessages | service/internal/lifecycle/caa.go:99-162 | with response code 0 parsing succeeds exactly on well-formed messages and returns their class-IN CAA records in order |
| CaaResponse.OutcomeMeans | service/internal/lifecycle/caa.go:99-162 | a name is found exactly with a bogus status or a record; bogus exactly for code 2, secure exactly for the authenticated-data bit of byte 3 otherwise, never found for code 3, any other code but 0 an error; wrong id or short message refused |
| CaaLookup.BuildCaaQuery | service/internal/lifecycle/caa.go:77-97 | succeeds exactly when every label of the name, less one dot at its end, has 1 to 63 bytes |
| CaaLookup.QueryBytes | service/internal/lifecycle/caa.go:77-97 | the query is the id, recursion desired, one question, the labels, type 257 and class 1, byte for byte |
| CaaLookup.LabelsStandInOrder | service/internal/lifecycle/caa.go:87-94 | every label stands behind its length, right after the one before it |
| CaaLookup.AsksForTheName | service/internal/lifecycle/caa.go:34-36 | a name is asked for as written, with or without one dot behind it |
| CaaLookup.QueryNameEndsAtTypeAndClass | service/internal/lifecycle/caa.go:77-97 | skipping the name at offset 12 lands on the type and class fields, which end the query |
| CaaLookup.QueryDeterminesName | service/internal/lifecycle/caa.go:77-97 | equal queries ask for the same name, up to one dot at its end |
| CaaLookup.JoinSplit | service/internal/lifecycle/caa.go:87-94 | the labels joined by dots are the name |
| CaaLookup.LabelsHaveNoDot | service/internal/lifecycle/caa.go:87-94 | and none of them holds a dot |
| CaaLookup.LookupCaa | service/internal/lifecycle/caa.go:34-51 | the loop computes the climb from the name, less one dot at its end, with at most one lookup per label |
| CaaLookup.ClimbsToLongest | service/internal/lifecycle/caa.go:34-51 | the answer is that of the longest suffix found or failing, after only not-found answers for longer ones, or else of the last |
| CaaLookup.FirstSuffix | service/internal/lifecycle/caa.go:35-36 | the climb starts at the name itself |
| WebhookHandler.EndpointMatches | service/internal/lifecycle/webhook_handler.go:146-159 | active webhooks that list the event type, or list none |
| WebhookHandler.Handler.HandleOutboxMessage | service/internal/lifecycle/webhook_handler.go:49-93 | deliveries, posts and error end as the run over the endpoint list gives; only active webhooks that take the event type are posted to, and nobody when the payload does not decode |
| WebhookHandler.Handler.RecordDelivery | service/internal/lifecycle/webhook_handler.go:95-111 | the delivery read back has the new status, error and time, one more attempt and its first creation time; deliveries under other keys are as before |
| WebhookTheorems.KeysCollideIff | service/internal/store/memory.go:2150-2152 | deliveries of two messages can share a key exactly when one id followed by a NUL starts the other |
| WebhookTheorems.KeyUnambiguous | service/internal/store/memory.go:2142-2152 | a key names one delivery unless the message ids collide |
| WebhookTheorems.NoNulNoCollision | service/internal/store/memory.go:2150-2152 | ids without NULs never collide |
| WebhookTheorems.CollidingIdsMiscount | service/internal/store/memory.go:2142-2152 | for any two ids that collide, two runs leave a delivery counted once that was never posted |
| WebhookTheorems.CallsKeepInv | service/internal/lifecycle/webhook_handler.go:49-111 | any number of runs for any messages keep order and counts of every message whose id collides with none of the others |
| WebhookTheorems.SucceededIsPrefix | service/internal/lifecycle/webhook_handler.go:72-91 | the endpoints that succeeded are a prefix of the matching ones |
| WebhookTheorems.PostsAccounted | service/internal/lifecycle/webhook_handler.go:72-111 | the attempt count is the number of posts and at most one of them was accepted |
| WebhookTheorems.SuccessIffAllAccepted | service/internal/lifecycle/webhook_handler.go:49-93 | success is returned exactly when the payload decodes and every matching endpoint has accepted once |
| StoreUniqueness.ActiveResponderByIssuer | service/internal/store/memory.go:1925-1941 | finds an active responder of the issuer exactly when there is one, the latest by creation time and id |
| StoreUniqueness.NumberAvailable | service/internal/store/memory.go:1897-1907 | whether no other publication has the number at the same issuer and distribution point |
| StoreUniqueness.ThumbprintAvailable | service/internal/store/memory.go:2178-2188 | whether no other account has the non-empty thumbprint |
| StoreUniqueness.MemoryTables.CreateOcspResponder | service/internal/store/memory.go:181-192 | refuses a second active responder of an issuer, otherwise stores it |
| StoreUniqueness.MemoryTables.UpdateOcspResponderIfStatus | service/internal/store/memory.go:1004-1019 | looking at the latest active responder refuses exactly when another one is active |
| StoreUniqueness.MemoryTables.CreateCrlPublication | service/internal/store/memory.go:459-468 | refuses exactly a number taken at the same issuer and distribution point, otherwise stores the publication and nothing else |
| StoreUniqueness.MemoryTables.CreateAcmeAccount | service/internal/store/memory.go:677-686 | refuses a taken thumbprint, otherwise stores the account |
| StoreUniqueness.MemoryTables.UpdateAcmeAccountIfStatus | service/internal/store/memory.go:1191-1204 | checks existence, status and thumbprint before it stores |
| StoreUniqueness.MemoryTables.WithinTx | service/internal/store/memory.go:66-119 | a transaction works on a copy that replaces the tables only without an error |
| StoreUniqueness.ApplyKeepsValid | service/internal/store/memory.go:1004-1019 | every mutator keeps all three uniqueness rules |
| StoreUniqueness.AlwaysValid | service/internal/store/memory.go:66-119 | in every reachable state each issuer has one active responder at most, CRL numbers are unique per issuer and distribution point, non-empty thumbprints differ |
| StoreUniqueness.AlwaysValidInside | service/internal/store/memory.go:66-119 | the same in every state a transaction sees |

## Left out

- OutboxDispatcher.Dispatcher.RunOnce: the number of the call and the ids of its job-attempt rows are parameters that nobody else uses, as the id generator promises.
- OutboxLeases.ActiveLeaseNeverStolen: within one call a dispatcher's clock does not go back, as Go's monotonic readings promise; a clock that is set back in the middle of a call is not modelled.
- OutboxModel.RetryDelay: the 32-bit FNV sum of message id and attempt count is a parameter, so the theorems hold for every jitter.
- Manual retry and dead-letter replay change outbox records outside the dispatcher and are not steps of the protocol, so the run theorems speak of dispatcher and producer steps only.
- Context cancellation and store errors other than not-found and invalid-transition.
- SHA-256 and the JSON encoding of audit payloads are parameters; `AuditChain.TamperEvident` asks for no collision among the inputs the two lists hash, not for global injectivity.
- AuditSql.SqlAuditStore.CreateAuditEvent: every SQL statement is one atomic operation on rows; drivers, time formatting and isolation levels are not modelled.
- Paged and filtered audit queries, and integrity report texts beyond which fault was found.
- Reading and writing files, command dispatch, request validation and the nested OCSP printer of the CLI, which the flat parser does not read back.
- JsonParser.JsonParser.ParseObject: exceptions are a None result; characters are code points, with no distinction between bytes and UTF-8.
- NonceTheorems.Survives: nonces are not the empty string, as every nonce the server draws has 43 characters; `NonceStores.EvictsOldestIff` says what the empty string would change.
- Mutexes of the nonce cache and the limiter: each call is atomic. The negative eviction target of a size below one is excluded by the constructor's requirement.
- RateLimiter.AtMostTwiceTheLimit: requests reach the buckets in clock order, although the clock is read before the lock is taken; which endpoints are limited and how a request maps to its key is left out.
- CaaLookup.LookupCaa: the network exchange is a function from names to outcomes; white space around the name is not trimmed.
- WebhookHandler.Handler.HandleOutboxMessage: HTTP, signatures and store errors are left out; a post fails or succeeds, and each run of a message ends before the next begins.
- WebhookTheorems.SucceededIsPrefix: the endpoint list stays the same over all runs and its ids differ.
- Issuance attempts, CRL generation claims, ACME orders and authorizations, API keys, certificates and profiles: further compare-and-set tables of the same shape as those modelled.
- HTTP routing, authentication, metrics, the C++ crypto back ends and process handling.
