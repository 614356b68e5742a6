# Verification of Lithograph

A Dafny model of the parts of Lithograph whose correctness is not visible in any one function, with proofs over every input and every run. `dafny verify dfyconfig.toml` checks all of it.

Lithograph is a SQLite extension with a Cypher front end and an embedding provider. Seven components are modelled.

| Component | Files | What is proved |
|---|---|---|
| Connection and transaction protocol | `Sqlite`, `Connection`, `Execution`, `Protocol` | SQLite is an object that may refuse, or roll back under, any statement, and the host may interrupt at any moment. Over every run: guards exclude each other, an execution can end only its own explicit transaction, failures end closed or quarantined, `with_savepoint` is always all-or-nothing exactly outside a host transaction, and a scalar write, prepared, run and dropped, inherits that. |
| Embedding cache and client | `Http`, `Cache`, `CacheKey`, `Embedding` | Cached embedding under a configuration equals direct embedding under it; in every state of every interleaving of clients the byte counter is exact and every row that passes validation holds the right vector; eviction drops the shortest oldest-first prefix; responses are placed by index whatever their order, batching and retries. |
| Calendar and temporal text | `Texts`, `Calendar`, `Temporal`, `TemporalLaws` | The calendar functions are mutual inverses and strictly monotone on all integers; printing and parsing are inverse, and what each digit of a date, clock or offset denotes; the exact set of rebuildable dates. |
| Tagged JSON codec | `Checkpoint`, `Utf8`, `Values`, `Json`, `JsonLaws`, `JsonWire`, `JsonChecked`, `JsonEncoding` | Every value is written in its literal wire form and read back from it at any nesting, and whatever is accepted was read by the literal names; filtering while encoding is deleting first, and two values encode alike exactly when they differ in denied properties only; checked decoding and checked encoding are the plain ones cut off at the callback's first error. |
| Query composition | `Compose`, `ComposeLaws` | Both UNION/NEXT loops compute one declarative segment fold; NEXT is sequential composition over the scope its last operand returns, and a CALL body differs from the query by what it imports only. |
| Streaming cursor and preflight | `Rows`, `Preflight` | Every run of a cursor shows a prefix of the one stream its rows prescribe, its rows are those of the scalar path with every denied property deleted, and a failed step ends the transaction it ran in; the lexical scan prices every JSON tree under every white-space layout exactly. |
| Small lexers | `Fts5`, `Interpolation`, `InterpolationBytes` | Parsing what was printed returns it; fragments are ordered, disjoint slices; scanning bytes finds what scanning characters finds and never cuts inside a character. |

Code that changes state step by step is modelled by classes and loops (`Connection`, `AdapterExecution`, `CacheFile`, `RowsCursor`, and the loop methods of `Http`, `Utf8`, `Compose`, `Preflight`, `Fts5`, `InterpolationBytes`), each method tied to a predicate over the values before and after or to a function of its input. The results over whole runs are lemmas about those predicates and functions.

## Findings

- `scalar.rs:156-166`: a healthy connection with an explicit-transaction record has its transaction open in every run, except after a statement no fail-closed path watches: `lithograph_version`, or the host's own SQL, answered by SQLite with a full rollback. `Protocol.RecordOpenThroughoutIff` proves that this is the only exception and `Protocol.VersionCanLoseTransaction` exhibits it.
- `transaction.rs:116-120` and `transaction.rs:11-33`: a call refused at the boundary (begin with a record present, commit or abort while readers or a side effect are live, prepare while a side effect is live) leaves the record and the transaction as they were. "Every failure closes the transaction" holds for exactly the other failures (`Protocol.FailureEndsClosed`, predicate `Refused`); `Protocol.RefusedCommitKeepsTransaction` is a run that reaches a refusal.
- `lib.rs:1001-1007`: in `with_savepoint`, the cleanup guard or the statement that opens the savepoint may itself be answered with a rollback of the host's transaction. Every failure that leaves the connection healthy is all-or-nothing if and only if the call starts in autocommit, or is refused for its readers, or the connection is quarantined already (`Connections.AllOrNothingIff`); `Connections.OpeningCanLoseTransaction` exhibits a call in a host transaction that is not.
- `scalar.rs:84-92`: a malformed scalar call under an open cursor rolls the transaction back beneath a live execution. The orphan still holds its guard, so no new explicit transaction can begin until it ends (`Protocol.LiveExecutionBlocksBegin`).
- `temporal.rs:441-448`: dates of the years -999 to -1 parse and print but cannot be rebuilt from their day number, since `format_date_from_days` does not zero-pad negative years (`Temporal.DateFromDaysIff`, `Temporal.DateFromDaysGap`). Local and zoned date-times inherit the gap.
- `budget.rs:119-137`: the preflight scan charges every byte of a text once, and one byte more if and only if the text stops right after a backslash inside a string (`Preflight.ChargeOfAnyText`). A quote and a backslash are charged as three bytes (`Preflight.LoneBackslashOvercharged`); JSON texts never end so (`Preflight.TreesAreChargedExactly`).

The paths are those of the rows below: `scalar.rs`, `transaction.rs`, `lib.rs` and `budget.rs` under `crates/lithograph-extension/src`, `temporal.rs` under `crates/lithograph-core/src/cypher`.

## Conventions and assumptions

- Integers are unbounded; 64-bit saturation, overflow checks and truncating division are written out. `Calendar.CivilArithmeticFits` bounds the intermediate values of the calendar arithmetic.
- The host issues no BEGIN, COMMIT or ROLLBACK of its own while an explicit-transaction record is present. Other connections commit only while this one is in autocommit.
- The query engine behind `QueryCursor` is a contract (`Executions.CursorEffect`, and the rows of `Rows.Execution`, which drives an `AdapterExecution`): readers change nothing, writers stage and end an explicit transaction, or one in which others hold a savepoint, only by failing, cancelling commits nothing, batches deliver the result's rows in order and are not empty forever. Drivers call `next_batch` and `complete` only on executions that are not terminal.
- Savepoint names tell who opened them: the host uses none of the names that invocations and the query engine generate (`Sqlite.Name`).
- BLAKE3 is injective on the byte strings used. Other clients of a cache file run transactions of this same provider (`EmbedPipeline.Honest`); damage touches neither ids, keys nor the accounting columns and never makes a row pass for another text's vector.
- A JSON object and a Cypher map are the list of their entries in key order, as the source's ordered maps iterate them; the laws do not depend on the order.
- A 64-bit float is a real number, a signed zero, an infinity or the one NaN. Narrowing to 32 bits, integer-to-float conversion, longitude wrapping, the zone database and the duration parser are parameters. The database is read by instant and by local time; the two readings agree (`Temporal.Consistent`).

## Model

| member | source | states |
|---|---|---|
| Sqlite.AnswersKeepValid | crates/lithograph-extension/src/lib.rs:997-1072 | Whatever SQLite answers to a statement (effect, refusal, refusal with full rollback), autocommit still means no staged work and no savepoint. |
| Connections.Connection.Recover | crates/lithograph-extension/src/interrupt_cleanup.rs:77-119 | Without an interrupt nothing changes; with one, the whole transaction is discarded and the record cleared, or the connection is quarantined and nothing was committed. |
| Connections.Connection.RollbackExplicit | crates/lithograph-extension/src/transaction.rs:450-465 | Success leaves the committed state, autocommit and no record; failure quarantines. |
| Connections.Connection.FailClosed | crates/lithograph-extension/src/transaction.rs:436-448 | Either closed or given up, for every SQLite answer. |
| Connections.Connection.FailClosedSqlTransaction | crates/lithograph-extension/src/transaction.rs:177-187 | Without a record nothing happens; with one, closed or given up. |
| Connections.Connection.AbortActive | crates/lithograph-extension/src/transaction.rs:189-196 | Same exits; an error means quarantine. |
| Connections.Connection.BeginState | crates/lithograph-extension/src/transaction.rs:61-92 | The record holds the chosen Branch and its head at that moment, the expected head was met; a failure leaves no record. |
| Connections.Connection.TxBegin | crates/lithograph-extension/src/transaction.rs:11-59 | Success only from an idle, healthy, autocommitting connection, with exactly the transaction opened and recorded on the named Branch; from there it always succeeds when the head is as expected, the result fits and SQLite accepts the statements; every failure leaves the state alone or closed or quarantined. |
| Connections.Connection.FinalizeExplicit | crates/lithograph-extension/src/transaction.rs:234-297 | Succeeds exactly when the Branch is there and, in an unmutated transaction, at its base, unless SQLite refuses; a failure commits nothing. |
| Connections.Connection.TxCommit | crates/lithograph-extension/src/transaction.rs:116-151 | The returned head is the committed head of the Branch, the record is gone and the result fitted; past the boundary it always succeeds when the result fits, the Branch stands at its base and SQLite accepts the statements; boundary refusals change nothing, other failures end closed. |
| Connections.Connection.TxAbort | crates/lithograph-extension/src/transaction.rs:153-175 | Success restores the committed state and clears the record, and is certain past the boundary unless SQLite refuses or the host interrupts; failure quarantines; refusals change nothing, each with its own error. |
| Connections.SavepointUndone | crates/lithograph-extension/src/lib.rs:1032-1072 | ROLLBACK TO then RELEASE inverts SAVEPOINT, whatever was staged and nested between. |
| Connections.ReleaseKeeps | crates/lithograph-extension/src/lib.rs:997-1030 | RELEASE keeps exactly the staged state, and commits it when the savepoint was outermost. |
| Connections.Connection.RollbackSavepoint | crates/lithograph-extension/src/lib.rs:1032-1072 | Success undoes exactly the savepoint, or the whole transaction after an interrupt; failure quarantines; RELEASE never follows a refused ROLLBACK TO. |
| Connections.Connection.UndoSavepoint | crates/lithograph-extension/src/lib.rs:1036-1071 | ROLLBACK TO and RELEASE undo the savepoint, which succeeds if it is there and SQLite accepts both; otherwise quarantine with nothing committed. |
| Connections.Connection.WithSavepoint | crates/lithograph-extension/src/lib.rs:997-1030 | Ok keeps exactly the operation's effect; Err gives the connection up or leaves the entry state, or the rolled-back state after an interrupt, unless the transaction was lost at the opening. The operation may give up a side-effect guard, quarantine, or lose the transaction; no RELEASE after a refused ROLLBACK TO. |
| Connections.AllOrNothingIff | crates/lithograph-extension/src/lib.rs:997-1030 | From a given state, every failure that leaves the connection healthy is all-or-nothing if and only if that state is in autocommit, has readers or is quarantined. |
| Connections.OpeningCanLoseTransaction | crates/lithograph-extension/src/lib.rs:1001-1007 | A call in which the opening statement is answered with a rollback and staged host work is gone on a healthy connection. |
| Connections.CleanupIsAllOrNothing | crates/lithograph-extension/src/lib.rs:1009-1030 | Whatever the operation did and however RELEASE was refused, cleanup leaves the entry state but for a guard given up, or the closed state after an interrupt, or a quarantined connection. |
| Connections.Connection.OpenInvocation | crates/lithograph-extension/src/lib.rs:1001-1007 | Success opens exactly the savepoint; a failure leaves the database alone or rolled back and records which. |
| Connections.Connection.CloseInvocation | crates/lithograph-extension/src/lib.rs:1009-1030 | RELEASE after a success; everything else ends in the savepoint undone, the transaction closed after an interrupt, or quarantine. |
| Connections.Connection.Version | crates/lithograph-extension/src/scalar.rs:156-166 | Reads in the open transaction and never touches the record, even when SQLite rolls the transaction back. |
| Executions.AdapterExecution.Prepare | crates/lithograph-extension/src/execution.rs:16-42 | A prepared execution holds the read guard for a plan without side effects and else the side-effect guard, and remembers its transaction; inside one only plain writes and reads are prepared; a sound query is refused only by SQLite; a failure inside a transaction ends closed. |
| Executions.AdapterExecution.PrepareAdapter | crates/lithograph-extension/src/execution.rs:210-348 | Guards acquired on a path that later fails are given back. |
| Executions.AdapterExecution.AcquireGuards | crates/lithograph-extension/src/execution.rs:336-348 | One guard of the kind asked for, or none; refused only for readers, an old format or by SQLite. |
| Executions.AdapterExecution.RecoverInterrupt | crates/lithograph-extension/src/execution.rs:162-191 | Acts only for executions that own cleanup; then guards are dropped, the execution is terminal and the transaction closed or given up. |
| Executions.AdapterExecution.NextBatch | crates/lithograph-extension/src/execution.rs:76-100 | Succeeds exactly when the engine does, and then changes only what the cursor stages; a failure of an explicit execution is terminal and closes its transaction. |
| Executions.AdapterExecution.Complete | crates/lithograph-extension/src/execution.rs:126-160 | Success releases both guards and marks the transaction mutated exactly for mutating explicit executions; failure as for a batch. |
| Executions.AdapterExecution.Cancel | crates/lithograph-extension/src/execution.rs:102-124 | Terminal, guards released, transaction of a live explicit execution closed or given up; a terminal execution changes only its read guard. |
| Executions.ExitIsFailedCall | crates/lithograph-extension/src/execution.rs:76-207 | Each of the three ways out of a failing cursor call meets the one failure contract. |
| Executions.CancelExit | crates/lithograph-extension/src/execution.rs:102-124 | Whatever cursor and interrupt left, dropping the guards and aborting a live explicit transaction meets the failure contract. |
| Executions.FailureEndsTransaction | crates/lithograph-extension/src/execution.rs:76-100 | A failed call of an execution prepared in an explicit transaction leaves none open. |
| Executions.CancellationEndsTransaction | crates/lithograph-extension/src/execution.rs:102-124 | So does cancelling it, whether or not a call failed before. |
| Executions.InsideIsOperation | crates/lithograph-extension/src/execution.rs:363-365 | An execution that ran inside a savepoint of others, guard given up or not, is an operation as `with_savepoint` expects it. |
| Protocol.StepKeepsInv | crates/lithograph-extension/src/lib.rs:174-302 | Every call keeps: registries count the held guards, readers and side effects exclude each other, live executions own at most the current transaction. |
| Protocol.ScalarWriteIsStep | crates/lithograph-extension/src/execution.rs:356-366 | A scalar write in its savepoint, giving up its own guard, is a step of the protocol. |
| Protocol.StepKeepsRecordOpen | crates/lithograph-extension/src/transaction.rs:11-59 | Every step but an unwatched lost transaction keeps a recorded transaction open on its base. |
| Protocol.RunKeepsInv | crates/lithograph-extension/src/execution.rs:336-348 | The invariant holds in every state of every run. |
| Protocol.RunKeepsRecordOpen | crates/lithograph-extension/src/transaction.rs:116-196 | In every run without a lost transaction, a healthy recorded transaction is open and its base is the committed head. |
| Protocol.RecordOpenThroughoutIff | crates/lithograph-extension/src/transaction.rs:11-59 | Record implies open transaction throughout a run if and only if no unwatched statement lost one. |
| Protocol.VersionCanLoseTransaction | crates/lithograph-extension/src/scalar.rs:156-166 | A concrete run in which `lithograph_version` leaves a record without a transaction. |
| Protocol.FailureEndsClosed | crates/lithograph-extension/src/transaction.rs:436-465 | In any run, a failure or cancellation inside a transaction is refused unchanged, or ends with no record, autocommit and the head at the base, or quarantined; nothing staged is committed. |
| Protocol.RefusedCommitKeepsTransaction | crates/lithograph-extension/src/transaction.rs:116-120 | A concrete run: begin, prepare a reader, and the refused commit leaves record, transaction and reader as they were. |
| Protocol.OnlyOwnTransactionIsEnded | crates/lithograph-extension/src/execution.rs:102-124 | An execution that ends or changes a recorded transaction was prepared in that very one. |
| Protocol.LiveExecutionBlocksBegin | crates/lithograph-extension/src/transaction.rs:27-33 | A live explicit execution, orphaned or not, makes every begin fail. |
| Protocol.GuardsExclude | crates/lithograph-extension/src/lib.rs:174-302 | No reader beside a side effect, one side effect at most, exactly one guard for each live explicit execution. |
| Http.Pigeonhole | crates/lithograph-openai-compatible/src/http.rs:322-349 | As many distinct indexes as slots leave no slot out. |
| Http.DecodeResponse | crates/lithograph-openai-compatible/src/http.rs:322-349 | Accepted exactly with the expected count and no out-of-range, duplicate or undecodable item; the output places index i's vector at position i. |
| Http.FillSlots | crates/lithograph-openai-compatible/src/http.rs:322-349 | Each item fills the slot of its index; accepted exactly when no index repeats or is out of range and every vector decodes, and then no slot is empty. |
| Http.FlattenSlots | crates/lithograph-openai-compatible/src/http.rs:458-471 | Succeeds exactly when every slot is filled, in slot order. |
| Http.FinitePatterns | crates/lithograph-openai-compatible/src/http.rs:405-446 | Finite are the bit patterns below that of infinity, sign apart. |
| Http.EmbedOneBatch | crates/lithograph-openai-compatible/src/http.rs:166-218 | Unless cancelled, the first reply that is not retryable, or the last the retries allow, decides; a cancelled first question sends nothing. |
| Http.Decisive | crates/lithograph-openai-compatible/src/http.rs:186-216 | Every request before the deciding one was retryable, and the deciding one is not unless the retries are used up. |
| Http.RetriedReplies | crates/lithograph-openai-compatible/src/http.rs:270-272 | Retried are statuses 408, 429 and 500 to 599, and requests that got no answer. |
| Http.InterruptibleSleep | crates/lithograph-openai-compatible/src/http.rs:300-312 | Succeeds exactly when none of the questions before each slice and at the end is answered with a cancellation. |
| Http.Embed | crates/lithograph-openai-compatible/src/http.rs:127-164 | For a pointwise server the result is the concatenation of single embeddings for every batch size, status and retry; where the limits are met and the server answers within the retries, it fails only when cancelled, and always when the first question is answered so. |
| CacheKey.PreimageInjective | crates/lithograph-openai-compatible/src/cache.rs:476-514 | Two configurations with the same hashed byte string agree in every field: the framing is uniquely decodable. |
| EmbeddingCache.EvictedKeeps | crates/lithograph-openai-compatible/src/cache.rs:611-641 | Eviction leaves an exact counter within the budget. |
| EmbeddingCache.DeleteKeeps | crates/lithograph-openai-compatible/src/cache.rs:354-383 | Deleting a damaged row with the payload read earlier keeps the counter exact, provided that payload is not stale. |
| EmbeddingCache.NotStale | crates/lithograph-openai-compatible/src/cache.rs:294-352 | A payload read from any earlier state is still right if the row survives. |
| EmbeddingCache.StepKeeps | crates/lithograph-openai-compatible/src/cache.rs:385-473 | Publish, enforce, delete and damage keep the counter equal to the sum of payloads and its check word the complement. |
| EmbeddingCache.InterleavingKeeps | crates/lithograph-openai-compatible/src/cache.rs:643-663 | The same after every prefix of every interleaving of any number of clients. |
| EmbedPipeline.EncodedInjective | crates/lithograph-openai-compatible/src/cache.rs:516-522 | A stored blob determines its vector. |
| EmbedPipeline.EncodeVector | crates/lithograph-openai-compatible/src/cache.rs:516-522 | The loop writes the little-endian form. |
| EmbedPipeline.ValidateEntry | crates/lithograph-openai-compatible/src/cache.rs:529-564 | A row passes exactly when it stores a finite vector of the right dimension for a text of that length, and then yields it. |
| EmbedPipeline.CacheFile.EvictToBudget | crates/lithograph-openai-compatible/src/cache.rs:611-641 | The loop terminates, never underflows, and deletes the shortest oldest-first prefix. |
| EmbedPipeline.CacheFile.WriteCounter | crates/lithograph-openai-compatible/src/cache.rs:600-609 | Counter and check word are written together, within 64 bits. |
| EmbedPipeline.CacheFile.PublishEntries | crates/lithograph-openai-compatible/src/cache.rs:401-453 | Inserts exactly the rows with a new key within the budget and returns the new sum; fails only when SQLite refuses. |
| EmbedPipeline.CacheFile.Publish | crates/lithograph-openai-compatible/src/cache.rs:385-399 | Insert, evict and recount as one transaction; a failure changes nothing. |
| EmbedPipeline.PublishedIsHeld | crates/lithograph-openai-compatible/src/cache.rs:420-453 | A text that had no row before its vector was published and has one after is held by a valid row, so a following lookup is a hit. |
| EmbedPipeline.AllPublished | crates/lithograph-openai-compatible/src/cache.rs:401-453 | When the budget takes all of it, publishing keeps every row and adds one for every text. |
| EmbedPipeline.CacheFile.EnforceBudget | crates/lithograph-openai-compatible/src/cache.rs:455-473 | Reads the counter outside a transaction and evicts inside one, with other clients in between; success leaves the total within the budget, and every exit a sound file. |
| EmbedPipeline.CacheFile.EvictInTransaction | crates/lithograph-openai-compatible/src/cache.rs:463-473 | Success is the shortest oldest-first eviction with the counter rewritten; a failure changes nothing. |
| EmbedPipeline.CacheFile.DeleteDamagedEntry | crates/lithograph-openai-compatible/src/cache.rs:354-383 | Removes the row and its payload, or nothing. |
| EmbedPipeline.CacheFile.Lookup | crates/lithograph-openai-compatible/src/cache.rs:294-352 | A hit if and only if the file holds a valid row for the text, and then the remote function's vector; with other clients running between the read and the repair. |
| EmbedPipeline.CacheFile.DropRow | crates/lithograph-openai-compatible/src/cache.rs:342-383 | A row found damaged is removed with the payload read earlier, after whatever others did since, and counts as a miss. |
| EmbedPipeline.LookupCachedTexts | crates/lithograph-openai-compatible/src/cache.rs:92-114 | Every text is resolved correctly or listed as a miss, exactly according to whether the file held a valid row when it was looked up; fails only when hindered or for a text beyond 64 bits. |
| EmbedPipeline.LookupText | crates/lithograph-openai-compatible/src/cache.rs:100-112 | One text, looked up after whatever other clients did. |
| EmbedPipeline.ResolveRemoteMisses | crates/lithograph-openai-compatible/src/cache.rs:120-144 | Exactly the misses are added, each with its own vector; what is published is right, and every missed text whose row is new and kept is a hit from then on. |
| EmbedPipeline.AssembleOutput | crates/lithograph-openai-compatible/src/cache.rs:146-163 | Input order with duplicates; fails exactly when a text is unresolved. |
| EmbedPipeline.EmbedCached | crates/lithograph-openai-compatible/src/cache.rs:33-62 | A successful cached embedding is the direct embedding of the texts in order, and within the limits it fails only when SQLite refuses, the caller cancels or the server does not answer; the file stays sound and accounted, and all the call did is within what other clients rely on. |
| EmbedPipeline.PublishKeepsSound | crates/lithograph-openai-compatible/src/cache.rs:385-399 | Publishing own results keeps every valid entry equal to the remote function, and what others have read still usable. |
| EmbedPipeline.DeleteKeepsSound | crates/lithograph-openai-compatible/src/cache.rs:354-383 | So does repair with a payload that is not stale. |
| EmbedPipeline.EnforceKeepsSound | crates/lithograph-openai-compatible/src/cache.rs:455-473 | So does eviction. |
| EmbedPipeline.HonestRelies | crates/lithograph-openai-compatible/src/cache.rs:354-473 | Every transaction of this provider, and detectable damage, is within what the other clients rely on. |
| EmbedPipeline.InterleavingSound | crates/lithograph-openai-compatible/src/cache.rs:643-663 | In every state of every interleaving of clients, the counter is exact and every row that passes validation holds the remote function's vector. |
| EmbedPipeline.StretchRelies | crates/lithograph-openai-compatible/src/cache.rs:643-663 | Any stretch of such an interleaving is within what a client assumes of the others. |
| EmbedPipeline.DigestNamesKey | crates/lithograph-openai-compatible/src/cache.rs:476-514 | The space digest names one configuration only. |
| EmbedPipeline.EmbedForKey | crates/lithograph-openai-compatible/src/cache.rs:33-90 | Cached embedding under a configuration is direct embedding under that same configuration; configurations never share vectors. |
| Calendar.CivilOfDays | crates/lithograph-core/src/cypher/temporal.rs:772-781 | Every valid date is recovered from its day number. |
| Calendar.DaysOfCivil | crates/lithograph-core/src/cypher/temporal.rs:450-462 | Every day number gives a valid date with that day number. |
| Calendar.NextDay | crates/lithograph-core/src/cypher/temporal.rs:758-781 | The next day number is the next calendar date under the month lengths. |
| Calendar.DayNumbersOrderDates | crates/lithograph-core/src/cypher/temporal.rs:772-781 | Day numbers order exactly as dates do. |
| Calendar.LaterDaysLaterDates | crates/lithograph-core/src/cypher/temporal.rs:450-462 | A later day number is a later date. |
| Calendar.CivilArithmeticFits | crates/lithograph-core/src/cypher/temporal.rs:450-462 | Every intermediate value stays within 64 bits for every day number whose shifted form does. |
| Temporal.DateRoundTrip | crates/lithograph-core/src/cypher/temporal.rs:783-793 | Every supported date survives printing and parsing. |
| Temporal.DateCanonical | crates/lithograph-core/src/cypher/temporal.rs:14-20 | A parsed date's text is a fixed point of the parser. |
| Temporal.DateFromDaysIff | crates/lithograph-core/src/cypher/temporal.rs:441-448 | Rebuilding succeeds exactly for supported years outside -999 to -1, with the canonical text. |
| Temporal.DateFromDaysGap | crates/lithograph-core/src/cypher/temporal.rs:34-37 | A date that parses and cannot be rebuilt. |
| Temporal.LocalTimeRoundTrip | crates/lithograph-core/src/cypher/temporal.rs:428-439 | Every time of day survives printing and parsing to the nanosecond. |
| Temporal.LocalTimePastMidnight | crates/lithograph-core/src/cypher/temporal.rs:428-439 | A count of a day or more prints a text that no parse accepts. |
| Temporal.LocalTimeCanonical | crates/lithograph-core/src/cypher/temporal.rs:279-331 | Whatever form was parsed, the stored text is the printed one. |
| Temporal.OffsetRoundTrip | crates/lithograph-core/src/cypher/temporal.rs:350-426 | Every offset within 18 hours survives printing and parsing. |
| Temporal.TimeRoundTrip | crates/lithograph-core/src/cypher/temporal.rs:333-348 | Local part and offset are split where they were joined. |
| Temporal.TimeCanonical | crates/lithograph-core/src/cypher/temporal.rs:87-103 | A parsed time's text is the printed one and parses back to it. |
| Temporal.LocalDateTimeRoundTrip | crates/lithograph-core/src/cypher/temporal_datetime.rs:19-30 | Every supported local date-time survives printing and parsing. |
| Temporal.LocalDateTimeCanonical | crates/lithograph-core/src/cypher/temporal_datetime.rs:19-30 | Its text is a fixed point of the parser. |
| Temporal.LocalDateTimeFromComponentsIff | crates/lithograph-core/src/cypher/temporal_datetime.rs:48-54 | For all components, rebuilding succeeds exactly where the date can be rebuilt and the time lies within a day, and keeps both. |
| Temporal.ZonedFromInstantIff | crates/lithograph-core/src/cypher/temporal_datetime.rs:122-135 | Succeeds exactly for rebuildable local dates, keeping instant, offset and zone, with a text that parses back. |
| Temporal.ZonedFromLocalKeeps | crates/lithograph-core/src/cypher/temporal_datetime.rs:137-184 | In every zone, fixed or named, succeeds exactly when the zone settles on an offset, the time lies within a day and the date can be rebuilt; keeps the local components, the zone and that offset. |
| Temporal.ChosenOffsetHolds | crates/lithograph-core/src/cypher/temporal_datetime.rs:137-184 | The offset settled on is the zone's offset at the instant it makes. |
| Temporal.PreferredOffsetWins | crates/lithograph-core/src/cypher/temporal_datetime.rs:164-180 | Where a local time occurs twice, either reading can be asked for and is returned. |
| Temporal.ZonedCanonical | crates/lithograph-core/src/cypher/temporal_datetime.rs:66-88 | A parsed zoned value parses back to itself and its stored components give its instant. |
| TemporalLaws.OffsetDenotes | crates/lithograph-core/src/cypher/temporal.rs:350-426 | `+hh`, `+hh:mm`, `+hhmm`, `+hh:mm:ss` and `+hhmmss` denote so many seconds, negative with a minus, up to 18 hours; anything larger is refused. |
| TemporalLaws.OffsetPrinted | crates/lithograph-core/src/cypher/temporal.rs:350-426 | Z for zero, else a sign and two or three fields between colons. |
| TemporalLaws.ClockDenotes | crates/lithograph-core/src/cypher/temporal.rs:279-331 | Hours, minutes, seconds and a decimal fraction, in nanoseconds, accepted exactly within a day. |
| TemporalLaws.ClockPrinted | crates/lithograph-core/src/cypher/temporal.rs:428-439 | The digits of a printed clock are those of its hour, minute and second; a fraction has no trailing zero. |
| TemporalLaws.DateDenotes | crates/lithograph-core/src/cypher/temporal.rs:783-793 | Four digits of year, two of month and two of day, accepted exactly for calendar dates. |
| TemporalLaws.YearDenotes | crates/lithograph-core/src/cypher/temporal.rs:783-793 | Signed and longer years, up to nine digits' worth. |
| TemporalLaws.DatePrinted | crates/lithograph-core/src/cypher/temporal.rs:783-793 | Month and day at the end, a sign exactly outside the years 0 to 9999. |
| TemporalLaws.Epoch | crates/lithograph-core/src/cypher/temporal.rs:772-781 | Day 0 is 1970-01-01. |
| TemporalLaws.InstantsAreUtc | crates/lithograph-core/src/cypher/temporal_datetime.rs:137-193 | An instant built from local time is that time minus the offset; stored seconds and nanoseconds add up to it. |
| TemporalLaws.ParsedInstantIsUtc | crates/lithograph-core/src/cypher/temporal_datetime.rs:66-88 | So is a parsed one. |
| Checkpoint.CutOutcome | crates/lithograph-core/src/cypher/json.rs:33-49 | A cut run gives the plain outcome if the callback never fails, else exactly its first error with no later call. |
| Utf8.EncodedIsChunky | crates/lithograph-core/src/cypher/json.rs:725-733 | In UTF-8 text no four continuation bytes follow one another. |
| Utf8.EncodedCodePoint | crates/lithograph-core/src/cypher/json.rs:725-733 | The bytes of a character carry its number, in the shortest of the four forms. |
| Utf8.Progress | crates/lithograph-core/src/cypher/json.rs:725-733 | Moving back to a character boundary never loses the whole piece. |
| Utf8.PiecesCoverText | crates/lithograph-core/src/cypher/json.rs:725-733 | Pieces are non-empty, at most 64 KiB, and sum to the length. |
| Utf8.CopyPieces | crates/lithograph-extension/src/budget.rs:55-74 | The chunked copy terminates on every UTF-8 text, returns its input and announces exactly its pieces, up to the callback's first refusal. |
| Utf8.CheckedText | crates/lithograph-core/src/cypher/json.rs:715-738 | With the extra checkpoints around large texts, the same. |
| Values.PointCanonical | crates/lithograph-core/src/cypher/value.rs:87-116 | Every constructed point is a fixed point of its constructor, for any wrapping that brings finite longitudes into range. |
| Values.NewPointIff | crates/lithograph-core/src/cypher/value.rs:87-116 | Accepted exactly for a known system, its number of finite coordinates and a latitude on the globe; only a longitude beyond 180 degrees is changed. |
| Values.UuidRoundTrip | crates/lithograph-core/src/cypher/uuid.rs:11-42 | Sixteen bytes survive the canonical text. |
| Values.UuidDigits | crates/lithograph-core/src/cypher/uuid.rs:11-42 | Lower-case hexadecimal in groups of 8, 4, 4, 4 and 12, each digit in its place. |
| Values.CoordinateRanges | crates/lithograph-core/src/cypher/json.rs:658-686 | The integers each coordinate type takes. |
| Values.FloatCoordinates | crates/lithograph-core/src/cypher/json.rs:613-704 | Float coordinates are the finite numbers, narrowed for F32. |
| Values.CoordinateTypeAliases | crates/lithograph-core/src/cypher/value.rs:236-248 | Each coordinate type by its names, in any case. |
| Values.IntegerText | crates/lithograph-core/src/cypher/json.rs:488-493 | Every 64-bit integer survives its decimal text. |
| JsonLaws.FilteredIsStripped | crates/lithograph-core/src/cypher/json.rs:102-214 | Filtered encoding is plain encoding of the value with denied properties deleted from every node and relationship. |
| JsonLaws.StrippedIsClean | crates/lithograph-core/src/cypher/json.rs:778-851 | After deletion no node or relationship has a denied property, at any depth; a value without any is left as it is. |
| JsonLaws.KeysKept | crates/lithograph-core/src/cypher/json.rs:758-776 | Plain maps keep every key under any filter. |
| JsonLaws.SameEncodingIff | crates/lithograph-core/src/cypher/json.rs:758-851 | Two well-formed values encode alike under a filter if and only if they differ in denied graph properties only. |
| JsonWire.EncodeIsWire | crates/lithograph-core/src/cypher/json.rs:102-214 | Every value is written as its literal wire form: the tag and member names, integers beyond 2^53 - 1 as text, non-finite floats by name. |
| JsonWire.FilteredWire | crates/lithograph-core/src/cypher/json.rs:102-214 | Under any filter, as the wire form of what the filter leaves. |
| JsonWire.WireDecodes | crates/lithograph-core/src/cypher/json.rs:51-68 | The wire form of every well-formed value is read back as that value. |
| JsonWire.DecodedByName | crates/lithograph-core/src/cypher/json.rs:303-459 | Whatever the order of members, callback and zone database, an accepted object was read from the members of the literal names for its tag, and has no others. |
| JsonWire.RelationshipByName | crates/lithograph-core/src/cypher/json.rs:528-539 | Start, end, type and identifier each under its own name. |
| JsonWire.NodeByName | crates/lithograph-core/src/cypher/json.rs:506-526 | Identifier, labels and properties under theirs. |
| JsonWire.PathByName | crates/lithograph-core/src/cypher/json.rs:541-570 | Nodes and relationships, one node more. |
| JsonWire.PointByName | crates/lithograph-core/src/cypher/json.rs:572-590 | System and coordinates. |
| JsonWire.VectorByName | crates/lithograph-core/src/cypher/json.rs:592-656 | Coordinate type, dimension and values, 1 to 4096 of them. |
| JsonWire.TextByName | crates/lithograph-core/src/cypher/json.rs:380-459 | Every value with a text form, from the text under `value`. |
| JsonLaws.StrippedWellFormed | crates/lithograph-core/src/cypher/json.rs:758-851 | Deleting properties keeps values well formed. |
| JsonLaws.RoundTrip | crates/lithograph-core/src/cypher/json.rs:83-152 | Decoding the encoding of any well-formed value returns it, tagged keys, unsafe integers and non-finite floats included. |
| JsonLaws.MapRoundTrips | crates/lithograph-core/src/cypher/json.rs:168-182 | A map with a `$type` key is wrapped and read back; one without is read as it stands. |
| JsonLaws.NodeRoundTrips | crates/lithograph-core/src/cypher/json.rs:506-526 | Nodes with any labels and properties. |
| JsonLaws.RelationshipRoundTrips | crates/lithograph-core/src/cypher/json.rs:528-539 | Relationships, each endpoint and type in its place. |
| JsonLaws.PathRoundTrips | crates/lithograph-core/src/cypher/json.rs:541-570 | Paths, with the count of nodes checked. |
| JsonLaws.PointRoundTrips | crates/lithograph-core/src/cypher/json.rs:572-590 | Points of all four reference systems. |
| JsonLaws.VectorRoundTrips | crates/lithograph-core/src/cypher/json.rs:592-704 | Vectors of all six coordinate types. |
| JsonLaws.RoundTripTemporal | crates/lithograph-core/src/cypher/json.rs:380-405 | Dates, times and local date-times. |
| JsonLaws.RoundTripZoned | crates/lithograph-core/src/cypher/json.rs:407-435 | Zoned date-times with their zone. |
| JsonLaws.RoundTripScalar | crates/lithograph-core/src/cypher/json.rs:291-301 | Integers on both sides of the JS-safe bound, all floats, UUIDs. |
| JsonLaws.CheckedParameterNever | crates/lithograph-core/src/cypher/json.rs:248-273 | The announced check decides exactly whether a value contains a node, relationship or path. |
| JsonLaws.ParametersRoundTrip | crates/lithograph-core/src/cypher/json.rs:231-246 | An encoded parameter object is accepted exactly when all its values are parameter values, and returned unchanged. |
| JsonChecked.CutDecode | crates/lithograph-core/src/cypher/json.rs:51-68 | Checked decoding of any JSON tree is plain decoding cut at the first failing call. |
| JsonChecked.CutTagged | crates/lithograph-core/src/cypher/json.rs:303-459 | The same for every tagged form. |
| JsonChecked.CutParameterFields | crates/lithograph-core/src/cypher/json.rs:231-246 | The same for parameter objects. |
| JsonChecked.DecodeChecked | crates/lithograph-core/src/cypher/json.rs:21-31 | For every callback: the plain result if it never fails, otherwise exactly its own first error and no later call. |
| JsonChecked.DecodeParametersChecked | crates/lithograph-core/src/cypher/json.rs:222-229 | The same for parameters. |
| JsonEncoding.EncodeIsDue | crates/lithograph-core/src/cypher/json.rs:102-152 | Checked encoding of any value makes exactly the announcements its shape prescribes, in order, and then gives the plain encoding. |
| JsonEncoding.BodyIsDue | crates/lithograph-core/src/cypher/json.rs:758-885 | The same for every kind of value: maps, nodes, relationships, paths, vectors. |
| JsonEncoding.EncodeChecked | crates/lithograph-core/src/cypher/json.rs:90-152 | For every callback: the plain encoding if none of the announcements is refused, otherwise exactly the first refusal and no later announcement. |
| JsonEncoding.TextBytes | crates/lithograph-core/src/cypher/json.rs:715-738 | The bytes announced for a text are its UTF-8 length. |
| Compose.AgreeIff | crates/lithograph-core/src/cypher/semantic.rs:293-314 | A segment is accepted exactly when all operands are and expose the same columns; it exposes the last scope. |
| Compose.ValidateUnionConnectors | crates/lithograph-core/src/cypher/semantic_rules.rs:20-45 | Accepts exactly chains whose segments do not mix UNION and UNION ALL. |
| Compose.AdvanceConnector | crates/lithograph-core/src/cypher/semantic.rs:269-291 | NEXT hands on the last output, or the empty scope when the last operand returns no columns, and resets the segment. |
| Compose.AnalyzeComposed | crates/lithograph-core/src/cypher/semantic.rs:227-267 | The loop returns exactly the declarative fold: same acceptance, same scope, same first error. |
| Compose.AnalyzeConditional | crates/lithograph-core/src/cypher/semantic.rs:316-349 | All branches accepted with equal columns, else the first error; exposes the first branch. |
| Compose.AnalyzeNode | crates/lithograph-core/src/cypher/semantic.rs:194-208 | The same at every nesting depth. |
| Compose.VisitComposed | crates/lithograph-core/src/cypher/semantic.rs:154-166 | The backward walk collects the terminal queries after the last NEXT. |
| Compose.TerminalsOfLastSegment | crates/lithograph-core/src/cypher/semantic.rs:130-191 | What a chain exposes comes from its last segment alone. |
| Compose.ValidateNextProjections | crates/lithograph-core/src/cypher/semantic.rs:519-542 | Reports the first unaliased projection among the segment's terminal queries. |
| Compose.AnalyzeCallComposed | crates/lithograph-core/src/cypher/semantic_clause.rs:738-798 | The CALL loop returns exactly its declarative reading, importing only in the first segment and refusing NEXT after an import. |
| Compose.AnalyzeCall | crates/lithograph-core/src/cypher/semantic_clause.rs:693-736 | The same for every CALL body. |
| Compose.CallAgrees | crates/lithograph-core/src/cypher/semantic_clause.rs:693-798 | Where nothing is imported, a CALL body means what the query means from the empty scope. |
| Compose.UsedIff | crates/lithograph-core/src/cypher/semantic_clause.rs:693-798 | An accepted body reports an import if and only if some offered operand imported. |
| ComposeLaws.HandedSingle | crates/lithograph-core/src/cypher/semantic.rs:269-291 | NEXT hands on the output if the last operand returns columns, else the empty scope. |
| ComposeLaws.HandedNested | crates/lithograph-core/src/cypher/semantic.rs:269-291 | Braces, and what precedes the last operand of a nested chain, make no difference. |
| ComposeLaws.HandedConditional | crates/lithograph-core/src/cypher/semantic.rs:269-291 | A conditional hands on exactly when every branch does. |
| ComposeLaws.NextIsSequential | crates/lithograph-core/src/cypher/semantic.rs:227-291 | A chain with a NEXT is the chain before it, then the chain after it under what was handed on; mixed UNIONs come first, unaliased projections between. |
| ComposeLaws.UnionIsAgreement | crates/lithograph-core/src/cypher/semantic.rs:227-314 | A chain without NEXT analyses every operand under the same scope and compares columns. |
| ComposeLaws.AgreeError | crates/lithograph-core/src/cypher/semantic.rs:293-314 | The first operand that fails or has other columns decides the error. |
| ComposeLaws.PairMeaning | crates/lithograph-core/src/cypher/semantic.rs:227-314 | Two queries and a connector, in terms of their own outcomes. |
| ComposeLaws.SplitAtNext | crates/lithograph-core/src/cypher/semantic.rs:227-267 | Segments are what lies between NEXTs. |
| ComposeLaws.SplitWithoutNext | crates/lithograph-core/src/cypher/semantic.rs:227-267 | Without one there is a single segment of all operands and connectors. |
| ComposeLaws.ConditionalIff | crates/lithograph-core/src/cypher/semantic.rs:316-349 | Accepted exactly when every condition and branch is, with the columns of the first branch, whose scope is exposed. |
| ComposeLaws.TerminalsIff | crates/lithograph-core/src/cypher/semantic.rs:130-191 | The terminal queries are exactly those a query exposes. |
| ComposeLaws.UnaliasedIff | crates/lithograph-core/src/cypher/semantic.rs:519-542 | A NEXT is refused exactly when an exposed query has an unaliased projection. |
| ComposeLaws.CallNext | crates/lithograph-core/src/cypher/semantic_clause.rs:738-798 | Only what precedes the first NEXT of a CALL body may import; the rest is analysed as anywhere, and an import is refused last. |
| ComposeLaws.CallImports | crates/lithograph-core/src/cypher/semantic_clause.rs:693-798 | A body in which every offered query imports the same variables means the query under these. |
| Rows.Execution.NextBatch | crates/lithograph-extension/src/execution.rs:76-100 | The adapter's batch with its transaction effects, delivering the next rows in order, done only when none remain, with progress unless done. |
| Rows.FinishedIsWhole | crates/lithograph-extension/src/rows.rs:142-211 | A prefix of the stream that ends in its summary is the whole stream. |
| Rows.FinishedCarriesAllRows | crates/lithograph-extension/src/execution.rs:401-421 | A finished stream carries exactly the texts of the query's rows. |
| Rows.NothingDeniedIsDelivered | crates/lithograph-extension/src/budget.rs:184-222 | The texts of the stream and the rows of the scalar path are those of the rows with every denied property deleted beforehand. |
| Rows.RowsCursor.EmitPending | crates/lithograph-extension/src/rows.rs:134-140 | Shows the next pending row with the next ordinal. |
| Rows.RowsCursor.EncodePendingRows | crates/lithograph-extension/src/rows.rs:214-232 | Every row of a batch is written in order, without its denied properties, or a reservation was refused. |
| Rows.RowsCursor.Advance | crates/lithograph-extension/src/rows.rs:142-184 | With a live execution a success shows exactly one event more; a failure shows nothing and is never the cursor's own doing; it terminates for prefetch 1 and 256, and retains no row under a memory limit. |
| Rows.RowsCursor.CallNext | crates/lithograph-extension/src/rows.rs:155-166 | The engine's next rows, no more than asked for; a failure inside a transaction leaves it accounted for. |
| Rows.RowsCursor.FinishSummary | crates/lithograph-extension/src/rows.rs:186-211 | The summary is shown only after the execution completed. |
| Rows.RowsCursor.Next | crates/lithograph-extension/src/rows.rs:483-512 | One event more, the end, or a failure that something else caused, after which nothing of the stream is shown again and the explicit transaction it was prepared in is over. |
| Rows.RowsCursor.Abandon | crates/lithograph-extension/src/rows.rs:483-512 | A failed stream's execution is cancelled and its pending rows forgotten; its explicit transaction is over. |
| Rows.RowsCursor.Filter | crates/lithograph-extension/src/rows.rs:338-390 | A stream starts with its columns at ordinal 0, or what was shown before stands. |
| Rows.RowsCursor.ClearPrevious | crates/lithograph-extension/src/rows.rs:338-390 | The previous execution is cancelled; pending rows are forgotten only if that succeeded. |
| Rows.RowsCursor.Start | crates/lithograph-extension/src/rows.rs:338-390 | A prepared, live execution of the query, or none with the connection kept consistent. |
| Rows.RowsCursor.SeenIsPrefix | crates/lithograph-extension/src/rows.rs:133-232 | In every reachable state the host has seen a prefix of columns, row*, summary with ordinals 0, 1, 2, ... up to saturation. |
| Rows.RowsCursor.Drain | crates/lithograph-extension/src/rows.rs:483-516 | Stepping to the end shows the whole stream of a completed execution, every row without its denied properties; it fails only if something else stood in the way. |
| Rows.CollectScalarRows | crates/lithograph-extension/src/execution.rs:401-421 | On success, every row of the query in order, without its denied properties; otherwise the engine or a reservation failed; inside a savepoint of others the execution stages at most or fails. |
| Rows.CollectScalarResult | crates/lithograph-extension/src/execution.rs:370-399 | The rows only once the execution completed; it is terminal in every case, a failure ends its explicit transaction, and inside a savepoint of others it stages at most or fails. |
| Rows.CollectInSavepoint | crates/lithograph-extension/src/execution.rs:356-366 | A write that collects its result inside `with_savepoint` meets its contract, returns rows exactly on success, and the side-effect registry follows its guard. |
| Rows.ScalarResult | crates/lithograph-extension/src/execution.rs:350-368 | Prepared, collected and dropped: a write outside an explicit transaction returns all its rows without their denied properties and keeps exactly what it staged, or leaves the entry state or the rolled-back one, or quarantines with nothing committed; a failure inside an explicit transaction ends it; a sound query fails only by the engine, a reservation or SQLite. |
| Rows.DeliverBoth | crates/lithograph-extension/src/execution.rs:384-444 | A drained stream and a collected scalar result over the same rows agree: the row texts of the one are the rows of the other, written, whatever the batches, and neither shows a denied property. |
| Preflight.QuotedTokenEnd | crates/lithograph-extension/src/budget.rs:119-137 | The loop ends where the string does, escapes skipped in pairs, and its own charges add up to the bytes after the opening quote. |
| Preflight.PrimitiveTokenEnd | crates/lithograph-extension/src/budget.rs:139-155 | The loop ends at the first delimiter, and its own charges add up to the bytes after the first. |
| Preflight.PreflightBytes | crates/lithograph-extension/src/budget.rs:80-117 | Unless interrupted it succeeds exactly when the price fits 64 bits, with exactly the scan's price, and its charging calls add up to the scan's charge. |
| Preflight.PreflightOfTree | crates/lithograph-extension/src/budget.rs:76-117 | For every JSON tree and layout: each byte charged once, one token for each value and key, at least four times what the strings decode to. |
| Preflight.PiecesInside | crates/lithograph-extension/src/budget.rs:119-137 | A string ends at its own closing quote and decodes to no more bytes than it is written with. |
| Preflight.ChargeOfAnyText | crates/lithograph-extension/src/budget.rs:93-137 | On any text each byte is charged once, and one more if and only if the text stops right after a backslash inside a string, as a four-state reading of its bytes says. |
| Preflight.LoneBackslashOvercharged | crates/lithograph-extension/src/budget.rs:119-137 | Two bytes charged as three; a backslash outside a string charged as one. |
| Preflight.TreesAreChargedExactly | crates/lithograph-extension/src/budget.rs:76-117 | No JSON text, under any layout, ends in the overcharged state. |
| Fts5.ParseSpecification | crates/lithograph-fts5/src/lib.rs:487-514 | The loop returns exactly the parse of the byte string. |
| Fts5.ParseQuotedArgument | crates/lithograph-fts5/src/lib.rs:516-536 | Doubled quotes are one, characters are taken whole. |
| Fts5.ParseBareArgument | crates/lithograph-fts5/src/lib.rs:538-551 | The longest bareword. |
| Fts5.BareCharIff | crates/lithograph-fts5/src/lib.rs:538-555 | A character is in a bareword with all its bytes or with none: letters, digits, underscore, SUB and everything beyond ASCII. |
| Fts5.QuotedOf | crates/lithograph-fts5/src/lib.rs:221-223 | A quoted argument ends at its own closing quote, whatever it contains. |
| Fts5.JoinedRoundTrip | crates/lithograph-fts5/src/lib.rs:487-555 | Any space-joined list of barewords and quoted arguments parses back to that list. |
| Fts5.DualRoundTrip | crates/lithograph-fts5/src/lib.rs:139-146 | The dual specification parses to its four arguments; a NUL in any is refused. |
| Interpolation.FragmentsAreSlices | crates/lithograph-core/src/cypher/semantic_interpolation.rs:131-151 | Fragments are the source's slices at their character positions, trimmed, non-blank, ordered and disjoint. |
| Interpolation.TrimRemovesWhite | crates/lithograph-core/src/cypher/semantic_interpolation.rs:131-151 | Trimming removes all white space at both ends and nothing else. |
| Interpolation.PassesLexeme | crates/lithograph-core/src/cypher/semantic_interpolation.rs:95-129 | Every quotation, name, comment and balanced brace group is passed over whole. |
| Interpolation.PartsRoundTrip | crates/lithograph-core/src/cypher/semantic_interpolation.rs:16-151 | A body built from escaped literals and lexically closed expressions yields exactly the trimmed expressions, and is refused only for a blank one. |
| Interpolation.InterpolationRoundTrip | crates/lithograph-core/src/cypher/semantic_interpolation.rs:66-74 | The same for the whole literal, with its character positions. |
| InterpolationBytes.CloseInBytes | crates/lithograph-core/src/cypher/semantic_interpolation.rs:95-129 | The scan over bytes closes an expression at the byte of the character where the scan over characters does, also when an escape is followed by a multi-byte character. |
| InterpolationBytes.SameFragments | crates/lithograph-core/src/cypher/semantic_interpolation.rs:76-93 | From every character boundary the scan over bytes finds what the scan over characters finds and never slices inside a character, although an escape passes two bytes. |
| InterpolationBytes.FindFragments | crates/lithograph-core/src/cypher/semantic_interpolation.rs:16-64 | The loop over index, depth, start and state on bytes returns exactly the character-level reading at byte positions, errors included. |
| InterpolationBytes.FragmentsAreByteSlices | crates/lithograph-core/src/cypher/semantic_interpolation.rs:131-151 | What is returned are the text's byte slices at character boundaries, in order and disjoint. |
| InterpolationBytes.BytesRoundTrip | crates/lithograph-core/src/cypher/semantic_interpolation.rs:16-151 | A literal built from escaped text and lexically closed expressions yields exactly the trimmed expressions at their byte positions, and is refused only for a blank one. |

## Left out

- SQLite itself, client-data slots, FFI, pointer handling and panics: represented by `Sqlite.Answers` and contracts.
- The storage engine, the query executor and memory reservations: assumed contracts, so what `FinalizeExplicit` writes to storage is arbitrary.
- Connections.Connection.FinalizeExplicit: does not model how staged Commits are collapsed into one, because the storage functions that do it are outside this model; only the head it returns and its failure behaviour are stated.
- Rows.RowsCursor.EncodePendingRows: does not model the capacity reservations of the pending queue, only that each may fail.
- Duration parsing and formatting, which compute in floating point: durations are excluded from the round trips, and the duration parser is a parameter of the decoder.
- The time-zone database: a parameter, read by instant and by local time; which local times fall in gaps or occur twice is its matter.
- Serialization of JSON trees to text and the JSON parser: the codec is modelled on trees, the row texts through a parameter.
- HTTP transport, the length of a retry delay, configuration, and the narrowing of response numbers to 32 bits.
- The analysis of single queries, type inference and builtin tables: parameters of `Compose`.
- The grammar: composed queries are assumed to alternate operands and connectors, as the grammar produces them.
- BLAKE3: compared for equality only.
- Closing a rows cursor, which cancels its execution, and the parsing of its hidden arguments: one call each.
- Tests, the TCK runner, packaging, performance counters and SHOW column lists: no logic to prove.
