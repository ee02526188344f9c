# BakpiaRun: a verified model

A Dafny model of the parts of the BakpiaRun PHP application server in which several operations have to agree:
the wire codec and the prepared statements of its MySQL proxy, the life of its PHP workers under concurrent
requests, reloads and memory pressure, its rate limiter, its background job queue, pool routing, and the framing
between server and workers.

`dafny verify dfyconfig.toml` checks everything.

## How the files fit together

- `Wrappers`, `Sequences`, `Bytes`, `Decimal`, `LengthEncoding`, `Packets`: options, sequences, bytes, decimal text, the
  MySQL encodings and framing.
- `QueryResponse`: what the proxy answers to COM_QUERY, written as the loops of the source, and a reference client
  that reads it back.
- `BinaryParameters`, `BinaryParameterFaults`: the parser of COM_STMT_EXECUTE parameters, the encoding a client
  sends, and exactly which parameter lists survive.
- `Substitution`: the textual substitution of parameters.
- `PreparedStatements`: the statement table as an object, its history, and prepare followed by execute.
- `RateLimiter`: the token bucket as an object, and the rule over the whole history that it implements.
- `JobQueue`, `JobQueueRuns`: the queue as an object, and all interleavings of submitters and the consumer.
- `Worker`: a worker object under its mutex; `WorkerLifecycle`: all interleavings of handlers, monitor, reload and
  exiting processes; `Sections`: what each section does and why none is stuck; `RequestLifetime`, `RequestsTaken`,
  `LifetimeIsReached`, `ProcessAccounting`, `Recycles`: results about those interleavings.
- `WorkerPool`: round-robin selection; `AntiOom`: a pass of the memory monitor.
- `Routing`: pool selection; `Ipc`: frames under short reads.

Objects of the source are classes whose methods are tied to functions on values; the runs of the concurrent parts
are made of those same functions.

## Readings and premises

- A u8 sequence id, a u32 statement id and the usize cursor wrap, as in a release build.
- Text is a byte sequence. The lossy UTF-8 conversion of the source is the identity on valid UTF-8 and is not part
  of this model.
- One step of a run is one critical section under a mutex. A recycle waits with the mutex held, so it is one step.
  No handler future is dropped between two of its sections.
- Clock readings, `f64` token counts and rates are real numbers. Readings taken under the lock do not decrease.
- A new job id (a UUID) is not in the job table. A process is named by its spawn, so no name is used twice, and
  stopping a process ends it. A running child whose handle is dropped runs on, since `kill_on_drop` is not set.
- Spawning, /proc readings, child exits, database outcomes and socket reads are parameters that may take any value.
- Lower-casing is a parameter, of which only `Routing.Lowering` is used: doing it twice is doing it once, and white
  space keeps its place. This is so for Unicode, and proved for ASCII letters (`Routing.AsciiLowering`).
- The monitor scans the workers of all pools as one sequence and may find each in any state.
- SQL literals are read in the grammar in which a doubled quote is the only escape.

## What is false of the code

- The parser of binary parameters stores the size of a string as the offset of the next parameter, reads a SHORT as
  four bytes, ignores the unsigned flag, and takes every parameter for a string when a statement is executed again
  without types. `BinaryParameterFaults.AsWrittenExactly` gives the parameter kinds for which none of this matters, in
  both directions; without types it always matters to a list with an integer
  (`BinaryParameterFaults.NoIntegerWithoutTypes`). `BinaryParameters.IntendedRoundTrip` proves the trip for the reading
  `Intended`, which adds the offset, reads two-byte SHORTs, heeds the flag and remembers the types.
- A parameter with a question mark receives the parameters behind it: `Substitution.TemplateExactly` gives the lists
  for which that matters to no query, `PreparedStatements.ExecuteRunsTemplateExactly` those of a client.
- The count of parameters in the answer to a prepare wraps at 65536, while the execution counts all question marks:
  `PreparedStatements.ReportedCountIsExact` and `TooManyMarks`.
- The answer to a prepare ends with the EOF packet of its columns although there are none. The page on
  COM_STMT_PREPARE of the MySQL Client/Server Protocol sends it only with columns, so a client leaves it unread:
  `PreparedStatements.PrepareAnswerLeavesAnEof`.
- Running PHP processes are left behind with nothing to stop them: by the start of a reload on a worker that a request
  has restarted since the stop, by a request that ends on a worker its pool has retired, and by a pool dropped because
  one of its workers did not start. `ProcessAccounting.OrphansArise` and `OrphansExactly` say exactly when;
  `ReloadCanForget`, `RetiredWorkerKeepsProcess` and `DroppedPoolKeepsProcess` give the runs.
- The request limit counts replies, not requests: `RequestsTaken.TakenBound` bounds the requests a process takes by the
  limit, the handlers busy on it and the exchanges that failed, in every run. The failed ones are needed:
  `LifetimeIsReached.FailuresAreNotCounted` gives, for every n, a run with a limit of one in which one process takes n
  requests. Without them the limit does bound the requests (`RequestsTaken.LimitBoundsRequests`).
- The request limit of a single pool may be configured as 0, which validation does not reject: the bound on the replies
  of a process holds exactly for a limit of at least 1 (`LifetimeIsReached.BoundNeedsALimit`).
- A recycle does not wait for the requests in flight to finish: it holds the mutex they need, so they are still in
  flight when their process has been stopped, after two seconds (`Recycles.RecycleStopsUnderRequests`).
- The monitor evicts a worker under container pressure even if it has recycled another in the same pass, against the
  comment at src-server/src/anti_oom.rs:277: `AntiOom.EvictsAfterRecycleExactly`, `BothAreRecycled`.
- Seven column types that the code names, and all that it does not name, are reported under the code of another:
  `QueryResponse.ReportedTypeIsExact`.
- The reset reported with an admitted call is sixty seconds whatever is missing from the bucket:
  `RateLimiter.AdmittedResetFillsExactly`.
- A payload of 2^24 bytes or more is not framed: `Packets.PacketRoundTrip`, `QueryResponse.RowComesBackExactly`.
- A star inside a route pattern is no wildcard, and `/*` in front of a slash also matches the rest alone:
  `Routing.OneStarPattern`. The comment at src-server/src/pool_manager.rs:149 describes a branch that the branch before
  it makes unreachable; by `Routing.StarAtEnd` such a pattern matches below its directory only.

## Model

| member | source | states |
|---|---|---|
| Decimal.IntRoundTrip | src-server/src/db_proxy/mod.rs:616-617 | the decimal text of an integer is read back as that integer, so text and integer determine each other |
| Decimal.IntTextIsTextOf | src-server/src/db_proxy/mod.rs:616-617 | the text of an integer is a decimal numeral of it without a superfluous leading zero, signed only if negative |
| Bytes.ByteOfLE | src-server/src/db_proxy/mod.rs:663-674 | byte k of a little-endian number has the weight 256^k |
| LengthEncoding.LenencIntBytes | src-server/src/db_proxy/mod.rs:664-674 | the four forms of a length-encoded integer, byte by byte, with the values each is for |
| LengthEncoding.DecodeIntOfLenencInt | src-server/src/db_proxy/mod.rs:664-674 | every length-encoded u64 is decoded to itself with whatever bytes follow left over; no encoding is a prefix of another |
| LengthEncoding.DecodeStrOfLenencStr | src-server/src/db_proxy/mod.rs:676-680 | every length-encoded string is decoded to itself with the bytes behind it left over |
| LengthEncoding.FirstByteIsNoMarker | src-server/src/db_proxy/mod.rs:664-680 | a length prefix never is the NULL or ERR byte, and is the EOF byte exactly from 2^24 bytes on |
| Packets.BuildPacket | src-server/src/db_proxy/mod.rs:523-532 | the byte-by-byte builder yields three bytes of length, low byte first, the id and the payload |
| Packets.PacketRoundTrip | src-server/src/db_proxy/mod.rs:523-532 | a client reads a packet back, whatever follows, exactly when the payload is shorter than 2^24 bytes |
| Packets.SeqAfterCountsModulo256 | src-server/src/db_proxy/mod.rs:190-211 | the n-th sequence id after the request's is the sum modulo 256 |
| QueryResponse.BuildRowPacket | src-server/src/db_proxy/mod.rs:610-624 | the loop over a row's values yields the concatenated encodings in one packet |
| QueryResponse.SendColumns | src-server/src/db_proxy/mod.rs:198-203 | the loop over the columns writes one definition packet each under consecutive ids |
| QueryResponse.SendRows | src-server/src/db_proxy/mod.rs:208-212 | the loop over the rows writes one packet each under consecutive ids |
| QueryResponse.HandleComQuery | src-server/src/db_proxy/mod.rs:177-232 | the answer is an error, an OK or a result set, by the outcome of connection, query and column count |
| QueryResponse.RowRoundTrip | src-server/src/db_proxy/mod.rs:610-624 | a client reads back every value: NULL as NULL, a string as itself, an integer as a decimal text of it, a temporal value as a question mark; and never takes a row for an EOF or ERR packet |
| QueryResponse.RowComesBackExactly | src-server/src/db_proxy/mod.rs:523-532 | the client reads these values back if and only if the payload of the row is shorter than 2^24 bytes |
| QueryResponse.EofRoundTrip | src-server/src/db_proxy/mod.rs:582-585 | an EOF packet tells a client no warnings and status 2 |
| QueryResponse.ColumnRoundTrip | src-server/src/db_proxy/mod.rs:592-608 | a client recovers both names and the type code of a column, and catalog "def", character set 33, length 2^32 - 1, no flags and no decimals |
| QueryResponse.ReportedTypeIsExact | src-server/src/db_proxy/mod.rs:682-709 | a column type is reported under another's code exactly for seven types the code names and all it does not name |
| QueryResponse.ReportedAsSibling | src-server/src/db_proxy/mod.rs:682-709 | the code reported for a type is the one the protocol gives to that type, or to the named sibling it is taken for |
| QueryResponse.AnswerRoundTrip | src-server/src/db_proxy/mod.rs:177-232 | a client that checks sequence ids understands every answer that fits its packets and touches nothing behind it: error 1105 of state HY000 with the message, affected rows and last id, or the table with the values of its rows in their order |
| QueryResponse.ConnectionRoundTrip | src-server/src/db_proxy/mod.rs:120-175 | the answers to the COM_QUERY commands of a connection, back to back, have one reading, and each reply in it tells its outcome |
| BinaryParameters.QuotedRoundTrip | src-server/src/db_proxy/mod.rs:472 | the quoted literal of a string denotes that string and ends where it should |
| BinaryParameters.ReadLenencStringOfStr | src-server/src/db_proxy/mod.rs:481-503 | the safe reader returns an encoded string shorter than 2^24 bytes and its size |
| BinaryParameters.ParseBinaryParametersSafe | src-server/src/db_proxy/mod.rs:385-479 | for every payload and count no index leaves its bounds, and there is one text per parameter unless the payload is shorter than six bytes |
| BinaryParameters.IntegerOfBytes | src-server/src/db_proxy/mod.rs:427-463 | whatever the payload, an integer is read from one, four or eight bytes, signed, and a value cut off gives NULL |
| BinaryParameters.StringOfBytes | src-server/src/db_proxy/mod.rs:471-475 | every type but the four integer types is taken for a string, and the next value is looked for at the size of this one |
| BinaryParameters.UnreadableStringIsEmpty | src-server/src/db_proxy/mod.rs:481-503 | a string announced longer than the data, or by a first byte that starts no length below 2^24, is read as the empty text |
| BinaryParameters.PayloadWithoutValues | src-server/src/db_proxy/mod.rs:385-403 | a payload that ends within the null bitmap gives NULL for every parameter, one shorter than six bytes gives no text |
| BinaryParameters.MissingTypesAreStrings | src-server/src/db_proxy/mod.rs:403-412 | types that are cut off or not sent count as strings, with the values behind the flag |
| BinaryParameters.BitmapBit | src-server/src/db_proxy/mod.rs:414-420 | the bit the parser tests in the client's bitmap is set exactly for a NULL |
| BinaryParameters.ParserFindsValues | src-server/src/db_proxy/mod.rs:390-412 | the parser finds bitmap, types and values where the client put them |
| BinaryParameters.IntendedRoundTrip | src-server/src/db_proxy/mod.rs:427-475 | in the intended reading every list of integers, signed and unsigned, strings shorter than 2^24 bytes and NULLs comes back, sent with types or without them after an execution with them |
| BinaryParameters.AsWrittenRoundTrip | src-server/src/db_proxy/mod.rs:385-479 | the reading as written recovers every list of safe kinds with strings shorter than 2^24 bytes, sent with types or without |
| BinaryParameterFaults.AsWrittenExactly | src-server/src/db_proxy/mod.rs:438-475 | for a sequence of parameter kinds all lists with strings shorter than 2^24 bytes are recovered if and only if no string has a non-NULL parameter behind it and, with types sent, all integers are below the sign bit and none is a SHORT, or, without types, none is an integer |
| BinaryParameterFaults.SampleDoesNotSurvive | src-server/src/db_proxy/mod.rs:471-473 | every other sequence of kinds comes with a list that is not recovered |
| BinaryParameterFaults.NoIntegerWithoutTypes | src-server/src/db_proxy/mod.rs:404-412 | no list with an integer is recovered from an execution without types |
| Substitution.SubstituteParameters | src-server/src/db_proxy/mod.rs:505-511 | the loop replaces the first question mark once for each parameter |
| Substitution.SubstituteIsTemplate | src-server/src/db_proxy/mod.rs:505-511 | for such a list the k-th question mark of any query becomes the k-th parameter and all else stays |
| Substitution.TemplateExactly | src-server/src/db_proxy/mod.rs:505-511 | for a list of parameters the loop gives the template for every query with a mark for each, if and only if behind a parameter with a question mark only bare question marks stand |
| Substitution.SubstituteLength | src-server/src/db_proxy/mod.rs:505-511 | for arbitrary parameters, no more than marks, the length is that of the query less the marks used plus all parameters |
| PreparedStatements.ConnectionState.HandlePrepare | src-server/src/db_proxy/mod.rs:234-285 | a prepare takes the next id, stores its text and writes the answer with the parameter count modulo 65536 |
| PreparedStatements.ConnectionState.HandleExecute | src-server/src/db_proxy/mod.rs:287-321 | a short payload and an unknown id are refused, otherwise the stored text runs with the parsed parameters put in |
| PreparedStatements.RefusedExactly | src-server/src/db_proxy/mod.rs:293-311 | through any history an execution is refused if and only if its payload is shorter than five bytes or its statement is not open, and a client reads error 1105 under the next sequence id with the message of the case |
| PreparedStatements.ConnectionState.HandleClose | src-server/src/db_proxy/mod.rs:371-383 | a close removes the id it names, and a payload too short is ignored |
| PreparedStatements.TableAgreesWithHistory | src-server/src/db_proxy/mod.rs:243-246 | after any history, wrapped ids included, the table holds under each id the latest text issued under it and not closed since |
| PreparedStatements.PreparedTextIsKept | src-server/src/db_proxy/mod.rs:300-313 | while fewer than 2^32 later prepares are made, a statement is found with its own text if and only if it has not been closed |
| PreparedStatements.IdsRepeatAfterFullCircle | src-server/src/db_proxy/mod.rs:244-245 | two prepares less than 2^32 apart get different ids, two exactly so far apart the same |
| PreparedStatements.KeysBelowNextId | src-server/src/db_proxy/mod.rs:243-246 | until the counter wraps, every key lies between 1 and the next id |
| PreparedStatements.LiteralMarks | src-server/src/db_proxy/mod.rs:472 | the literal of a parameter has as many question marks as its string, none for other kinds |
| PreparedStatements.ExecuteRunsTemplate | src-server/src/db_proxy/mod.rs:287-320 | through any history, executing an open statement, with types or again without, runs its text with each question mark replaced by the literal of its parameter, for parameters of safe kinds with no question mark before the last |
| PreparedStatements.ExecuteRunsTemplateExactly | src-server/src/db_proxy/mod.rs:287-320 | parameters of safe kinds come out as the template of every statement if and only if no string before the last parameter has a question mark |
| PreparedStatements.ReportedCountIsExact | src-server/src/db_proxy/mod.rs:242-258 | the parameter count a client learns is that of the question marks if and only if there are fewer than 65536 |
| PreparedStatements.TooManyMarks | src-server/src/db_proxy/mod.rs:313-320 | with more marks a client that sends the count it learnt has its text run as it stands, if that is 0, or with a text for every mark, all NULL if its payload is short |
| PreparedStatements.PrepareAnswerLeavesAnEof | src-server/src/db_proxy/mod.rs:251-279 | a client learns id, parameter count, parameters and zero warnings from the answer and stops in front of one unread EOF packet |
| PreparedStatements.ParamsAreNumbered | src-server/src/db_proxy/mod.rs:646-662 | the client learns parameter k under the name of a question mark and the decimal number k, with type code 253 |
| PreparedStatements.ParameterCodes | src-server/src/db_proxy/mod.rs:427-473 | the modelled parameters are sent under the protocol's codes of their types |
| PreparedStatements.LeftoverEofIsNoAnswer | src-server/src/db_proxy/mod.rs:278-279 | that packet is not an answer to the next command |
| RateLimiter.RateLimiter.CheckRateLimit | src-server/src/rate_limiter.rs:38-82 | one call refills, decides, answers and stores, for its own client only |
| RateLimiter.TokensAreLeastAllowance | src-server/src/rate_limiter.rs:50-60 | the tokens a call finds are the least, over all windows of the client's history that end with it, of burst_size plus requests_per_minute times length over sixty, less the calls admitted |
| RateLimiter.AdmittedByEveryWindow | src-server/src/rate_limiter.rs:50-81 | a call is answered with an admission if and only if in every window of the history ending with it sixty times the calls admitted, itself included, is at most sixty times burst_size plus requests_per_minute times the length in seconds |
| RateLimiter.WindowBound | src-server/src/rate_limiter.rs:50-81 | no window of a history admits more: sixty times the calls admitted is at most sixty times burst_size plus requests_per_minute times its length |
| RateLimiter.RepliesCarryTheLimit | src-server/src/rate_limiter.rs:55-81 | every reply carries requests_per_minute as its limit, and a clock reading before the last one brings no tokens |
| RateLimiter.RejectionsAreFree | src-server/src/rate_limiter.rs:59-81 | leaving any set of rejected calls out of a history changes the decision on no later call, nor the tokens it finds |
| RateLimiter.ResetFillsBucket | src-server/src/rate_limiter.rs:62-67 | waiting the reported seconds fills the bucket and one second less does not |
| RateLimiter.ResetPromiseIsKept | src-server/src/rate_limiter.rs:62-81 | after a rejection and the reported wait, burst_size calls in order are all admitted |
| RateLimiter.ResetIsNoLater | src-server/src/rate_limiter.rs:62-81 | one second before the reported moment the last of burst_size calls at once is rejected |
| RateLimiter.ResetWithoutRefill | src-server/src/rate_limiter.rs:62-67 | with zero requests per minute a rejection reports 2^64 - 1 seconds, or 0 if the burst is 0 besides |
| RateLimiter.RemainingIsExact | src-server/src/rate_limiter.rs:69-75 | the reported remaining is exactly the number of further calls admitted at that moment |
| RateLimiter.AdmittedResetFillsExactly | src-server/src/rate_limiter.rs:62-76 | an admitted call reports sixty seconds, after which the bucket is full if and only if no more tokens are missing than a minute brings |
| RateLimiter.ClientsAreIndependent | src-server/src/rate_limiter.rs:47-60 | whatever the interleaving of clients, a client's entry is that of its own calls alone |
| JobQueue.JobQueue.SubmitInsert | src-server/src/queue.rs:38-54 | the first section of a submission adds a pending job of that task and payload and that time of creation, without completion time and result |
| JobQueue.JobQueue.SubmitPush | src-server/src/queue.rs:56-57 | the second section appends the id to the queue |
| JobQueue.JobQueue.Dequeue | src-server/src/queue.rs:69-72 | the oldest id is taken, or none |
| JobQueue.JobQueue.MarkProcessing | src-server/src/queue.rs:74-79 | only the status of the job changes, to processing, and only if it exists |
| JobQueue.JobQueue.MarkCompleted | src-server/src/queue.rs:81-89 | status, result and completion time are set together to those given, the rest is kept |
| JobQueue.JobQueue.MarkFailed | src-server/src/queue.rs:92-98 | the status, with the error given, and the completion time are set, the rest is kept, the result too |
| JobQueueRuns.ExactlyOnceInOrder | src-server/src/main.rs:299-317 | in every interleaving, ids ended, in hand and queued are in order the ids the steps of the run pushed, none twice, as many have ended as steps end one, and no dequeued id lacks its job |
| JobQueueRuns.DrainedQueueIsFinished | src-server/src/main.rs:299-317 | with the consumer idle and the queue empty every pushed job has ended, in the order pushed |
| JobQueueRuns.QueueCanDrain | src-server/src/main.rs:299-317 | from any run that leaves the consumer idle, as many of its rounds as ids are queued bring all pushed ids to an end in order, whatever the outcomes |
| JobQueueRuns.JobsAreConserved | src-server/src/queue.rs:52-58 | the table's size is the submissions half made, plus queued, plus in hand (at most one), plus ended |
| JobQueueRuns.NextMovesForward | src-server/src/queue.rs:74-98 | a step moves a job by at most one stage and never back |
| JobQueueRuns.LifeCycle | src-server/src/queue.rs:74-98 | between any two moments of a run jobs move forward only, ended jobs are final, task, payload and creation time are kept |
| JobQueueRuns.FieldsFollowStatus | src-server/src/queue.rs:81-98 | completion time is set exactly on ended jobs and result exactly on completed ones |
| JobQueueRuns.HandlerGetsTheSubmittedJob | src-server/src/main.rs:306-308 | in every run with a submission of task and payload under an id, the job has that task, payload and time of creation to the end of the run, and the handler is given just these, once the job is being processed |
| JobQueueRuns.OutcomeIsKept | src-server/src/main.rs:308-316 | in every run a job ended with a result or an error has that outcome and that completion time to the end of the run |
| Worker.ThresholdWraps | src-server/src/worker.rs:231-233 | for every configuration the truncated test is bytes times 100 against limit times percentage, 1 to 100, modulo 2^64 |
| Worker.ThresholdIsExact | src-server/src/worker.rs:231-250 | while the product fits 64 bits, a figure is above the threshold if and only if it is above worker_threshold_percent of memory_limit_mb, a percentage below 1 counting as 1 and above 100 as 100 |
| Worker.LimitWithinBound | src-server/src/worker.rs:231-233 | it fits for limits up to 175921860444 MB, whatever the percentage |
| Worker.ReplyMakesDueExactly | src-server/src/worker.rs:226-278 | after a reply a restart is due if and only if the engine is on and a figure just read exceeds the configured percentage or the request limit is met |
| Worker.RecycledIsNotDue | src-server/src/worker.rs:103-108 | a recycled worker is due again if and only if its new process already exceeds the configured percentage |
| Worker.SectionsKeepReleased | src-server/src/worker.rs:138-220 | every critical section leaves the worker not draining, without pid and memory figures when without process, and its in-flight count alone |
| Worker.Worker.Start | src-server/src/worker.rs:99-135 | a successful spawn resets the counters, a failed one changes nothing |
| Worker.Worker.Stop | src-server/src/worker.rs:138-154 | process, pid and memory figures are cleared together, and only if there is a process |
| Worker.Worker.GracefulRecycle | src-server/src/worker.rs:170-192 | the drain loop waits 0 or exactly 2000 ms, then the process is replaced, unless the worker was draining |
| Worker.Worker.EnsureRunning | src-server/src/worker.rs:194-220 | a worker whose process is gone or exited is restarted, a running one left alone |
| Worker.Worker.RestartReason | src-server/src/worker.rs:226-271 | the three tests in turn come to one condition, in the configured percentage while the product fits 64 bits |
| Worker.Worker.UpdateStats | src-server/src/worker.rs:273-278 | a reply counts once and its figures replace the former ones |
| WorkerLifecycle.NextKeepsInv | src-server/src/handlers.rs:304-440 | each critical section of handlers, monitor and reload, and each exit of a process, keeps the in-flight counts and the released states of all workers |
| WorkerLifecycle.InFlightCountIsExact | src-server/src/handlers.rs:304-309 | in every interleaving a worker's in-flight count is the number of handlers between increment and decrement on it |
| WorkerLifecycle.DecrementNeverSaturates | src-server/src/handlers.rs:340-342 | in every interleaving a decrement finds a positive count |
| WorkerLifecycle.CountsReturnToZero | src-server/src/handlers.rs:413-437 | when all handlers have finished every count is zero, across recycles and resizes |
| Sections.EnsureDecides | src-server/src/handlers.rs:138-150 | a handler goes on if and only if its worker has a process after the section, and that process runs; a worker seen alive is left as it is |
| Sections.ReplyDecides | src-server/src/handlers.rs:340-355 | a reply is counted once, ends the request in flight and keeps its figures; the handler comes back for a recycle if and only if the engine is on and a figure exceeds the configured percentage or the request limit is met |
| Sections.BreakEnds | src-server/src/handlers.rs:412-416 | a broken exchange ends the request in flight and leaves the worker with a process that runs, or with none |
| Sections.TimeOutReplaces | src-server/src/handlers.rs:435-440 | a time-out ends the request in flight, counts a recycle, and has just the old process stopped and the new one, if spawned, running with no requests counted |
| Sections.RecycleReplaces | src-server/src/handlers.rs:357-363 | a reason found with a reply is acted upon in the same way |
| Sections.MonitorHolds | src-server/src/anti_oom.rs:231-242 | the monitor may take any workers of the pools, and may visit, evict and let go of each until it does |
| Sections.VisitJudges | src-server/src/anti_oom.rs:241-258 | a visit of the monitor recycles if and only if the figures of that moment, with the RSS just read, call for it, and otherwise changes the memory figures at most |
| Sections.EvictReplaces | src-server/src/anti_oom.rs:279-290 | an eviction counts a recycle, and has just the old process stopped and the new one, if spawned, running |
| Sections.ReloadRestarts | src-server/src/worker_pool.rs:69-105 | a reload stops exactly the process of the worker, and starts the worker whatever process it has then |
| Sections.RequestsCanEnd | src-server/src/handlers.rs:138-440 | every run can go on so that all its requests end, without another process being spawned, and then no worker counts a request in flight |
| Recycles.NoRecycleIsSkipped | src-server/src/worker.rs:170-192 | in every interleaving a worker's recycle count is the number of times handlers and monitor asked for its recycle |
| Recycles.RecycleStopsUnderRequests | src-server/src/worker.rs:166-192 | in every interleaving a recycle waits two seconds exactly when other requests are in flight on the worker, and all of them are in flight still when their process has been stopped |
| RequestLifetime.LifetimeBound | src-server/src/handlers.rs:339-363 | in every interleaving the replies counted for a process are fewer than the limit plus the handlers holding a reason |
| RequestLifetime.LimitHoldsAtRest | src-server/src/worker.rs:262-268 | when no handler holds a reason the limit itself bounds the counter |
| LifetimeIsReached.BoundIsReached | src-server/src/handlers.rs:339-363 | for every limit, number of handlers holding a reason and in flight, and number of failed exchanges there is a run that reaches both bounds |
| RequestsTaken.TakenBound | src-server/src/handlers.rs:304-440 | in every interleaving a process has taken fewer requests than the limit plus the handlers holding a reason, those in flight and the exchanges that failed and left it in place |
| RequestsTaken.LimitBoundsRequests | src-server/src/worker.rs:262-268 | when no exchange on a worker fails and no handler is busy on it, its process has taken fewer requests than the limit |
| LifetimeIsReached.FailuresAreNotCounted | src-server/src/handlers.rs:399-416 | the failed exchanges are needed: for every n there is a run with limit 1 in which the only process ever spawned takes n requests and none is counted |
| LifetimeIsReached.BoundNeedsALimit | src-server/src/pool_manager.rs:29-31 | the bound on replies holds of all runs if and only if the limit is not 0 |
| ProcessAccounting.OrphansArise | src-server/src/worker_pool.rs:69-111 | a step leaves a running process that nothing will stop if and only if, by the state before it, it starts a worker whose process is running or ends the last hold on a worker whose process goes on or is spawned; left behind, the process ends only by its own exit |
| ProcessAccounting.WorkersLost | src-server/src/handlers.rs:129-136 | a worker ceases to be reachable exactly when the last of pool, monitor and unfinished handlers lets go of it |
| ProcessAccounting.OrphansExactly | src-server/src/worker_pool.rs:69-111 | after any run the processes left behind are exactly those some step left and that have not exited since |
| ProcessAccounting.NoOrphansExactly | src-server/src/worker_pool.rs:69-111 | no process is left behind at any moment of a run if and only if no step of it meets that condition |
| ProcessAccounting.ReloadCanForget | src-server/src/handlers.rs:138-150 | such a run: a handler restarts the worker between a reload's stop and its start |
| ProcessAccounting.RetiredWorkerKeepsProcess | src-server/src/worker_pool.rs:81-92 | such a run: a request served by a worker that a reload has retired |
| ProcessAccounting.DroppedPoolKeepsProcess | src-server/src/pool_manager.rs:57-63 | such a run: a pool dropped because its second worker did not start |
| WorkerPool.WorkerPool.GetNextWorker | src-server/src/worker_pool.rs:53-66 | the loop takes the first available worker from the cursor on, or the next one after a full round |
| WorkerPool.PickIsNearest | src-server/src/worker_pool.rs:53-66 | the worker returned is the first available one at the cursor, modulo the number of workers, or upwards from it, the cursor modulo 2^64, and the cursor is left behind it |
| WorkerPool.NextIsUpwards | src-server/src/worker_pool.rs:53-66 | behind worker i the next call returns the next available worker upwards, modulo their number |
| WorkerPool.ReturnsFollowWindow | src-server/src/worker_pool.rs:53-66 | successive calls return the available workers on the cursor's way in order and skip none |
| WorkerPool.RoundRobin | src-server/src/worker_pool.rs:53-66 | any number of rounds returns the available workers over and over in one cyclic order, each once a round, no other ever |
| WorkerPool.EachOnceARound | src-server/src/worker_pool.rs:53-66 | each available worker is returned exactly once per round, every other never |
| WorkerPool.FallbackIsStartingWorker | src-server/src/worker_pool.rs:64-65 | with none available the starting worker is taken and the cursor moves by one more than the number of workers |
| AntiOom.MonitorPass | src-server/src/anti_oom.rs:233-290 | whatever state each visit and the eviction find a worker in, the pass leaves every worker in the state called for |
| AntiOom.JudgedByReading | src-server/src/anti_oom.rs:241-273 | the pass judges and weighs a worker by the /proc figure just read, or by the stored one without pid or reading |
| AntiOom.HeaviestIsFirstMaximum | src-server/src/anti_oom.rs:261-273 | the candidate weighs most among the workers not due with a positive RSS and is the first in scan order to do so |
| AntiOom.EachRecycledAtMostOnce | src-server/src/anti_oom.rs:241-290 | a pass recycles exactly the workers found due and, under pressure, the candidate, each once |
| AntiOom.EvictsAfterRecycleExactly | src-server/src/anti_oom.rs:277-290 | a pass evicts after recycling a due worker if and only if there is pressure, a worker due and another of positive RSS not due |
| Routing.OneStarPattern | src-server/src/pool_manager.rs:132-162 | a pattern with one star matches exactly the paths it reads like, for all paths, if and only if the star stands last or follows a leading slash with no other slash next, or the pattern fits no path |
| Routing.PlainPattern | src-server/src/pool_manager.rs:132-162 | a pattern without a star matches itself only |
| Routing.TrimExactly | src-server/src/pool_manager.rs:97-98 | trimming takes white space off both ends, and all of it |
| Routing.HeaderValueExactly | src-server/src/pool_manager.rs:96-112 | both sides trimmed and lower-cased, a value without a star matches exactly itself, with one at the end what starts like it, with one in front what ends like it, and a star between texts is no wildcard |
| Routing.HeaderMatchesExactly | src-server/src/pool_manager.rs:118-127 | header names are compared without regard to ASCII case, and a value that is no text never matches |
| Routing.ValueMatchIgnoresCase | src-server/src/pool_manager.rs:96-112 | header values are matched without regard to case, wildcards included, for any lower-casing that is one |
| Routing.FindHeaderMatch | src-server/src/pool_manager.rs:114-130 | the nested loops find a match exactly when one exists, in whatever order the map is walked |
| Routing.DecidesInOrder | src-server/src/pool_manager.rs:176-195 | header matches come before pattern matches, these before the first rule, and earlier rules before later ones |
| Routing.DecidingRuleIsUnique | src-server/src/pool_manager.rs:176-195 | first header match, else first pattern match, else first rule: that names one rule only |
| Routing.RulesAsConfigured | src-server/src/pool_manager.rs:38-94 | both tables are made rule by rule, in order, each rule with the name, patterns and headers configured |
| Routing.PoolManager.constructor | src-server/src/pool_manager.rs:38-80 | exactly the pools whose workers started exist, the table holds their rules in the order of the configuration, and every rule leads to a pool |
| Routing.PoolManager.UpdateRoutingTable | src-server/src/pool_manager.rs:82-94 | a reload keeps the pools and leaves the rules that lead to one, in the order of the configuration |
| Routing.ReloadOfSameConfig | src-server/src/pool_manager.rs:47-94 | reloading the first configuration leaves the table as it was if and only if no pool that did not start has the name of one that did |
| Routing.PoolManager.GetPoolNameForRequest | src-server/src/pool_manager.rs:176-195 | the deciding rule's pool is returned, none exactly for an empty table, and it exists |
| Routing.RouteAcrossReloads | src-server/src/handlers.rs:111-131 | a name picked under one lock still names a pool under the next, after any reloads between |
| Ipc.ReadPayload | src-worker/worker.php:88-115 | whatever the chunks, the loop ends with the whole payload or with failure, never a part, and succeeds exactly when the bytes are there |
| Ipc.Receive | src-worker/worker.php:71-115 | a request is received if and only if its header arrives in one piece and length and bytes permit |
| Ipc.FrameBytes | src-server/src/ipc.rs:41-52 | a frame is the length in four bytes, high byte first, and the payload |
| Ipc.DeliveredExactly | src-server/src/ipc.rs:41-52 | a request with anything behind it, the whole cut off anywhere, is received as sent if and only if nothing of it is cut off, it is within the worker's limit and shorter than 2^32 bytes |
| Ipc.ResponseRoundTrip | src-worker/worker.php:283 | the server receives a whole response as sent, whatever follows it, if and only if it is shorter than 2^32 bytes |
| Ipc.CutResponseFails | src-server/src/ipc.rs:54-69 | a response cut off anywhere is not received |

## Left out

- The rows answered to COM_STMT_EXECUTE: the null bitmap of `build_row_packet_binary` is never filled, so rows with a NULL cannot be read back; only the query that is run is modelled.
- Floating-point row values, and the parameter types DOUBLE, FLOAT and the temporal ones, which the parser takes for strings.
- A row error in the middle of a result set, after which the proxy drops the connection.
- Handshake and authentication of the proxy, and its other one-packet commands.
- Backslash escapes in SQL literals.
- RateLimiter.AdmittedByEveryWindow: does not model the rounding of `f64`.
- WorkerLifecycle.InFlightCountIsExact: does not model a handler future dropped when its client disconnects, which would leave the count too high.
- WorkerPool.RoundRobin: does not model the jump in the order when the cursor wraps at 2^64, or workers whose availability changes during the calls.
- A pool of zero workers, on which `get_next_worker` divides by zero.
- JSON, the HTTP layer, static files, logging, metrics, configuration loading and the job handlers.
- Reading cgroup and /proc files: their results are parameters.
