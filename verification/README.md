# The job queue's lease and fencing protocol

The repository is a job queue on PostgreSQL. Producers enqueue jobs; workers claim one job at a time under
a random lease token, extend the lease with heartbeats, and acknowledge with Complete or Fail. This project
models its job table, its transactions, its worker and its data code, and proves what they guarantee
together over all runs. `dafny verify dfyconfig.toml` checks everything.

## How the model is built

- `Base`, `Errors`, `Values`: octet strings, limits, error identities, the public requests and their
  validators. A Go error is the set of sentinels that `errors.Is` finds in it, so joined errors match several.
- `Utf8`, `FailureText`, `Retry`, `Fingerprint`, `Rows`: the data code. Loops, hash writes, the reused scalar
  buffer and the scanners are imperative methods, each proved equal to a function.
- `Order`, `Lifecycle`: ORDER BY with LIMIT, and the table as a state machine. One SQL statement that changes
  rows is one event; a run is a sequence of events, `After` is the table it leaves and `Valid` says that each
  event was possible when it was taken.
- `JobTable`: the repository operations as methods that change a map of rows in place; a ghost history ties
  the rows to a valid run. Between the two statements of an operation any other transactions may commit
  (the argument `others`).
- `Statements`: the claim statement in the words of its own WHERE, ORDER BY, LIMIT and SET clauses.
- `Stored`, `Fencing`, `Outcomes`, `Budget`, `Queueing`, `Paging`, `DeadLetters`: what holds of every run.
- `Transact`, `Transactions`: one transaction with its deferred rollback; any number of concurrent
  transactions with row locks, SKIP LOCKED, blocked inserts, updates that find their condition false, second
  statements with later snapshots, and commits of unknown outcome.
- `Idempotency`, `Refusals`: what enqueue and the refused operations promise among such transactions.
  `Scenarios` has runs from the empty table in which the exceptions to the simple promises show.
- `Workers`, `WorkerProtocol`, `WorkerEndings`, `WorkerCalls`: one `Run` as interleaved steps of the main loop, the heartbeat
  goroutine, the handler, the parent context and a store that may answer anything; a monitor that every run
  obeys, and what it means for a log of observable events. The end of the attempt's context is one of these
  events, since the handler can ask for its cause. `WorkerRefusals` reads a Worker's calls as transactions.
- `Fleet`, `FleetSafety`: any number of workers over the table, with calls that may commit although their
  client was told nothing certain, or may commit after it gave up.

## Assumptions

- Lease tokens and job IDs are new when drawn (`FreshAfter`).
- The database clock never goes back, is past year 1 and stays 24 hours below the end of its range (`ClockOk`).
- One SQL statement is one atomic step at one reading of the clock; `clock_timestamp()` does not advance
  within a statement.
- SHA-256 is a function parameter with 32-octet results. Statements about fingerprints hold up to a
  collision on the requests at hand; no injectivity is assumed.
- IDs sort by octet. They are lower-case hexadecimal, where the usual collations agree with that order.
- In the fleet, leases are used only by the worker that claimed them. Other clients enqueue, cancel,
  redrive and delete rows at any time.

## What is not as one might expect

- A refusal with ErrLeaseLost is not always final. An update that finds its condition false on the committed
  row does not wait for an uncommitted version. If a heartbeat of the same lease, or the claim that drew it,
  is still undecided (slow, or in doubt at its client) and commits later, the lease is accepted again:
  `SlowHeartbeatRun` and `DoubtfulClaimRun`. `RefusalIsFinalIff` gives the exact condition in terms of these
  calls, and `RefusalIsFinalOnceAnswered` what a caller can do: have a definite answer to each of them first.
  A Worker always does, so its refusals are final (`WorkerRefusalIsFinal`). A refusal with ErrCanceled is
  final for everyone (`CanceledAnswerIsFinal`).
- The text that `boundedFailure` keeps is not always a prefix of the handler's text: the cut at 4093 octets
  can split a four-octet character, and then U+FFFD is kept in its place. `KeptTextIsPrefix` says exactly when and
  `KeptTextCanEndInReplacement` gives a text.
- A heartbeat error counts as the attempt's own end when it matches `context.Canceled` and the handler ended
  first, whatever else it matches. A lost lease joined with a context cancellation is therefore followed by
  an acknowledgement. `AcknowledgedIff` says exactly which errors can be, over all runs, `FailedHeartbeat` adds
  what the first cause must have been, and `JoinedLossIsTakenForTeardown` gives a run.
- A job whose zero instants carry a location other than UTC reads back with UTC zero instants.
  `ScanRoundTrip` gives the exact condition and `ZeroOfAnotherLocation` a job.
- The fallback of a conflicting enqueue can find nothing although its key is taken: its row is deleted after
  the fallback's snapshot and another enqueue takes the key over (`MissedTakeoverRun`). It answers from the
  row of the conflict if and only if that row still exists (`FallbackFindsIff`).

## Model

| member | source | states |
|---|---|---|
| Utf8.ToValidIsValid | pkg/jobs/worker.go:270 | replacing ill-formed runs gives well-formed UTF-8 (section 4 of RFC 3629) |
| FailureText.BoundedFailure | pkg/jobs/worker.go:261-281 | the loop that moves the end back lands on the longest valid prefix that leaves room for the ellipsis |
| FailureText.BoundedIsClean | pkg/jobs/worker.go:261-281 | for every octet string: valid UTF-8, no NUL, at most 4096 octets |
| FailureText.BoundedIdentity | pkg/jobs/worker.go:272-274 | unchanged if and only if the text is already clean and short enough |
| FailureText.BoundedIdempotent | pkg/jobs/worker.go:261-281 | bounding twice is bounding once |
| FailureText.TruncationIsMaximal | pkg/jobs/worker.go:275-280 | truncated text is the longest rune-boundary prefix of the sanitised text that fits before the ellipsis |
| FailureText.KeptTextIsPrefix | pkg/jobs/worker.go:266-269 | long clean text keeps a prefix of itself if and only if the cut does not follow the third octet of a four-octet character |
| FailureText.KeptTextCanEndInReplacement | pkg/jobs/worker.go:269 | a clean text whose kept part is not a prefix of it |
| Retry.Delay | pkg/jobs/retry.go:12-27 | min(Initial * 2^(a-1), Maximum) for every int64 attempt, without overflow, in at most 47 rounds; refused exactly for invalid policies and attempts below 1 |
| Retry.DelayMonotone | pkg/jobs/retry.go:12-27 | later attempts never wait less and every delay stays within the policy |
| Retry.DelayWholeMicroseconds | pkg/jobs/worker.go:129-131 | a policy in whole microseconds yields delays in whole microseconds |
| Fingerprint.PutUint64 | pkg/jobs/values.go:29-58 | the reused scalar buffer holds the big-endian octets of its last value |
| Fingerprint.WriteFingerprintField | pkg/jobs/values.go:54-59 | appends the length-framed field to the running hash |
| Fingerprint.WriteScalars | pkg/jobs/values.go:33-48 | appends the attempt budget and the optional availability instant |
| Fingerprint.RequestFingerprint | pkg/jobs/values.go:26-52 | the digest of exactly the framed preimage |
| Fingerprint.PreimageInjective | pkg/jobs/values.go:26-59 | equal preimages if and only if queue, kind, payload, max attempts and availability instant agree, for any lengths and any int64 seconds |
| Fingerprint.ValidIsRepresentable | pkg/jobs/values.go:68-92 | validated requests lie in the range where the framing is injective |
| Values.LeaseBounds | pkg/jobs/values.go:132-147 | exactly which lease durations are accepted, as the statements take them |
| Values.FailureBounds | pkg/jobs/values.go:152-166 | exactly which failures are accepted |
| Values.StoredTimeIsPgTime | pkg/jobs/values.go:110-116 | which stored timestamps the public contract accepts |
| Rows.BoundedBytesScanner.ScanBytes | pkg/jobs/rows.go:60-68 | NULL and out-of-bounds lengths are refused and leave the old value |
| Rows.BoundedTextScanner.ScanBytes | pkg/jobs/rows.go:88-103 | presence is separate from content, so NULL and the empty text differ |
| Rows.ScanJobRow | pkg/jobs/rows.go:112-209 | column by column, exactly the rows with acceptable columns and a valid job are accepted |
| Rows.ScanJobWithFingerprint | pkg/jobs/rows.go:123-134 | the same with the stored fingerprint of exactly 32 octets |
| Rows.ScanRoundTrip | pkg/jobs/rows.go:141-265 | encoding a valid job and scanning it gives the same job back, if and only if its zero instants are in UTC |
| Rows.ZeroOfAnotherLocation | pkg/jobs/rows.go:190-209 | a valid job that does not come back from the round trip |
| Rows.ScanInjective | pkg/jobs/rows.go:88-103 | two accepted rows that give the same job are the same row: NULL, empty and zero are never confused |
| Rows.AcceptedRowsMeetChecks | pkg/jobs/rows.go:218-265 | everything that the scanner accepts meets the CHECK constraints |
| Rows.ReadableRowsScan | pkg/jobs/migrations/000001_jobs.sql:19-47 | which rows within the constraints scan, and to which job |
| Order.OrderBy | pkg/jobs/lifecycle.go:28-41 | ORDER BY lists every key once, ascending |
| Order.AscendingUnique | pkg/jobs/lifecycle.go:28-41 | there is only one such list |
| Order.LessIsTextOrder | pkg/jobs/lifecycle.go:28-41 | the order of IDs is text order by octets |
| Order.FirstBeforeRest | pkg/jobs/lifecycle.go:12-27 | LIMIT keeps the smallest keys |
| Lifecycle.ClockMonotone | pkg/jobs/lifecycle.go:12-78 | the clock readings of a run ascend |
| Lifecycle.TokenWasDrawn | pkg/jobs/lifecycle.go:42-51 | tokens on rows are tokens of earlier claims |
| Lifecycle.PickedRows | pkg/jobs/lifecycle.go:12-51 | a claim reaps exhausted rows and picks an eligible one, disjoint and never locked |
| Stored.RowsReadable | pkg/jobs/rows.go:218-265 | every row of every reachable table meets all CHECK constraints and scans to the job it denotes |
| Stored.ValidationIsTight | pkg/jobs/values.go:68-92 | a request passes validation exactly if the row it makes meets all constraints, reads back, and keeps its availability instant |
| Stored.GrantIsTight | pkg/jobs/values.go:132-147 | a claimed row reads back exactly if worker and token are valid |
| Stored.FailIsTight | pkg/jobs/values.go:152-166 | a failed row reads back exactly if the message is valid |
| Stored.ChangeReadable | pkg/jobs/lifecycle.go:12-78 | each single update keeps a row readable |
| Stored.KeysStayUnique | pkg/jobs/migrations/000001_jobs.sql:50-51 | at most one row for each queue and non-empty key |
| JobTable.PostgreSQL.Get | pkg/jobs/operations.go:47-61 | the stored job, or not found, or an invalid ID |
| JobTable.PostgreSQL.Enqueue | pkg/jobs/enqueue.go:108-136 | inserts exactly when the key is free, and then answers a pending job with no attempts that is available from the requested instant, or from now; otherwise, after whatever committed in between, the stored job, the conflict, or an error if no row is left |
| JobTable.PostgreSQL.ReapRows | pkg/jobs/lifecycle.go:12-27 | the exhausted rows die one by one, all others stay |
| JobTable.PostgreSQL.SelectForClaim | pkg/jobs/lifecycle.go:12-41 | both selections see the table as the statement found it |
| JobTable.PostgreSQL.UpdateForClaim | pkg/jobs/lifecycle.go:12-51 | the row-by-row updates have the effect of the claim event |
| JobTable.PostgreSQL.Claim | pkg/jobs/lifecycle.go:117-146 | the first due unlocked job of the requested queue, with the token, the worker, one more attempt and an expiry of now plus the lease; or, if none is due, ErrNoJob with the reaping kept; rows of other queues and locked rows stay |
| JobTable.PostgreSQL.Heartbeat | pkg/jobs/lifecycle.go:155-178 | a live lease, and only that, is extended to now plus the duration; else the row's classification at the second statement, after whatever committed in between |
| JobTable.PostgreSQL.Complete | pkg/jobs/lifecycle.go:184-189 | a live lease, and only that, makes the job succeeded now, with no other column changed; else as for Heartbeat |
| JobTable.PostgreSQL.Fail | pkg/jobs/lifecycle.go:199-207 | a live lease, and only that, makes the job dead now if the failure is permanent or the attempts are used up, else pending from now plus the delay, with the message; else as for Heartbeat |
| JobTable.PostgreSQL.Cancel | pkg/jobs/operations.go:151-178 | an unfinished job becomes canceled now, with no other column changed; otherwise the second statement's row decides: repeated cancel, conflict or not found |
| JobTable.PostgreSQL.Redrive | pkg/jobs/operations.go:185-204 | only a dead job becomes pending again, due now, with no attempts and no error; otherwise the second statement tells conflict from not found |
| JobTable.PostgreSQL.Others | pkg/jobs/lifecycle.go:216-229 | what other transactions commit between two statements extends the run and keeps the table its result |
| JobTable.ClaimEffect | pkg/jobs/lifecycle.go:12-51 | reaping and then granting row by row equals the atomic event |
| Fencing.DeadStaysDead | pkg/jobs/lifecycle.go:53-78 | an issued lease that is not live never becomes live again |
| Fencing.RefusalIsFinal | pkg/jobs/lifecycle.go:53-80 | along a run of atomic events, once one use of a lease is refused, every later use is refused |
| Fencing.AcknowledgedOnce | pkg/jobs/lifecycle.go:60-78 | a token gets at most one accepted Complete or Fail, and nothing afterwards |
| Fencing.SupersededLease | pkg/jobs/lifecycle.go:42-51 | a newer claim ends every older lease on the job for good |
| Fencing.TokenWasIssued | pkg/jobs/lifecycle.go:42-51 | the one token that can be accepted for a row was issued by the newest claim of the job |
| Fencing.UseWasIssued | pkg/jobs/lifecycle.go:53-78 | every accepted use goes back to exactly one claim |
| Fencing.ReclaimAfterExpiry | pkg/jobs/lifecycle.go:28-51 | unless the holder failed the job, it is not claimed again before the last expiry granted to the holder, through reaping, redrive, cancellation and deletion |
| Fencing.TerminalIsFinal | pkg/jobs/operations.go:28-40 | succeeded and canceled rows never change in any column |
| Fencing.CanceledIsTruthful | pkg/jobs/lifecycle.go:237-255 | ErrCanceled means that the row is canceled, now and later |
| Fencing.RetryDelayRespected | pkg/jobs/lifecycle.go:68-78 | a rescheduled job is not claimed before its delay has passed |
| Statements.ClausesAreModelled | pkg/jobs/lifecycle.go:12-78 | the row conditions of the model are the WHERE clauses of the statements |
| Statements.ClaimReturnsEarliestDue | pkg/jobs/lifecycle.go:28-41 | the claimed row is due in the requested queue and unlocked, and precedes every other such row by due time, creation and ID |
| Statements.NoJobMeansNoneDue | pkg/jobs/lifecycle.go:28-41 | a claim finds nothing only if no unlocked row of the queue is due |
| Statements.ClaimReapsEarliest | pkg/jobs/lifecycle.go:12-27 | exactly the first hundred of the unlocked rows of the queue whose final lease has expired are reaped |
| Statements.ClaimLeaves | pkg/jobs/lifecycle.go:20-51 | every column of reaped, claimed and other rows after a claim |
| Outcomes.CompletionSucceeds | pkg/jobs/lifecycle.go:60-66 | an accepted Complete makes the job succeeded, for good |
| Outcomes.FailedForGood | pkg/jobs/lifecycle.go:68-78 | after a permanent or final failure the job is dead with its message and is not claimed until a redrive |
| Outcomes.AvailabilityRespected | pkg/jobs/enqueue.go:13-19 | a job enqueued for a later instant is not claimed before it, whatever happens to it |
| Outcomes.LeaseIsHonoured | pkg/jobs/lifecycle.go:42-58 | a granted lease works until it expires, unless the job is canceled or deleted or the holder used the lease |
| Outcomes.CancellationHolds | pkg/jobs/operations.go:28-33 | an unfinished job that is canceled stays canceled without a lease |
| Outcomes.RedriveRevives | pkg/jobs/operations.go:35-40 | a redriven job can be claimed at once, with all its attempts before it |
| Fencing.AttemptWhileHeld | pkg/jobs/lifecycle.go:42-51 | the attempt number is constant while a token stays on the row |
| Fencing.SucceededWasCompleted | pkg/jobs/lifecycle.go:60-66 | only an accepted Complete makes a row succeeded |
| Budget.AttemptsCountClaims | pkg/jobs/lifecycle.go:42-51 | attempts is the number of committed claims since enqueue or the last redrive |
| Budget.ClaimBudget | pkg/jobs/operations.go:35-40 | claims of a job over a whole run are at most max_attempts of its enqueue * (1 + redrives), also if it has been deleted since |
| Budget.MeasureFalls | pkg/jobs/lifecycle.go:12-78 | every state change except heartbeat and redrive lowers the measure |
| Budget.ChangesBetweenRedrives | pkg/jobs/lifecycle.go:12-78 | between redrives a job changes at most 2 * max_attempts + 1 times |
| Queueing.ClaimTouchesAtMost101 | pkg/jobs/lifecycle.go:12-51 | one claim changes at most 101 rows, none of them locked |
| Queueing.ClaimIsLeast | pkg/jobs/lifecycle.go:28-41 | the claimed row is the least unlocked eligible row by due time, creation and ID |
| Queueing.ReapingProgress | pkg/jobs/lifecycle.go:12-27 | whatever runs in between, each unhindered claim removes 100 of the expired exhausted rows |
| Queueing.AllReaped | pkg/jobs/lifecycle.go:12-27 | n such rows are gone after ceil(n/100) claims, also if none of them returns a job |
| Queueing.ReapedStaysDead | pkg/jobs/lifecycle.go:12-27 | a reaped job had used up its attempts and, until a redrive, stays dead in every column and is never claimed, whatever else happens |
| Queueing.DrainQueue | pkg/jobs/lifecycle.go:28-51 | a lone claim-and-complete loop during which no other job falls due returns all due jobs once, in order, and then ErrNoJob; jobs scheduled for later and unexpired leases of others may be in the queue |
| Queueing.DueOrder | pkg/jobs/lifecycle.go:28-41 | that order lists exactly the eligible jobs by due time, creation and ID |
| DeadLetters.ScanPage | pkg/jobs/operations.go:120-140 | the loop over the result rows collects every job, or reports a corrupt or foreign row |
| DeadLetters.ListDead | pkg/jobs/operations.go:99-141 | input errors, the page limit and the page's jobs |
| DeadLetters.PageJobs | pkg/jobs/operations.go:22-26 | listed jobs are dead jobs of the queue in the order of finish time and ID |
| DeadLetters.PageIsFirst | pkg/jobs/operations.go:22-26 | a dead job of the queue after the cursor is left out only by a full page of jobs before it |
| DeadLetters.CursorRoundTrip | pkg/jobs/operations.go:99-118 | the cursor of a listed job is accepted and stands at its row |
| DeadLetters.ReachableIsSound | pkg/jobs/rows.go:218-265 | every table that a run leaves can be listed |
| DeadLetters.PagesJoinUp | pkg/jobs/operations.go:22-26 | pages of any sizes join up to the sorted dead jobs, without gaps or repeats, and end |
| Paging.ReadPagesExact | pkg/jobs/operations.go:22-26 | the same for any keys in a strict order |
| Transact.Transact | pkg/jobs/postgres.go:64-91 | the calls made, the durable effect, the value and the reported error for all replies of the session |
| Transact.OneTransaction | pkg/jobs/postgres.go:64-91 | one begin, at most one commit and only after a body without error, and one rollback at the end of a begun transaction |
| Transact.NothingIsHidden | pkg/jobs/postgres.go:75-89 | the error that ended the transaction is always reported, and a failed rollback beside it unless the transaction was closed |
| Transact.AnswerIsTrue | pkg/jobs/postgres.go:64-91 | no error means durable; an error without the unknown outcome means not durable |
| Transact.DoubtIsAFailedCommit | pkg/jobs/postgres.go:87-89 | the outcome is unknown exactly if the one commit was attempted and failed |
| Transact.EndingsAreModelled | pkg/jobs/postgres.go:75-91 | every ending of such a session is an ending of the interleaving model, with the same effect and answer |
| Transact.NoJobIsDurable | pkg/jobs/lifecycle.go:129-146 | ErrNoJob is reported only after the claim's transaction, with its reaping, committed |
| Transactions.InterleavingsAreAtomicRuns | pkg/jobs/postgres.go:64-91 | in every interleaving, and for every way in which the open transactions may end, the committed table is what the committed statements leave one at a time, as a valid run |
| Transactions.ClaimAvoidsLocks | pkg/jobs/lifecycle.go:18-39 | a claim takes no row that is locked, also not FOR KEY SHARE |
| Transactions.AlwaysTruthful | pkg/jobs/postgres.go:64-91 | in every interleaving, success means committed, and an error or the answer of a refused or conflicting operation means that nothing of it committed |
| Transactions.ReplyIsFinal | pkg/jobs/postgres.go:64-91 | what a client was told stays true: a definite answer means an ended transaction, and an ended transaction does not change sides |
| Transactions.ErrorContributesNothing | pkg/jobs/lifecycle.go:216-229 | an operation that returned an error without the unknown outcome contributes no step |
| Refusals.RefusalIsFinalIff | pkg/jobs/lifecycle.go:216-255 | after a refused use of a drawn lease, some continuation accepts the lease again if and only if its claim or a heartbeat of it is undecided and the expiry that this grants is still to come |
| Refusals.InFlightIsUndecided | pkg/jobs/lifecycle.go:28-58 | in every interleaving, an uncommitted version honours a lease exactly when such a call is undecided |
| Refusals.RefusalIsFinalOnceAnswered | pkg/jobs/lifecycle.go:216-255 | a refusal is final once the claim and all heartbeats of the lease have had definite answers |
| WorkerRefusals.EarlierCallsAreSettled | pkg/jobs/worker.go:60-71 | when a Worker calls the store, each earlier call of its has had its reply, with no unknown outcome |
| WorkerRefusals.WorkerRefusalIsFinal | pkg/jobs/worker.go:160-211 | in every interleaving, no continuation accepts a lease again whose use by its Worker was refused |
| Refusals.RefusedAnswers | pkg/jobs/operations.go:151-204 | what a refused operation is answered, by the row that its second statement sees |
| Refusals.RefusedThenAccepted | pkg/jobs/lifecycle.go:53-78 | from every state with a live unlocked lease, a run in which Complete is answered with ErrLeaseLost and the same Complete is accepted at the same clock reading once a slow heartbeat commits |
| Scenarios.SlowHeartbeatRun | pkg/jobs/lifecycle.go:53-78 | such a run from the empty table |
| Scenarios.DoubtfulClaimRun | pkg/jobs/lifecycle.go:129-142 | a run from the empty table in which the claim is in doubt, its token is refused, and the token is accepted once the claim commits |
| Refusals.CanceledAnswerIsFinal | pkg/jobs/lifecycle.go:237-255 | in every interleaving an answered ErrCanceled is true, and no use of a lease on that job is accepted any more |
| Idempotency.SharedRowStays | pkg/jobs/enqueue.go:21-23 | the row that the fallback has locked stays committed, with its identity, to the end of the transaction |
| Idempotency.FallbackFindsIff | pkg/jobs/enqueue.go:108-130 | whatever ran since the conflict, the fallback answers from the row that the insert conflicted with if and only if that row still exists; if not, a committed deletion removed it |
| Idempotency.FallbackFinds | pkg/jobs/enqueue.go:127-130 | as long as no deletion commits, the fallback finds a row |
| Scenarios.MissedTakeoverRun | pkg/jobs/enqueue.go:127-130 | a run from the empty table in which the fallback fails although its key is taken |
| Idempotency.DuplicateIsRecognised | pkg/jobs/enqueue.go:131-136 | the fingerprint comparison accepts exactly repeats of the creating request, and the returned job has the request's queue, kind, payload and budget |
| Idempotency.DuplicateAnswer | pkg/jobs/enqueue.go:108-136 | in every interleaving, an enqueue that met a conflict answers with the found row's ID and the request's own queue, kind, payload and budget if and only if it repeats the creating request, else with the conflict |
| Idempotency.SameKeySameId | pkg/jobs/enqueue.go:108-136 | in every interleaving, as long as a committed job exists, every later enqueue that meets a conflict under its queue and key finds exactly that job |
| Idempotency.CommittedKeysUnique | pkg/jobs/migrations/000001_jobs.sql:50-51 | in the committed table of every interleaving no two rows share a queue and key |
| Workers.CallHandler | pkg/jobs/worker.go:242-252 | nil exactly for a normal nil return, never for a panic |
| Workers.AlwaysShaped | pkg/jobs/worker.go:143-158 | the heartbeat goroutine lives exactly from the accepted claim to the join |
| Workers.NeverStuck | pkg/jobs/worker.go:53-90 | until Run returns some step other than a timer's is possible, except while polling |
| Workers.JoinIsReached | pkg/jobs/worker.go:155-158 | from the handler's end the heartbeat is joined within ten steps of all parties, plus two for every tick that still starts a heartbeat |
| WorkerProtocol.RunsObeyProtocol | pkg/jobs/worker.go:53-234 | all interleavings show only events that the monitor permits, the end of Run among them |
| WorkerProtocol.NoBusyLoop | pkg/jobs/worker.go:72-77 | after ErrNoJob a poll interval passes before the next claim |
| WorkerEndings.RunEndsForAReason | pkg/jobs/worker.go:53-90 | Run returns exactly what the last reply obliges it to, or the error of the ended parent, or the error of a lost heartbeat, or ErrInvalid for a refused configuration |
| WorkerEndings.CanceledJobIsDropped | pkg/jobs/worker.go:168-173 | a heartbeat that learns of the cancellation of its job does not end Run |
| WorkerEndings.LostLeaseEndsRun | pkg/jobs/worker.go:168-174 | a heartbeat that lost its lease ends Run with exactly its error |
| WorkerProtocol.UnknownEndsTheRun | pkg/jobs/worker.go:66-71 | after any unknown outcome, also joined with ErrNoJob or ErrCanceled, no store call follows and the returned error matches it |
| WorkerProtocol.CallsNeverOverlap | pkg/jobs/worker.go:143-158 | the two goroutines never have two store calls in flight |
| WorkerProtocol.AckFollowsHandler | pkg/jobs/worker.go:175-211 | every acknowledgement is the only one of the handler that ended last: Complete exactly for nil, otherwise the Fail that its error calls for |
| WorkerProtocol.AckEndsTheAttempt | pkg/jobs/worker.go:143-211 | the calls of one attempt are heartbeats and then at most one acknowledgement |
| WorkerProtocol.HandlerFollowsClaim | pkg/jobs/worker.go:63-88 | a handler runs once for each claim answered without error, and only then |
| WorkerProtocol.ParentAliveBeforeAck | pkg/jobs/worker.go:163-165 | no acknowledgement without a look at a live parent after the handler's end |
| WorkerProtocol.FailedHeartbeat | pkg/jobs/worker.go:160-174 | after a failed heartbeat no further heartbeat, and an acknowledgement only if the error matches context cancellation and no unknown outcome and the handler's end was the first cause of the attempt's end |
| WorkerProtocol.ClaimedIsRunning | pkg/jobs/worker.go:98-106 | an accepted claimed job is running, at attempt 1 or later, with a well-formed lease |
| WorkerCalls.NeverInvalid | pkg/jobs/worker.go:113-133 | a validated Worker never makes a store call that PostgreSQL refuses as ErrInvalid |
| WorkerCalls.ConfigBounds | pkg/jobs/worker.go:113-124 | an accepted configuration leaves room for two heartbeats in a lease |
| WorkerCalls.AckExists | pkg/jobs/worker.go:188-196 | the retry policy never refuses an accepted attempt |
| WorkerCalls.InvalidConfigDoesNothing | pkg/jobs/worker.go:57-59 | a Worker that fails validation calls neither store nor handler |
| WorkerCalls.AcknowledgedIff | pkg/jobs/worker.go:160-174 | over all runs, exactly which heartbeat errors can be followed by an acknowledgement of the attempt |
| WorkerCalls.LateHeartbeat | pkg/jobs/worker.go:160-178 | a run that completes the attempt after any such error |
| WorkerCalls.JoinedLossIsTakenForTeardown | pkg/jobs/worker.go:166-169 | a run in which a lost lease joined with context cancellation is followed by Complete |
| Fleet.Reachable | pkg/jobs/worker.go:53-90 | the invariant of N workers: every committed lease event has a caller, every delivered job its own committed claim |
| FleetSafety.HandlersRunForCommittedClaims | pkg/jobs/worker.go:60-88 | no handler runs for a claim that did not commit or whose outcome was unknown |
| FleetSafety.OneHandlerPerClaim | pkg/jobs/worker.go:60-88 | across all workers no claim is handled twice |
| FleetSafety.CompletionHasNilReturn | pkg/jobs/worker.go:175-178 | every accepted Complete has a handler that returned nil under that lease |
| FleetSafety.SucceededMeansHandled | pkg/jobs/lifecycle.go:60-66 | a row is succeeded only if a handler returned nil under exactly the accepted token |
| FleetSafety.RetriesKeepTheirDelay | pkg/jobs/retry.go:12-27 | a job failed through a Worker on attempt n is not claimed again by anyone before Delay(n) has passed |

## Left out

- Counts: the per-state totals are one aggregate query without a rule that spans operations.
- EnqueueTx and its isolation check: the caller's transaction decides what commits with the job.
- Transactions of more than one row-changing statement: the library has none; an enqueue is its INSERT, or a
  conflict followed by its fallback.
- A statement whose row meets its condition waits for the row's lock, and takes effect, with its condition
  read again, when it gets it; deadlocks and statement errors inside a transaction are its abort.
- A fallback that meets an uncommitted claim waits for it; the model lets it read the committed row, which only
  adds interleavings.
- Timers: a tick or an elapsed poll may happen at any time, so nothing is said about real time or liveness.
- A handler that ends its goroutine with runtime.Goexit: Run ends with it.
- Handlers that panic with a value whose recovery panics again, and error texts of the library.
- SHA-256, crypto/rand, query modes, wire formats, indexes and plans.
- nil contexts, nil databases and nil-like values: single guards at the public entry points.
- Fleet.Reachable: leases used by somebody other than the claiming worker are not covered, and refused uses
  leave no event in the fleet's table.
