/** The repository operations over one mutable table: pkg/jobs/lifecycle.go, enqueue.go and
    operations.go. Between the two statements of an operation any other transactions may commit. */
module JobTable {
  import opened Base
  import opened Errors
  import opened Values
  import opened Rows
  import opened Order
  import opened Lifecycle
  import opened Stored
  import opened Statements
  import Fingerprint

  datatype Answer = Returned(job: Job) | Error(sentinel: Sentinel)

  /** The job of a fresh request. */
  function NewJob(id: Bytes, r: EnqueueRequest, now: Time): Job {
    Job(id, r.queue, r.kind, Some(r.payload), r.key, Pending, 0, r.maxAttempts,
        if r.availableAt.IsZero() then now else r.availableAt, now, now, NO_LEASE, [], ZERO_TIME, [], ZERO_TIME)
  }

  /** A job whose attempt has just begun. */
  function Begun(job: Job, token: Bytes, worker: Bytes, now: Time, until: Time): Job {
    job.(state := Running, attempts := job.attempts + 1, lease := Lease(job.id, token), owner := worker, leaseUntil := until,
         updatedAt := now, finishedAt := ZERO_TIME, lastError := if job.state == Running then LEASE_EXPIRED else job.lastError)
  }

  /** A job without a lease that is in a final state since `now`. */
  function Over(job: Job, state: State, now: Time): Job {
    job.(state := state, lease := NO_LEASE, owner := [], leaseUntil := ZERO_TIME, finishedAt := now, updatedAt := now)
  }

  /** A job without a lease that is pending from the given instant on. */
  function PendingFrom(job: Job, available: Time, now: Time): Job {
    job.(state := Pending, availableAt := available, lease := NO_LEASE, owner := [], leaseUntil := ZERO_TIME,
         finishedAt := ZERO_TIME, updatedAt := now)
  }

  /** The row is running under this lease. */
  predicate Held(rows: Table, lease: Lease, at: int) { lease.jobID in rows && Honours(rows[lease.jobID], lease.token, at) }

  /** Why a lease is refused, on the rows that the second statement sees. */
  function Refusal(rows: Table, id: Bytes): Sentinel {
    if id !in rows then ErrNotFound else if rows[id].state == Canceled then ErrCanceled else ErrLeaseLost
  }

  /** The answer to a repeated request is its stored job, or the conflict if the stored request differs. */
  predicate IsStored(r: Row, request: EnqueueRequest, answer: Answer, fingerprint: Bytes) {
    && r.queue == request.queue && r.key == Some(request.key)
    && answer == if r.fingerprint == fingerprint then Returned(JobOf(r)) else Error(ErrIdempotencyConflict)
  }

  lemma NextOther(history: Trace, others: seq<Event>, i: nat)
    requires Lifecycle.Valid(history + others) && i < |others|
    ensures Follows(history + others[..i], others[i]) && ClockOk(others[i].at)
    ensures i + 1 < |others| ==> others[i].at <= others[i + 1].at
  {
    var t, n := history + others, |history| + i;
    assert Step(t, n);
    assert t[..n] == history + others[..i];
    if i + 1 < |others| {
      ClockMonotone(t, n, n + 1);
    }
  }

  /** An event that looks at and changes one row only. */
  predicate OneRow(e: Event) { e.Heartbeat? || e.Complete? || e.Fail? || e.Cancel? || e.Redrive? }

  lemma OneRowNext(rows: Table, e: Event)
    requires OneRow(e)
    ensures Next(rows, e) == if e.id in rows && Hits(e.id, rows[e.id], e) then rows[e.id := Change(e.id, rows[e.id], e)] else rows
  {
  }

  /** The event of a claim taken now: what it reaps and picks is settled by the table. */
  ghost function ClaimEvent(rows: Table, at: int, queue: Bytes, worker: Bytes, token: Bytes, lease: int, locked: set<Bytes>): Event {
    var candidates := EligibleKeys(rows, queue, at, locked);
    Event.Claim(at, queue, worker, token, lease, locked, Ids(First(ExhaustedKeys(rows, queue, at, locked), 100)),
                if candidates == map[] then None else Some(Least(candidates)))
  }

  lemma FirstIsDistinct(keys: Keys, n: nat)
    requires Distinct(keys)
    ensures forall i, j :: 0 <= i < j < |First(keys, n)| ==> First(keys, n)[i] != First(keys, n)[j]
  {
    OrderByAscending(keys);
    AscendingIsDistinct(keys, OrderBy(keys));
  }

  /** Reaping and then granting, row by row, is the event's effect. */
  lemma ClaimEffect(start: Table, reaped: Table, end: Table, e: Event)
    requires e.Claim? && Picked(start, e) && reaped.Keys == start.Keys
    requires forall id :: id in start ==> reaped[id] == if id in e.reaped then Reap(start[id], e.at) else start[id]
    requires end == if e.got.Some? then reaped[e.got.value := Grant(start[e.got.value], e)] else reaped
    ensures end == Next(start, e)
  {
  }

  /** The claimed row as a job. */
  lemma ClaimedJob(rows: Table, e: Event)
    requires e.Claim? && Picked(rows, e) && e.got.Some? && e.got.value in rows && rows[e.got.value].id == e.got.value
    ensures e.got.value in Next(rows, e) && JobOf(Next(rows, e)[e.got.value]).id == e.got.value
    ensures JobOf(Next(rows, e)[e.got.value])
            == Begun(JobOf(rows[e.got.value]), e.token, e.worker, FromStored(e.at), FromStored(e.at + e.lease))
  {
    ClaimLeaves(rows, e, e.got.value);
  }

  /** The answer to a claim, by the table before and after it. */
  ghost predicate ClaimAnswer(rows: Table, rows': Table, queue: Bytes, worker: Bytes, token: Bytes, lease: int, locked: set<Bytes>,
                              at: int, answer: Answer)
  {
    if answer.Returned? then
      && EarliestDue(rows, answer.job.id, queue, locked, at)
      && answer.job == Begun(JobOf(rows[answer.job.id]), token, worker, FromStored(at), FromStored(at + lease))
      && answer.job.id in rows' && answer.job == JobOf(rows'[answer.job.id])
    else answer == Error(ErrNoJob) && NoneDue(rows, queue, locked, at)
  }

  lemma ClaimIsAnswered(history: Trace, e: Event)
    requires Lifecycle.Valid(history) && e.Claim? && ClaimPicks(After(history), e)
    ensures LeavesOthers(After(history), Next(After(history), e), e.queue, e.skip)
    ensures e.got.None? ==> ClaimAnswer(After(history), Next(After(history), e), e.queue, e.worker, e.token, e.lease, e.skip, e.at, Error(ErrNoJob))
    ensures e.got.Some? ==> e.got.value in Next(After(history), e)
    ensures e.got.Some? ==>
      ClaimAnswer(After(history), Next(After(history), e), e.queue, e.worker, e.token, e.lease, e.skip, e.at,
                  Returned(JobOf(Next(After(history), e)[e.got.value])))
  {
    ClaimPicksEarliest(After(history), e);
    ClaimLeavesOthers(After(history), e);
    PickedRows(After(history), e);
    if e.got.Some? {
      RowsReadable(history, e.got.value);
      ClaimedJob(After(history), e);
    }
  }

  class PostgreSQL {
    var rows: Table
    var clock: int
    ghost var history: Trace

    /** The table is what the history of committed statements leaves. */
    ghost predicate Ok()
      reads this
    {
      && Lifecycle.Valid(history) && rows == After(history)
      && ClockOk(clock) && (history != [] ==> history[|history| - 1].at <= clock)
    }

    constructor (now: int)
      requires ClockOk(now)
      ensures Ok() && rows == map[] && history == [] && clock == now
    {
      rows, clock, history := map[], now, [];
    }

    /** Database time passes. */
    method Advance(now: int)
      requires Ok() && clock <= now && ClockOk(now)
      modifies this`clock
      ensures Ok() && clock == now
    {
      clock := now;
    }

    /** Events that other transactions may commit from now on, once the history has become h. */
    ghost predicate MayFollow(h: Trace, others: seq<Event>)
      reads this`clock
    {
      Lifecycle.Valid(h + others) && (others != [] ==> clock <= others[0].at)
    }

    /** Another transaction commits. */
    method Other(e: Event)
      requires Ok() && Follows(history, e) && clock <= e.at && ClockOk(e.at)
      modifies this
      ensures Ok() && history == old(history) + [e] && clock == e.at
    {
      Advance(e.at);
      rows := Next(rows, e);
      Record(e);
    }

    /** Other transactions commit between two statements of an operation. */
    method Others(others: seq<Event>)
      requires Ok() && MayFollow(history, others)
      modifies this
      ensures Ok() && history == old(history) + others
    {
      var i := 0;
      while i < |others|
        invariant 0 <= i <= |others| && Ok() && history == old(history) + others[..i]
        invariant i < |others| ==> clock <= others[i].at
      {
        NextOther(old(history), others, i);
        Other(others[i]);
        assert others[..i + 1] == others[..i] + [others[i]];
        i := i + 1;
      }
      assert others[..|others|] == others;
    }

    /** Appends a committed event whose effect is already in the rows. */
    ghost method Record(e: Event)
      requires Lifecycle.Valid(history) && Follows(history, e) && e.at == clock
      requires rows == Next(After(history), e) && ClockOk(clock)
      modifies this`history
      ensures Ok() && history == old(history) + [e]
    {
      ValidExtends(history, e);
      history := history + [e];
    }

    /** scanJob on a row of this table never fails. */
    method Scan(id: Bytes) returns (job: Job)
      requires Ok() && id in rows
      ensures job == JobOf(rows[id])
    {
      RowsReadable(history, id);
      var scanned := ScanJobRow(Encode(rows[id]));
      job := scanned.value;
    }

    /** Get */
    method Get(id: Bytes) returns (answer: Answer)
      requires Ok()
      ensures answer == if !ValidID(id) then Error(ErrInvalid) else if id in rows then Returned(JobOf(rows[id])) else Error(ErrNotFound)
    {
      if !ValidID(id) {
        return Error(ErrInvalid);
      }
      if id !in rows {
        return Error(ErrNotFound);
      }
      var job := Scan(id);
      answer := Returned(job);
    }

    /** enqueuePrepared: INSERT ... ON CONFLICT DO NOTHING, then on a conflict, after whatever other
        transactions have committed meanwhile, the stored row, or an error if there is none any more. */
    method Enqueue(id: Bytes, request: EnqueueRequest, sha256: Bytes -> Bytes, others: seq<Event>) returns (answer: Answer, created: bool)
      requires Ok() && ValidID(id) && id !in InsertedIds(history) && MayFollow(history, others)
      requires |sha256(Fingerprint.Preimage(request))| == 32
      modifies this
      ensures Ok()
      ensures !ValidEnqueue(request) ==> answer == Error(ErrInvalid) && rows == old(rows) && history == old(history)
      ensures created <==> ValidEnqueue(request) && (request.key == [] || !KeyTaken(old(rows), request.queue, request.key))
      ensures created ==> history == old(history) + [Insert(old(clock), id, request, sha256(Fingerprint.Preimage(request)))]
      ensures created ==> id !in old(rows) && id in rows && rows == old(rows)[id := rows[id]]
      ensures created ==> answer == Returned(JobOf(rows[id])) && JobOf(rows[id]) == NewJob(id, request, FromStored(old(clock)))
      ensures created ==> rows[id].fingerprint == sha256(Fingerprint.Preimage(request))
      ensures !created && ValidEnqueue(request) ==> history == old(history) + others
      ensures !created && ValidEnqueue(request) && !KeyTaken(rows, request.queue, request.key) ==> answer == Error(Undocumented)
      ensures !created && ValidEnqueue(request) && KeyTaken(rows, request.queue, request.key) ==>
        (exists other :: other in rows && IsStored(rows[other], request, answer, sha256(Fingerprint.Preimage(request))))
    {
      created := false;
      if !ValidEnqueue(request) {
        return Error(ErrInvalid), false;
      }
      var fingerprint := Fingerprint.RequestFingerprint(request, sha256);
      if request.key == [] || !KeyTaken(rows, request.queue, request.key) {
        ghost var e := Insert(clock, id, request, fingerprint);
        if id in rows {
          PresentWasInserted(history, id);
        }
        rows := rows[id := Row(id, request.queue, request.kind, request.payload, OptionalText(request.key), fingerprint,
                               Pending, 0, request.maxAttempts,
                               if request.availableAt.IsZero() then clock else request.availableAt.ns / MICROSECOND,
                               clock, clock, None, None, None, [], None)];
        Record(e);
        if !request.availableAt.IsZero() {
          PgTimeReadBack(request.availableAt);
        }
        var job := Scan(id);
        return Returned(job), true;
      }
      Others(others);
      if !KeyTaken(rows, request.queue, request.key) {
        return Error(Undocumented), false;
      }
      var other :| other in rows && rows[other].queue == request.queue && rows[other].key == Some(request.key);
      RowsReadable(history, other);
      var job, stored := ScanJobWithFingerprint(Encode(rows[other]));
      answer := if stored == Some(fingerprint) then Returned(job.value) else Error(ErrIdempotencyConflict);
      assert IsStored(rows[other], request, answer, fingerprint);
    }

    /** The UPDATE of the exhausted rows, one row at a time. */
    method ReapRows(expired: seq<Bytes>)
      requires forall id :: id in expired ==> id in rows
      requires forall i, j :: 0 <= i < j < |expired| ==> expired[i] != expired[j]
      modifies this`rows
      ensures rows.Keys == old(rows).Keys
      ensures forall id :: id in rows ==> rows[id] == if id in expired then Reap(old(rows)[id], clock) else old(rows)[id]
    {
      var i := 0;
      while i < |expired|
        invariant 0 <= i <= |expired| && rows.Keys == old(rows).Keys
        invariant forall id :: id in rows ==> rows[id] == if id in expired[..i] then Reap(old(rows)[id], clock) else old(rows)[id]
      {
        var id := expired[i];
        assert id in expired && id !in expired[..i];
        rows := rows[id := Finish(rows[id], Dead, clock).(lastError := LEASE_EXPIRED_FINAL)];
        assert expired[..i + 1] == expired[..i] + [id];
        i := i + 1;
      }
      assert expired[..|expired|] == expired;
    }

    /** The two selections of claimSQL, both on the table as the statement found it. */
    method SelectForClaim(queue: Bytes, locked: set<Bytes>, ghost e: Event) returns (expired: seq<Bytes>, candidate: Option<Bytes>)
      requires e.Claim? && e.queue == queue && e.at == clock && e.skip == locked && ClaimPicks(rows, e)
      ensures Ids(expired) == e.reaped && candidate == e.got
      ensures forall i, j :: 0 <= i < j < |expired| ==> expired[i] != expired[j]
    {
      expired := First(ExhaustedKeys(rows, queue, clock, locked), 100);
      FirstIsDistinct(ExhaustedKeys(rows, queue, clock, locked), 100);
      var candidates := EligibleKeys(rows, queue, clock, locked);
      candidate := if candidates == map[] then None else Some(Least(candidates));
    }

    /** The two updates of claimSQL: the exhausted rows die and the candidate becomes a running
        attempt under the new token. */
    method UpdateForClaim(expired: seq<Bytes>, candidate: Option<Bytes>, worker: Bytes, token: Bytes, lease: int, ghost e: Event)
      requires e.Claim? && e.at == clock && Picked(rows, e) && Ids(expired) == e.reaped && candidate == e.got
      requires e.worker == worker && e.token == token && e.lease == lease
      requires forall i, j :: 0 <= i < j < |expired| ==> expired[i] != expired[j]
      modifies this`rows
      ensures rows == Next(old(rows), e)
    {
      ReapRows(expired);
      ghost var reaped := rows;
      if candidate.Some? {
        var job := rows[candidate.value];
        rows := rows[candidate.value := job.(state := Running, attempts := job.attempts + 1, token := Some(token),
                                             owner := Some(worker), leaseUntil := Some(clock + lease),
                                             updatedAt := clock, finishedAt := None,
                                             lastError := if job.state == Running then LEASE_EXPIRED else job.lastError)];
      }
      ClaimEffect(old(rows), reaped, rows, e);
    }

    /** claimWithToken: without an eligible row the reaping is committed all the same. */
    method Claim(request: ClaimRequest, token: Bytes, locked: set<Bytes>) returns (answer: Answer)
      requires Ok() && token !in Tokens(history)
      modifies this`rows, this`history
      ensures Ok()
      ensures !(ValidClaim(request) && ValidToken(token)) ==>
        answer == Error(ErrInvalid) && rows == old(rows) && history == old(history)
      ensures ValidClaim(request) && ValidToken(token) ==>
        var e := ClaimEvent(old(rows), clock, request.queue, request.worker, token, request.lease / MICROSECOND, locked);
        && history == old(history) + [e] && ClaimPicks(old(rows), e)
        && (e.got.None? ==> answer == Error(ErrNoJob))
        && (e.got.Some? ==> e.got.value in rows && answer == Returned(JobOf(rows[e.got.value])))
        && ClaimAnswer(old(rows), rows, request.queue, request.worker, token, e.lease, locked, clock, answer)
      ensures LeavesOthers(old(rows), rows, request.queue, locked)
    {
      if !ValidClaim(request) {
        return Error(ErrInvalid);
      }
      if !ValidToken(token) {
        return Error(ErrInvalid);
      }
      var lease := request.lease / MICROSECOND;
      ghost var e := ClaimEvent(rows, clock, request.queue, request.worker, token, lease, locked);
      PickedRows(rows, e);
      var expired, candidate := SelectForClaim(request.queue, locked, e);
      UpdateForClaim(expired, candidate, request.worker, token, lease, e);
      ClaimIsAnswered(history, e);
      Record(e);
      if candidate.None? {
        return Error(ErrNoJob);
      }
      var claimed := Scan(candidate.value);
      answer := Returned(claimed);
    }

    /** Heartbeat: the new expiry counts from the database clock, not from the old expiry. A refused update
        is classified by a second statement, after whatever other transactions have committed meanwhile. */
    method Heartbeat(lease: Lease, duration: int, others: seq<Event>) returns (error: Option<Sentinel>)
      requires Ok()
      requires ValidLease(lease) && ValidDuration(duration) ==>
        MayFollow(history + [Event.Heartbeat(clock, lease.jobID, lease.token, duration / MICROSECOND)], others)
      modifies this
      ensures Ok()
      ensures !(ValidLease(lease) && ValidDuration(duration)) ==>
        error == Some(ErrInvalid) && rows == old(rows) && history == old(history)
      ensures ValidLease(lease) && ValidDuration(duration) ==>
        var e := Event.Heartbeat(old(clock), lease.jobID, lease.token, duration / MICROSECOND);
        if Held(old(rows), lease, old(clock)) then
          && history == old(history) + [e] && error == None
          && rows == old(rows)[lease.jobID := old(rows)[lease.jobID].(leaseUntil := Some(old(clock) + duration / MICROSECOND),
                                                                      updatedAt := old(clock))]
        else history == old(history) + [e] + others && error == Some(Refusal(rows, lease.jobID))
    {
      if !ValidLease(lease) || !ValidDuration(duration) {
        return Some(ErrInvalid);
      }
      ghost var e := Event.Heartbeat(clock, lease.jobID, lease.token, duration / MICROSECOND);
      OneRowNext(rows, e);
      var id := lease.jobID;
      if id in rows && Live(rows[id], lease.token, clock) {
        rows := rows[id := rows[id].(leaseUntil := Some(clock + duration / MICROSECOND), updatedAt := clock)];
        Record(e);
        error := None;
      } else {
        Record(e);
        Others(others);
        error := Some(Classify(rows, id));
      }
    }

    /** Complete */
    method Complete(lease: Lease, others: seq<Event>) returns (answer: Answer)
      requires Ok()
      requires ValidLease(lease) ==> MayFollow(history + [Event.Complete(clock, lease.jobID, lease.token)], others)
      modifies this
      ensures Ok()
      ensures !ValidLease(lease) ==> answer == Error(ErrInvalid) && rows == old(rows) && history == old(history)
      ensures ValidLease(lease) ==>
        var e := Event.Complete(old(clock), lease.jobID, lease.token);
        if Held(old(rows), lease, old(clock)) then
          && history == old(history) + [e] && lease.jobID in rows && rows == old(rows)[lease.jobID := rows[lease.jobID]]
          && answer == Returned(JobOf(rows[lease.jobID]))
          && JobOf(rows[lease.jobID]) == Over(JobOf(old(rows)[lease.jobID]), Succeeded, FromStored(old(clock)))
        else history == old(history) + [e] + others && answer == Error(Refusal(rows, lease.jobID))
    {
      if !ValidLease(lease) {
        return Error(ErrInvalid);
      }
      ghost var e := Event.Complete(clock, lease.jobID, lease.token);
      OneRowNext(rows, e);
      var id := lease.jobID;
      if id in rows && Live(rows[id], lease.token, clock) {
        rows := rows[id := Finish(rows[id], Succeeded, clock)];
        Record(e);
        var job := Scan(id);
        answer := Returned(job);
      } else {
        Record(e);
        Others(others);
        answer := Error(Classify(rows, id));
      }
    }

    /** Fail: permanent failures and exhausted budgets end the job, others schedule the next attempt. */
    method Fail(lease: Lease, failure: Failure, others: seq<Event>) returns (answer: Answer)
      requires Ok()
      requires ValidLease(lease) && ValidFailure(failure) ==>
        MayFollow(history + [Event.Fail(clock, lease.jobID, lease.token, failure.message,
                                        failure.retryAfter / MICROSECOND, failure.permanent)], others)
      modifies this
      ensures Ok()
      ensures !(ValidLease(lease) && ValidFailure(failure)) ==>
        answer == Error(ErrInvalid) && rows == old(rows) && history == old(history)
      ensures ValidLease(lease) && ValidFailure(failure) ==>
        var e := Event.Fail(old(clock), lease.jobID, lease.token, failure.message, failure.retryAfter / MICROSECOND, failure.permanent);
        if Held(old(rows), lease, old(clock)) then
          var was := old(rows)[lease.jobID];
          && history == old(history) + [e] && lease.jobID in rows && rows == old(rows)[lease.jobID := rows[lease.jobID]]
          && answer == Returned(JobOf(rows[lease.jobID]))
          && JobOf(rows[lease.jobID])
             == (if failure.permanent || was.attempts >= was.maxAttempts then Over(JobOf(was), Dead, FromStored(old(clock)))
                 else PendingFrom(JobOf(was), FromStored(old(clock) + failure.retryAfter / MICROSECOND), FromStored(old(clock))))
                .(lastError := failure.message)
        else history == old(history) + [e] + others && answer == Error(Refusal(rows, lease.jobID))
    {
      if !ValidLease(lease) || !ValidFailure(failure) {
        return Error(ErrInvalid);
      }
      ghost var e := Event.Fail(clock, lease.jobID, lease.token, failure.message, failure.retryAfter / MICROSECOND, failure.permanent);
      OneRowNext(rows, e);
      var id := lease.jobID;
      if id in rows && Live(rows[id], lease.token, clock) {
        var r := rows[id];
        var dead := failure.permanent || r.attempts >= r.maxAttempts;
        rows := rows[id := r.(state := if dead then Dead else Pending,
                              availableAt := if dead then r.availableAt else clock + failure.retryAfter / MICROSECOND,
                              token := None, owner := None, leaseUntil := None, lastError := failure.message,
                              finishedAt := if dead then Some(clock) else None, updatedAt := clock)];
        Record(e);
        var job := Scan(id);
        answer := Returned(job);
      } else {
        Record(e);
        Others(others);
        answer := Error(Classify(rows, id));
      }
    }

    /** Cancel: idempotent on canceled rows, refused on other finished rows, by a second look at the row. */
    method Cancel(id: Bytes, others: seq<Event>) returns (answer: Answer)
      requires Ok() && (ValidID(id) ==> MayFollow(history + [Event.Cancel(clock, id)], others))
      modifies this
      ensures Ok()
      ensures !ValidID(id) ==> answer == Error(ErrInvalid) && rows == old(rows) && history == old(history)
      ensures ValidID(id) ==>
        var e := Event.Cancel(old(clock), id);
        if id in old(rows) && old(rows)[id].state in {Pending, Running} then
          && history == old(history) + [e] && id in rows && rows == old(rows)[id := rows[id]]
          && answer == Returned(JobOf(rows[id])) && JobOf(rows[id]) == Over(JobOf(old(rows)[id]), Canceled, FromStored(old(clock)))
        else
          history == old(history) + [e] + others
          && answer == if id !in rows then Error(ErrNotFound)
                       else if rows[id].state == Canceled then Returned(JobOf(rows[id])) else Error(ErrStateConflict)
    {
      if !ValidID(id) {
        return Error(ErrInvalid);
      }
      ghost var e := Event.Cancel(clock, id);
      OneRowNext(rows, e);
      if id in rows && rows[id].state in {Pending, Running} {
        rows := rows[id := Finish(rows[id], Canceled, clock)];
        Record(e);
        var canceled := Scan(id);
        return Returned(canceled);
      }
      Record(e);
      Others(others);
      if id !in rows {
        return Error(ErrNotFound);
      }
      var job := Scan(id);
      if job.state == Canceled {
        return Returned(job);
      }
      return Error(ErrStateConflict);
    }

    /** Redrive: only a dead job goes back to pending, with a fresh attempt budget. */
    method Redrive(id: Bytes, others: seq<Event>) returns (answer: Answer)
      requires Ok() && (ValidID(id) ==> MayFollow(history + [Event.Redrive(clock, id)], others))
      modifies this
      ensures Ok()
      ensures !ValidID(id) ==> answer == Error(ErrInvalid) && rows == old(rows) && history == old(history)
      ensures ValidID(id) ==>
        var e := Event.Redrive(old(clock), id);
        if id in old(rows) && old(rows)[id].state == Dead then
          && history == old(history) + [e] && id in rows && rows == old(rows)[id := rows[id]]
          && answer == Returned(JobOf(rows[id]))
          && JobOf(rows[id]) == PendingFrom(JobOf(old(rows)[id]), FromStored(old(clock)), FromStored(old(clock)))
                                .(attempts := 0, lastError := [])
        else history == old(history) + [e] + others && answer == Error(if id in rows then ErrStateConflict else ErrNotFound)
    {
      if !ValidID(id) {
        return Error(ErrInvalid);
      }
      ghost var e := Event.Redrive(clock, id);
      OneRowNext(rows, e);
      if id in rows && rows[id].state == Dead {
        rows := rows[id := rows[id].(state := Pending, attempts := 0, availableAt := clock, token := None, owner := None,
                                     leaseUntil := None, lastError := [], finishedAt := None, updatedAt := clock)];
        Record(e);
        var job := Scan(id);
        return Returned(job);
      }
      Record(e);
      Others(others);
      if id !in rows {
        return Error(ErrNotFound);
      }
      return Error(ErrStateConflict);
    }
  }
}
