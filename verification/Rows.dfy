/** Stored rows, the jobs decoded from them (pkg/jobs/rows.go), and the CHECK constraints of
    pkg/jobs/migrations/000001_jobs.sql. */
module Rows {
  import opened Base
  import opened Values
  import Utf8

  /** The state column is text; a text that names no state stays visible as such. */
  datatype State = Pending | Running | Succeeded | Dead | Canceled | Unknown(text: Bytes)

  function StateText(s: State): Bytes {
    match s
    case Pending => Ascii("pending")
    case Running => Ascii("running")
    case Succeeded => Ascii("succeeded")
    case Dead => Ascii("dead")
    case Canceled => Ascii("canceled")
    case Unknown(text) => text
  }

  function StateOf(text: Bytes): State {
    if text == StateText(Pending) then Pending
    else if text == StateText(Running) then Running
    else if text == StateText(Succeeded) then Succeeded
    else if text == StateText(Dead) then Dead
    else if text == StateText(Canceled) then Canceled
    else Unknown(text)
  }

  predicate Terminal(s: State) { s == Succeeded || s == Dead || s == Canceled }

  /** One row of public.gotth_jobs; timestamps in microseconds since the Unix epoch. */
  datatype Row = Row(
    id: Bytes, queue: Bytes, kind: Bytes, payload: Bytes, key: Option<Bytes>, fingerprint: Bytes,
    state: State, attempts: int, maxAttempts: int, availableAt: int, createdAt: int, updatedAt: int,
    token: Option<Bytes>, owner: Option<Bytes>, leaseUntil: Option<int>, lastError: Bytes, finishedAt: Option<int>)

  /** The CHECK constraints of the migration, in its order. */
  predicate Checks(r: Row) {
    && ValidID(r.id)
    && 1 <= |r.queue| <= 128
    && 1 <= |r.kind| <= 128
    && |r.payload| <= 1048576
    && (r.key.None? || 1 <= |r.key.value| <= 256)
    && |r.fingerprint| == 32
    && !r.state.Unknown?
    && 0 <= r.attempts <= 100
    && 1 <= r.maxAttempts <= 100 && r.attempts <= r.maxAttempts
    && ((r.state == Pending && r.attempts < r.maxAttempts)
        || (r.state in {Running, Succeeded, Dead} && r.attempts >= 1)
        || r.state == Canceled)
    && ((r.state == Running && r.token.Some? && r.owner.Some? && r.leaseUntil.Some?)
        || (r.state != Running && r.token.None? && r.owner.None? && r.leaseUntil.None?))
    && (r.token.None? || ValidToken(r.token.value))
    && (r.owner.None? || 1 <= |r.owner.value| <= 256)
    && |r.lastError| <= 4096
    && ((Terminal(r.state) && r.finishedAt.Some?)
        || (r.state in {Pending, Running} && r.finishedAt.None?))
  }

  /** The public job. A nil payload is None; absent leases, keys and instants are Go zero values. */
  datatype Job = Job(
    id: Bytes, queue: Bytes, kind: Bytes, payload: Option<Bytes>, key: Bytes, state: State,
    attempts: int, maxAttempts: int, availableAt: Time, createdAt: Time, updatedAt: Time,
    lease: Lease, owner: Bytes, leaseUntil: Time, lastError: Bytes, finishedAt: Time)

  const NO_LEASE := Lease([], [])

  /** validateStoredJob */
  predicate ValidStoredJob(j: Job) {
    && ValidID(j.id)
    && ValidName(j.queue, MAX_QUEUE_BYTES)
    && ValidName(j.kind, MAX_KIND_BYTES)
    && j.payload.Some?
    && |j.payload.value| <= MAX_PAYLOAD_BYTES && |j.key| <= MAX_KEY_BYTES && |j.lastError| <= MAX_FAILURE_BYTES
    && 0 <= j.attempts <= j.maxAttempts && 1 <= j.maxAttempts <= MAX_ATTEMPTS
    && PgTime(j.availableAt) && PgTime(j.createdAt) && PgTime(j.updatedAt)
    && (j.leaseUntil.IsZero() || PgTime(j.leaseUntil))
    && (j.finishedAt.IsZero() || PgTime(j.finishedAt))
    && Utf8.Clean(j.key) && Utf8.Clean(j.owner) && Utf8.Clean(j.lastError)
    && !(j.state == Pending && j.attempts >= j.maxAttempts)
    && !(j.state in {Running, Succeeded, Dead} && j.attempts == 0)
    && ValidLeaseShape(j)
    && (Terminal(j.state) <==> !j.finishedAt.IsZero())
  }

  predicate ValidLeaseShape(j: Job) {
    match j.state
    case Running =>
      j.lease.jobID == j.id && ValidToken(j.lease.token) && 0 < |j.owner| <= MAX_WORKER_BYTES && !j.leaseUntil.IsZero()
    case Unknown(_) => false
    case _ => j.lease == NO_LEASE && j.owner == [] && j.leaseUntil.IsZero()
  }

  // ----- Scanning one untrusted result row -----

  /** A result row as the driver presents it: any column may be NULL. */
  datatype RawRow = RawRow(
    fingerprint: Option<Bytes>, id: Option<Bytes>, queue: Option<Bytes>, kind: Option<Bytes>, payload: Option<Bytes>,
    key: Option<Bytes>, state: Option<Bytes>, attempts: Option<int>, maxAttempts: Option<int>,
    availableAt: Option<int>, createdAt: Option<int>, updatedAt: Option<int>,
    token: Option<Bytes>, owner: Option<Bytes>, leaseUntil: Option<int>, lastError: Option<Bytes>, finishedAt: Option<int>)

  predicate LengthIn(source: Option<Bytes>, minimum: nat, maximum: nat) {
    source.Some? && minimum <= |source.value| <= maximum
  }

  class BoundedBytesScanner {
    const minimum: nat
    const maximum: nat
    var value: Option<Bytes>

    constructor (minimum: nat, maximum: nat)
      ensures this.minimum == minimum && this.maximum == maximum && value == None
    {
      this.minimum, this.maximum, value := minimum, maximum, None;
    }

    /** NULL and out-of-contract lengths are refused before any copy is made. */
    method ScanBytes(source: Option<Bytes>) returns (ok: bool)
      modifies this
      ensures ok <==> LengthIn(source, minimum, maximum)
      ensures value == if ok then source else old(value)
    {
      if source == None {
        return false;
      }
      if |source.value| < minimum || |source.value| > maximum {
        return false;
      }
      value := Some(source.value);
      ok := true;
    }
  }

  class BoundedTextScanner {
    const minimum: nat
    const maximum: nat
    const nullable: bool
    var present: bool
    var value: Bytes

    constructor (minimum: nat, maximum: nat, nullable: bool)
      ensures this.minimum == minimum && this.maximum == maximum && this.nullable == nullable
      ensures !present && value == []
    {
      this.minimum, this.maximum, this.nullable := minimum, maximum, nullable;
      present, value := false, [];
    }

    /** NULL is kept apart from present text, and present text must have a length in bounds. */
    method ScanBytes(source: Option<Bytes>) returns (ok: bool)
      modifies this
      ensures ok <==> (source.None? && nullable) || LengthIn(source, minimum, maximum)
      ensures ok ==> present == source.Some? && value == TextOr(source)
    {
      if source == None {
        if nullable {
          present := false;
          value := [];
          return true;
        }
        return false;
      }
      present := true;
      if |source.value| < minimum || |source.value| > maximum {
        return false;
      }
      value := source.value;
      ok := true;
    }
  }

  function TextOr(source: Option<Bytes>): Bytes { if source.Some? then source.value else [] }

  function TimeOr(source: Option<int>): Time { if source.Some? then FromStored(source.value) else ZERO_TIME }

  predicate RequestColumnsAccepted(raw: RawRow) {
    && LengthIn(raw.id, 32, 32) && LengthIn(raw.queue, 1, MAX_QUEUE_BYTES) && LengthIn(raw.kind, 1, MAX_KIND_BYTES)
    && LengthIn(raw.payload, 0, MAX_PAYLOAD_BYTES)
    && (raw.key.None? || LengthIn(raw.key, 1, MAX_KEY_BYTES))
    && LengthIn(raw.state, 1, |StateText(Succeeded)|)
  }

  predicate LeaseColumnsAccepted(raw: RawRow) {
    && (raw.token.None? || LengthIn(raw.token, 64, 64))
    && (raw.owner.None? || LengthIn(raw.owner, 1, MAX_WORKER_BYTES))
    && LengthIn(raw.lastError, 0, MAX_FAILURE_BYTES)
  }

  /** Every column has a permitted length and nullness, and present timestamps are in range. */
  predicate ColumnsAccepted(raw: RawRow) {
    && RequestColumnsAccepted(raw) && LeaseColumnsAccepted(raw)
    && raw.attempts.Some? && raw.maxAttempts.Some?
    && raw.availableAt.Some? && raw.createdAt.Some? && raw.updatedAt.Some?
    && (raw.leaseUntil.None? || StoredTime(raw.leaseUntil.value))
    && (raw.finishedAt.None? || StoredTime(raw.finishedAt.value))
  }

  function DraftOf(raw: RawRow): Job
    requires RequestColumnsAccepted(raw)
  {
    Job(raw.id.value, raw.queue.value, raw.kind.value, raw.payload, TextOr(raw.key), StateOf(raw.state.value),
        0, 0, ZERO_TIME, ZERO_TIME, ZERO_TIME, NO_LEASE, [], ZERO_TIME, [], ZERO_TIME)
  }

  function Decoded(raw: RawRow): Job
    requires ColumnsAccepted(raw)
  {
    Job(raw.id.value, raw.queue.value, raw.kind.value, raw.payload, TextOr(raw.key), StateOf(raw.state.value),
        raw.attempts.value, raw.maxAttempts.value,
        FromStored(raw.availableAt.value), FromStored(raw.createdAt.value), FromStored(raw.updatedAt.value),
        if raw.token.Some? then Lease(raw.id.value, raw.token.value) else NO_LEASE,
        TextOr(raw.owner), TimeOr(raw.leaseUntil), raw.lastError.value, TimeOr(raw.finishedAt))
  }

  /** The outcome of scanJob: the decoded job, or None for a row that is refused. */
  function Scanned(raw: RawRow): Option<Job> {
    if ColumnsAccepted(raw) && ValidStoredJob(Decoded(raw)) then Some(Decoded(raw)) else None
  }

  /** The leading text and bytea columns, in column order; the first refusal ends the scan. */
  method ScanRequestColumns(raw: RawRow) returns (ok: bool, draft: Job)
    ensures ok <==> RequestColumnsAccepted(raw)
    ensures ok ==> draft == DraftOf(raw)
  {
    draft := Job([], [], [], None, [], Pending, 0, 0, ZERO_TIME, ZERO_TIME, ZERO_TIME, NO_LEASE, [], ZERO_TIME, [], ZERO_TIME);
    var id := new BoundedTextScanner(32, 32, false);
    var queue := new BoundedTextScanner(1, MAX_QUEUE_BYTES, false);
    var kind := new BoundedTextScanner(1, MAX_KIND_BYTES, false);
    var payload := new BoundedBytesScanner(0, MAX_PAYLOAD_BYTES);
    var key := new BoundedTextScanner(1, MAX_KEY_BYTES, true);
    var state := new BoundedTextScanner(1, |StateText(Succeeded)|, false);
    ok := id.ScanBytes(raw.id);
    if !ok { return; }
    ok := queue.ScanBytes(raw.queue);
    if !ok { return; }
    ok := kind.ScanBytes(raw.kind);
    if !ok { return; }
    ok := payload.ScanBytes(raw.payload);
    if !ok { return; }
    ok := key.ScanBytes(raw.key);
    if !ok { return; }
    ok := state.ScanBytes(raw.state);
    if !ok { return; }
    draft := draft.(id := id.value, queue := queue.value, kind := kind.value, payload := payload.value, state := StateOf(state.value));
    if key.present {
      draft := draft.(key := key.value);
    }
  }

  /** The lease and failure columns of the same row. */
  method ScanLeaseColumns(raw: RawRow, draft: Job) returns (ok: bool, job: Job)
    ensures ok <==> LeaseColumnsAccepted(raw)
    ensures ok ==> job == draft.(lease := if raw.token.Some? then Lease(draft.id, raw.token.value) else draft.lease,
                                 owner := if raw.owner.Some? then raw.owner.value else draft.owner,
                                 lastError := raw.lastError.value)
  {
    job := draft;
    var token := new BoundedTextScanner(64, 64, true);
    var owner := new BoundedTextScanner(1, MAX_WORKER_BYTES, true);
    var lastError := new BoundedTextScanner(0, MAX_FAILURE_BYTES, false);
    ok := token.ScanBytes(raw.token);
    if !ok { return; }
    ok := owner.ScanBytes(raw.owner);
    if !ok { return; }
    ok := lastError.ScanBytes(raw.lastError);
    if !ok { return; }
    job := job.(lastError := lastError.value);
    if token.present {
      job := job.(lease := Lease(job.id, token.value));
    }
    if owner.present {
      job := job.(owner := owner.value);
    }
  }

  /** scanJobRow: every column is scanned, the job is filled in, optional timestamps are checked
      before they can pass for absent ones, and the result is validated. */
  method ScanJobRow(raw: RawRow) returns (result: Option<Job>)
    ensures result == Scanned(raw)
  {
    result := None;
    var ok, job := ScanRequestColumns(raw);
    if !ok || raw.attempts.None? || raw.maxAttempts.None? { return; }
    ok, job := ScanLeaseColumns(raw, job);
    if !ok { return; }
    if raw.availableAt == None || raw.createdAt == None || raw.updatedAt == None { return; }
    job := job.(attempts := raw.attempts.value, maxAttempts := raw.maxAttempts.value,
                availableAt := FromStored(raw.availableAt.value), createdAt := FromStored(raw.createdAt.value),
                updatedAt := FromStored(raw.updatedAt.value));
    if raw.leaseUntil.Some? {
      job := job.(leaseUntil := FromStored(raw.leaseUntil.value));
      StoredTimeIsPgTime(raw.leaseUntil.value);
      if !PgTime(job.leaseUntil) { return; }
    }
    if raw.finishedAt.Some? {
      job := job.(finishedAt := FromStored(raw.finishedAt.value));
      StoredTimeIsPgTime(raw.finishedAt.value);
      if !PgTime(job.finishedAt) { return; }
    }
    if ValidStoredJob(job) {
      result := Some(job);
    }
  }

  /** scanJobWithFingerprint: the leading column must hold exactly 32 octets. */
  method ScanJobWithFingerprint(raw: RawRow) returns (result: Option<Job>, fingerprint: Option<Bytes>)
    ensures result == if LengthIn(raw.fingerprint, 32, 32) then Scanned(raw) else None
    ensures fingerprint == if result.Some? then raw.fingerprint else None
  {
    var scanner := new BoundedBytesScanner(32, 32);
    var ok := scanner.ScanBytes(raw.fingerprint);
    if !ok {
      return None, None;
    }
    result := ScanJobRow(raw);
    fingerprint := if result.Some? then scanner.value else None;
  }

  // ----- Encoding -----

  /** The result row of a stored row. */
  function Encode(r: Row): RawRow {
    RawRow(Some(r.fingerprint), Some(r.id), Some(r.queue), Some(r.kind), Some(r.payload), r.key, Some(StateText(r.state)),
           Some(r.attempts), Some(r.maxAttempts), Some(r.availableAt), Some(r.createdAt), Some(r.updatedAt),
           r.token, r.owner, r.leaseUntil, Some(r.lastError), r.finishedAt)
  }

  function OptionalText(s: Bytes): Option<Bytes> { if s == [] then None else Some(s) }

  function OptionalTime(t: Time): Option<int> { if t.IsZero() then None else Some(t.ns / MICROSECOND) }

  /** The nullable result row of a job: Go zero values become NULL. */
  function EncodeJob(j: Job, fingerprint: Bytes): RawRow {
    RawRow(Some(fingerprint), Some(j.id), Some(j.queue), Some(j.kind), j.payload, OptionalText(j.key), Some(StateText(j.state)),
           Some(j.attempts), Some(j.maxAttempts), Some(j.availableAt.ns / MICROSECOND), Some(j.createdAt.ns / MICROSECOND),
           Some(j.updatedAt.ns / MICROSECOND), OptionalText(j.lease.token), OptionalText(j.owner),
           OptionalTime(j.leaseUntil), Some(j.lastError), OptionalTime(j.finishedAt))
  }

  lemma StateTexts(s: State)
    ensures !s.Unknown? ==> StateOf(StateText(s)) == s && 1 <= |StateText(s)| <= 9
  {
    StateTextHeads();
  }

  lemma StateTextHeads()
    ensures |StateText(Pending)| == 7 && |StateText(Running)| == 7 && StateText(Pending)[0] == 112 && StateText(Running)[0] == 114
    ensures |StateText(Succeeded)| == 9 && |StateText(Dead)| == 4 && |StateText(Canceled)| == 8
  {
  }

  /** Absent instants are Go zero values, not the same instant under another location. */
  predicate ZerosAreUtc(j: Job) {
    (j.leaseUntil.IsZero() ==> j.leaseUntil.utc) && (j.finishedAt.IsZero() ==> j.finishedAt.utc)
  }

  /** Decoding undoes encoding for every job the library accepts whose absent instants are the
      plain zero value; only their location can be lost. */
  lemma ScanRoundTrip(j: Job, fingerprint: Bytes)
    requires ValidStoredJob(j)
    ensures Scanned(EncodeJob(j, fingerprint)) == Some(j) <==> ZerosAreUtc(j)
  {
    StateTexts(j.state);
    var raw := EncodeJob(j, fingerprint);
    OptionalTimeAccepted(j.leaseUntil);
    OptionalTimeAccepted(j.finishedAt);
    PgTimeReadBack(j.availableAt);
    PgTimeReadBack(j.createdAt);
    PgTimeReadBack(j.updatedAt);
    assert ColumnsAccepted(raw);
    assert Decoded(raw).(leaseUntil := j.leaseUntil, finishedAt := j.finishedAt) == j;
  }

  /** A valid job whose absent lease carries a zero instant of another location: it reads back with UTC. */
  lemma ZeroOfAnotherLocation() returns (j: Job, fingerprint: Bytes)
    ensures ValidStoredJob(j) && |fingerprint| == 32
    ensures Scanned(EncodeJob(j, fingerprint)).Some? && Scanned(EncodeJob(j, fingerprint)) != Some(j)
  {
    var id: Bytes := seq(32, _ => 48);
    var now := Time(0, true);
    j := Job(id, [97], [97], Some([]), [], Pending, 0, 1, now, now, now, NO_LEASE, [], Time(ZERO_US * MICROSECOND, false), [], ZERO_TIME);
    fingerprint := id;
    Utf8.AsciiIsClean([]);
    ScanRoundTrip(j, fingerprint);
  }

  lemma PgTimeReadBack(t: Time)
    requires PgTime(t)
    ensures FromStored(t.ns / MICROSECOND) == t && StoredTime(t.ns / MICROSECOND)
  {
  }

  lemma OptionalTimeAccepted(t: Time)
    requires t.IsZero() || PgTime(t)
    ensures TimeOr(OptionalTime(t)) == t <==> (t.IsZero() ==> t.utc)
    ensures TimeOr(OptionalTime(t)).IsZero() <==> t.IsZero()
    ensures OptionalTime(t).Some? ==> StoredTime(OptionalTime(t).value)
  {
  }

  /** NULL, present-empty and present-zero never decode alike: two accepted rows that give the
      same job are the same row. */
  lemma ScanInjective(a: RawRow, b: RawRow)
    requires a.fingerprint == b.fingerprint
    requires Scanned(a).Some? && Scanned(a) == Scanned(b)
    ensures a == b
  {
    assert Decoded(a) == Decoded(b);
    StateOfInjective(a.state.value, b.state.value);
    assert a.token == b.token;
    assert a.owner == b.owner;
    assert a.key == b.key;
    TimeOrInjective(a.leaseUntil, b.leaseUntil);
    TimeOrInjective(a.finishedAt, b.finishedAt);
  }

  lemma StateOfInjective(s: Bytes, t: Bytes)
    requires StateOf(s) == StateOf(t)
    ensures s == t
  {
  }

  lemma TimeOrInjective(s: Option<int>, t: Option<int>)
    requires s.Some? ==> StoredTime(s.value)
    requires t.Some? ==> StoredTime(t.value)
    requires TimeOr(s) == TimeOr(t)
    ensures s == t
  {
  }

  /** The stored row that a result row shows, when no mandatory column is NULL. */
  function RowShown(raw: RawRow): Option<Row> {
    if raw.fingerprint.Some? && raw.id.Some? && raw.queue.Some? && raw.kind.Some? && raw.payload.Some? && raw.state.Some?
       && raw.attempts.Some? && raw.maxAttempts.Some? && raw.availableAt.Some? && raw.createdAt.Some?
       && raw.updatedAt.Some? && raw.lastError.Some?
    then Some(Row(raw.id.value, raw.queue.value, raw.kind.value, raw.payload.value, raw.key, raw.fingerprint.value,
                  StateOf(raw.state.value), raw.attempts.value, raw.maxAttempts.value, raw.availableAt.value,
                  raw.createdAt.value, raw.updatedAt.value, raw.token, raw.owner, raw.leaseUntil, raw.lastError.value,
                  raw.finishedAt))
    else None
  }

  /** Everything the scanner accepts, with a full fingerprint, meets the table's constraints. */
  lemma AcceptedRowsMeetChecks(raw: RawRow)
    requires LengthIn(raw.fingerprint, 32, 32) && Scanned(raw).Some?
    ensures RowShown(raw).Some? && Checks(RowShown(raw).value)
  {
  }

  /** The job that a stored row denotes. */
  function JobOf(r: Row): Job {
    Job(r.id, r.queue, r.kind, Some(r.payload), TextOr(r.key), r.state, r.attempts, r.maxAttempts,
        FromStored(r.availableAt), FromStored(r.createdAt), FromStored(r.updatedAt),
        if r.token.Some? then Lease(r.id, r.token.value) else NO_LEASE,
        TextOr(r.owner), TimeOr(r.leaseUntil), r.lastError, TimeOr(r.finishedAt))
  }

  /** What the library guarantees of the rows it writes, beyond the constraints. */
  predicate Readable(r: Row) {
    && Checks(r)
    && ValidName(r.queue, MAX_QUEUE_BYTES) && ValidName(r.kind, MAX_KIND_BYTES)
    && (r.key.Some? ==> Utf8.Clean(r.key.value))
    && (r.owner.Some? ==> Utf8.Clean(r.owner.value))
    && Utf8.Clean(r.lastError)
    && StoredTime(r.availableAt) && StoredTime(r.createdAt) && StoredTime(r.updatedAt)
    && (r.leaseUntil.Some? ==> StoredTime(r.leaseUntil.value))
    && (r.finishedAt.Some? ==> StoredTime(r.finishedAt.value))
  }

  /** Among rows that meet the constraints, exactly the readable ones scan, and to the job they denote. */
  lemma ReadableRowsScan(r: Row)
    requires Checks(r)
    ensures Readable(r) <==> Scanned(Encode(r)).Some?
    ensures Readable(r) ==> Scanned(Encode(r)) == Some(JobOf(r))
  {
    StateTexts(r.state);
    StoredTimeIsPgTime(r.availableAt);
    StoredTimeIsPgTime(r.createdAt);
    StoredTimeIsPgTime(r.updatedAt);
    if r.leaseUntil.Some? { StoredTimeIsPgTime(r.leaseUntil.value); }
    if r.finishedAt.Some? { StoredTimeIsPgTime(r.finishedAt.value); }
    Utf8.AsciiIsClean([]);
    var raw := Encode(r);
    if ColumnsAccepted(raw) {
      assert Decoded(raw) == JobOf(r);
    }
  }
}
