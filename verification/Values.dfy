/** The public requests and their contracts: pkg/jobs/types.go and the validators of pkg/jobs/values.go. */
module Values {
  import opened Base
  import Utf8

  datatype EnqueueRequest = EnqueueRequest(queue: Bytes, kind: Bytes, payload: Bytes, key: Bytes,
                                           maxAttempts: int, availableAt: Time)

  /** The lease is a Go duration in nanoseconds. */
  datatype ClaimRequest = ClaimRequest(queue: Bytes, worker: Bytes, lease: int)

  datatype Failure = Failure(message: Bytes, retryAfter: int, permanent: bool)

  datatype Lease = Lease(jobID: Bytes, token: Bytes)

  predicate NameByte(b: Byte) {
    97 <= b <= 122 || 65 <= b <= 90 || 48 <= b <= 57 || b in [46, 95, 58, 47, 45]
  }

  predicate ValidName(s: Bytes, maximum: nat) {
    0 < |s| <= maximum && forall i :: 0 <= i < |s| ==> NameByte(s[i])
  }

  predicate LowerHex(s: Bytes) {
    forall i :: 0 <= i < |s| ==> 48 <= s[i] <= 57 || 97 <= s[i] <= 102
  }

  predicate ValidID(s: Bytes) { |s| == 32 && LowerHex(s) }

  predicate ValidToken(s: Bytes) { |s| == 64 && LowerHex(s) }

  predicate ValidLease(lease: Lease) { ValidID(lease.jobID) && ValidToken(lease.token) }

  /** isPostgreSQLTimestamp */
  predicate PgTime(t: Time) {
    !t.IsZero() && t.utc && t.ns % MICROSECOND == 0 && MIN_US * MICROSECOND <= t.ns <= MAX_US * MICROSECOND
  }

  predicate ValidEnqueue(r: EnqueueRequest) {
    && ValidName(r.queue, MAX_QUEUE_BYTES)
    && ValidName(r.kind, MAX_KIND_BYTES)
    && |r.payload| <= MAX_PAYLOAD_BYTES
    && |r.key| <= MAX_KEY_BYTES && Utf8.Clean(r.key)
    && 1 <= r.maxAttempts <= MAX_ATTEMPTS
    && (r.availableAt.IsZero() || PgTime(r.availableAt))
  }

  predicate ValidWorkerName(s: Bytes) { 0 < |s| <= MAX_WORKER_BYTES && Utf8.Clean(s) }

  predicate ValidDuration(d: int) { MIN_LEASE <= d <= MAX_LEASE && d % MICROSECOND == 0 }

  predicate ValidClaim(r: ClaimRequest) {
    ValidName(r.queue, MAX_QUEUE_BYTES) && ValidWorkerName(r.worker) && ValidDuration(r.lease)
  }

  predicate ValidFailure(f: Failure) {
    && |f.message| <= MAX_FAILURE_BYTES && Utf8.Clean(f.message)
    && 0 <= f.retryAfter <= MAX_RETRY_DELAY
    && f.retryAfter % MICROSECOND == 0
    && (f.permanent ==> f.retryAfter == 0)
  }

  /** A timestamptz value as the driver hands it over. */
  function FromStored(us: int): Time { Time(us * MICROSECOND, true) }

  /** The stored timestamps that survive the trip through `time.Time`. */
  predicate StoredTime(us: int) { us != ZERO_US && MIN_US <= us <= MAX_US }

  lemma StoredTimeIsPgTime(us: int)
    ensures PgTime(FromStored(us)) <==> StoredTime(us)
  {
  }

  /** Leases are accepted from one second to one hour, in whole microseconds as the statements take them. */
  lemma LeaseBounds(d: int)
    ensures ValidDuration(d) <==> exists k :: d == k * MICROSECOND && 1_000_000 <= k <= 3_600_000_000
  {
    if ValidDuration(d) {
      assert d == d / MICROSECOND * MICROSECOND;
    }
  }

  /** Failures are accepted with stored text, and with a delay of up to a day in whole microseconds, which
      a permanent failure must not have. */
  lemma FailureBounds(f: Failure)
    ensures ValidFailure(f) <==>
      && |f.message| <= 4096 && Utf8.Valid(f.message) && 0 !in f.message
      && (if f.permanent then f.retryAfter == 0 else exists k :: f.retryAfter == k * MICROSECOND && 0 <= k <= 86_400_000_000)
  {
    if ValidFailure(f) {
      assert f.retryAfter == f.retryAfter / MICROSECOND * MICROSECOND;
    }
  }
}
