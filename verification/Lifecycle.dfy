/** The job table as a state machine: each SQL statement of pkg/jobs/lifecycle.go, enqueue.go and
    operations.go that changes rows is one event, taken at one reading of the database clock. */
module Lifecycle {
  import opened Base
  import opened Errors
  import opened Values
  import opened Rows
  import opened Order

  type Table = map<Bytes, Row>

  /** Leases and retry delays are in microseconds here, as the statements receive them.
      A claim's `skip` holds the rows that other transactions have locked. */
  datatype Event =
    | Insert(at: int, id: Bytes, request: EnqueueRequest, fingerprint: Bytes)
    | Claim(at: int, queue: Bytes, worker: Bytes, token: Bytes, lease: int, skip: set<Bytes>,
            reaped: set<Bytes>, got: Option<Bytes>)
    | Heartbeat(at: int, id: Bytes, token: Bytes, lease: int)
    | Complete(at: int, id: Bytes, token: Bytes)
    | Fail(at: int, id: Bytes, token: Bytes, message: Bytes, retry: int, permanent: bool)
    | Cancel(at: int, id: Bytes)
    | Redrive(at: int, id: Bytes)
    | Purge(at: int, id: Bytes)  // the operator deletes a row

  // ----- Row conditions of the statements -----

  predicate Exhausted(r: Row, queue: Bytes, at: int) {
    && r.queue == queue && r.state == Running
    && r.leaseUntil.Some? && r.leaseUntil.value <= at && r.attempts >= r.maxAttempts
  }

  predicate Eligible(r: Row, queue: Bytes, at: int) {
    && r.queue == queue
    && ((r.state == Pending && r.availableAt <= at)
        || (r.state == Running && r.leaseUntil.Some? && r.leaseUntil.value <= at && r.attempts < r.maxAttempts))
  }

  /** The lease condition that Heartbeat, Complete and Fail share. */
  predicate Live(r: Row, token: Bytes, at: int) {
    r.state == Running && r.token == Some(token) && r.leaseUntil.Some? && r.leaseUntil.value > at
  }

  function Due(r: Row): int {
    if r.state == Running && r.leaseUntil.Some? then r.leaseUntil.value else r.availableAt
  }

  function DueKey(id: Bytes, r: Row): seq<int> { [Due(r), r.createdAt] + id }

  function ExhaustedKeys(rows: Table, queue: Bytes, at: int, skip: set<Bytes>): (keys: Keys)
    ensures Distinct(keys)
  {
    var keys := map id | id in rows && id !in skip && Exhausted(rows[id], queue, at) :: DueKey(id, rows[id]);
    KeysDistinct(rows, keys);
    keys
  }

  function EligibleKeys(rows: Table, queue: Bytes, at: int, skip: set<Bytes>): (keys: Keys)
    ensures Distinct(keys)
  {
    var keys := map id | id in rows && id !in skip && Eligible(rows[id], queue, at) :: DueKey(id, rows[id]);
    KeysDistinct(rows, keys);
    keys
  }

  lemma KeysDistinct(rows: Table, keys: Keys)
    requires forall id :: id in keys ==> id in rows && keys[id] == DueKey(id, rows[id])
    ensures Distinct(keys)
  {
    forall x, y ensures Apart(keys, x, y) {
      assert x in keys ==> x == keys[x][2..];
      assert y in keys ==> y == keys[y][2..];
    }
  }

  /** The rows that one claim reaps and the row that it picks. */
  predicate ClaimPicks(rows: Table, e: Event)
    requires e.Claim?
  {
    var candidates := EligibleKeys(rows, e.queue, e.at, e.skip);
    && e.reaped == Ids(First(ExhaustedKeys(rows, e.queue, e.at, e.skip), 100))
    && e.got == if candidates == map[] then None else Some(Least(candidates))
  }

  predicate KeyTaken(rows: Table, queue: Bytes, key: Bytes) {
    exists id :: id in rows && rows[id].queue == queue && rows[id].key == Some(key)
  }

  /** When the event can be taken: the unique constraints for an insertion, the selection for a claim. */
  predicate Guard(rows: Table, e: Event) {
    match e
    case Insert(_, id, request, _) => id !in rows && (request.key != [] ==> !KeyTaken(rows, request.queue, request.key))
    case Claim(_, _, _, _, _, _, _, _) => ClaimPicks(rows, e)
    case _ => true
  }

  // ----- Row updates of the statements -----

  const LEASE_EXPIRED := Ascii("lease expired before acknowledgement")
  const LEASE_EXPIRED_FINAL := Ascii("lease expired after final attempt")

  function NewRow(e: Event): Row
    requires e.Insert?
  {
    var r := e.request;
    Row(e.id, r.queue, r.kind, r.payload, OptionalText(r.key), e.fingerprint, Pending, 0, r.maxAttempts,
        if r.availableAt.IsZero() then e.at else r.availableAt.ns / MICROSECOND, e.at, e.at, None, None, None, [], None)
  }

  function Finish(r: Row, state: State, at: int): Row {
    r.(state := state, token := None, owner := None, leaseUntil := None, finishedAt := Some(at), updatedAt := at)
  }

  function Reap(r: Row, at: int): Row { Finish(r, Dead, at).(lastError := LEASE_EXPIRED_FINAL) }

  function Grant(r: Row, e: Event): Row
    requires e.Claim?
  {
    r.(state := Running, attempts := r.attempts + 1, token := Some(e.token), owner := Some(e.worker),
       leaseUntil := Some(e.at + e.lease), updatedAt := e.at, finishedAt := None,
       lastError := if r.state == Running then LEASE_EXPIRED else r.lastError)
  }

  function FailRow(r: Row, e: Event): Row
    requires e.Fail?
  {
    if e.permanent || r.attempts >= r.maxAttempts then Finish(r, Dead, e.at).(lastError := e.message)
    else r.(state := Pending, availableAt := e.at + e.retry, token := None, owner := None, leaseUntil := None,
            lastError := e.message, finishedAt := None, updatedAt := e.at)
  }

  function RedriveRow(r: Row, at: int): Row {
    r.(state := Pending, attempts := 0, availableAt := at, token := None, owner := None, leaseUntil := None,
       lastError := [], finishedAt := None, updatedAt := at)
  }

  /** The row conditions under which the event changes row `id`. */
  predicate Hits(id: Bytes, r: Row, e: Event) {
    match e
    case Insert(_, _, _, _) => false
    case Claim(_, _, _, _, _, _, reaped, got) => id in reaped || got == Some(id)
    case Heartbeat(at, i, token, _) => i == id && Live(r, token, at)
    case Complete(at, i, token) => i == id && Live(r, token, at)
    case Fail(at, i, token, _, _, _) => i == id && Live(r, token, at)
    case Cancel(_, i) => i == id && r.state in {Pending, Running}
    case Redrive(_, i) => i == id && r.state == Dead
    case Purge(_, _) => false
  }

  function Change(id: Bytes, r: Row, e: Event): Row {
    if !Hits(id, r, e) then r
    else match e
      case Claim(at, _, _, _, _, _, reaped, _) => if id in reaped then Reap(r, at) else Grant(r, e)
      case Heartbeat(at, _, _, lease) => r.(leaseUntil := Some(at + lease), updatedAt := at)
      case Complete(at, _, _) => Finish(r, Succeeded, at)
      case Fail(_, _, _, _, _, _) => FailRow(r, e)
      case Cancel(at, _) => Finish(r, Canceled, at)
      case Redrive(at, _) => RedriveRow(r, at)
      case _ => r
  }

  /** The table after the event. */
  function Next(rows: Table, e: Event): Table {
    match e
    case Insert(_, id, _, _) => rows[id := NewRow(e)]
    case Purge(_, id) => rows - {id}
    case _ => map id | id in rows :: Change(id, rows[id], e)
  }

  /** Heartbeat, Complete and Fail report success; every other use of the lease is refused. */
  predicate LeaseUse(e: Event) { e.Heartbeat? || e.Complete? || e.Fail? }

  predicate Accepted(rows: Table, e: Event)
    requires LeaseUse(e)
  {
    e.id in rows && Hits(e.id, rows[e.id], e)
  }

  /** classifyLease, on the rows its own SELECT sees. */
  function Classify(rows: Table, id: Bytes): Sentinel {
    if id !in rows then ErrNotFound
    else if rows[id].state == Canceled then ErrCanceled
    else ErrLeaseLost
  }

  // ----- Runs -----

  const MAX_DELAY_US: int := MAX_RETRY_DELAY / MICROSECOND

  /** The database clock is past year 1 and more than 24 hours before the end of its range. */
  predicate ClockOk(at: int) { ZERO_US < at <= MAX_US - MAX_DELAY_US }

  predicate LeaseOk(lease: int) { MIN_LEASE <= lease * MICROSECOND <= MAX_LEASE }

  /** The inputs have passed the library's own validation. */
  predicate Admissible(e: Event) {
    && ClockOk(e.at)
    && match e
       case Insert(_, id, request, fingerprint) => ValidID(id) && ValidEnqueue(request) && |fingerprint| == 32
       case Claim(_, queue, worker, token, lease, _, _, _) =>
         ValidName(queue, MAX_QUEUE_BYTES) && ValidWorkerName(worker) && ValidToken(token) && LeaseOk(lease)
       case Heartbeat(_, _, _, lease) => LeaseOk(lease)
       case Fail(_, _, _, message, retry, permanent) => ValidFailure(Failure(message, retry * MICROSECOND, permanent))
       case _ => true
  }

  type Trace = seq<Event>

  /** The table that a run of events leaves, starting from the empty table. */
  function After(t: Trace): Table {
    if t == [] then map[] else Next(After(t[..|t| - 1]), t[|t| - 1])
  }

  function Tokens(t: Trace): set<Bytes> { set i | 0 <= i < |t| && t[i].Claim? :: t[i].token }

  function InsertedIds(t: Trace): set<Bytes> { set i | 0 <= i < |t| && t[i].Insert? :: t[i].id }

  /** The clock never goes backwards, and freshly drawn tokens and job IDs are new. */
  predicate FreshAfter(t: Trace, e: Event) {
    && (t != [] ==> t[|t| - 1].at <= e.at)
    && (e.Claim? ==> e.token !in Tokens(t))
    && (e.Insert? ==> e.id !in InsertedIds(t))
  }

  predicate Follows(t: Trace, e: Event) {
    Admissible(e) && FreshAfter(t, e) && Guard(After(t), e)
  }

  predicate Step(t: Trace, i: nat)
    requires i < |t|
  {
    Follows(t[..i], t[i])
  }

  predicate Valid(t: Trace) { forall i :: 0 <= i < |t| ==> Step(t, i) }

  /** The table just before event i of a run. */
  function Before(t: Trace, i: nat): Table
    requires i <= |t|
  {
    After(t[..i])
  }

  lemma ValidPrefix(t: Trace, i: nat)
    requires Valid(t) && i <= |t|
    ensures Valid(t[..i])
  {
    forall j | 0 <= j < i ensures Step(t[..i], j) {
      assert Step(t, j);
      assert t[..i][..j] == t[..j];
    }
  }

  lemma ValidExtends(t: Trace, e: Event)
    requires Valid(t) && Follows(t, e)
    ensures Valid(t + [e]) && After(t + [e]) == Next(After(t), e)
  {
    assert (t + [e])[..|t|] == t;
    forall j | 0 <= j < |t| + 1 ensures Step(t + [e], j) {
      if j < |t| {
        assert Step(t, j);
        assert (t + [e])[..j] == t[..j];
      }
    }
  }

  /** One step of a run, seen from any position. */
  lemma StepAt(t: Trace, i: nat)
    requires i < |t|
    ensures Before(t, i + 1) == Next(Before(t, i), t[i])
    ensures t[..i + 1][..i] == t[..i]
  {
    assert t[..i + 1][..i] == t[..i];
  }

  /** The last step of a run. */
  lemma LastStep(t: Trace)
    requires Valid(t) && t != []
    ensures Valid(t[..|t| - 1]) && Follows(t[..|t| - 1], t[|t| - 1])
  {
    ValidPrefix(t, |t| - 1);
    assert Step(t, |t| - 1);
  }

  lemma {:induction false} ClockMonotone(t: Trace, i: nat, j: nat)
    requires Valid(t) && i <= j < |t|
    ensures t[i].at <= t[j].at
    decreases j
  {
    if i < j {
      ClockMonotone(t, i, j - 1);
      assert Step(t, j);
      assert t[..j][j - 1] == t[j - 1];
    }
  }

  lemma TokenFresh(t: Trace, i: nat, j: nat)
    requires Valid(t) && i < j < |t| && t[i].Claim? && t[j].Claim?
    ensures t[i].token != t[j].token
  {
    assert Step(t, j);
    assert t[..j][i] == t[i];
    assert t[i].token in Tokens(t[..j]);
  }

  lemma TokenNotDrawnAgain(t: Trace, i: nat, j: nat, token: Bytes)
    requires Valid(t) && i <= j < |t| && token in Tokens(t[..i])
    ensures t[j].Claim? ==> t[j].token != token
  {
    var k :| 0 <= k < i && t[..i][k].Claim? && t[..i][k].token == token;
    if t[j].Claim? {
      TokenFresh(t, k, j);
    }
  }

  lemma IdFresh(t: Trace, i: nat, j: nat)
    requires Valid(t) && i < j < |t| && t[i].Insert? && t[j].Insert?
    ensures t[i].id != t[j].id
  {
    assert Step(t, j);
    assert t[..j][i] == t[i];
    assert t[i].id in InsertedIds(t[..j]);
  }

  /** A job that has been inserted is not inserted again. */
  lemma NotInsertedAgain(t: Trace, i: nat, j: nat, id: Bytes)
    requires Valid(t) && i <= j < |t| && id in InsertedIds(t[..i])
    ensures !(t[j].Insert? && t[j].id == id)
  {
    var k :| 0 <= k < i && t[..i][k].Insert? && t[..i][k].id == id;
    if t[j].Insert? {
      IdFresh(t, k, j);
    }
  }

  /** A claim reaps exhausted rows and picks one eligible row, none of them skipped. */
  predicate Picked(rows: Table, e: Event)
    requires e.Claim?
  {
    && (forall id :: id in e.reaped ==> id in rows && id !in e.skip && Exhausted(rows[id], e.queue, e.at))
    && (e.got.Some? ==> e.got.value in rows && e.got.value !in e.skip && Eligible(rows[e.got.value], e.queue, e.at)
                        && e.got.value !in e.reaped)
  }

  lemma PickedRows(rows: Table, e: Event)
    requires e.Claim? && ClaimPicks(rows, e)
    ensures Picked(rows, e)
  {
    var s := First(ExhaustedKeys(rows, e.queue, e.at, e.skip), 100);
    forall id | id in e.reaped ensures id in ExhaustedKeys(rows, e.queue, e.at, e.skip) {
      var i :| 0 <= i < |s| && s[i] == id;
      assert id in OrderBy(ExhaustedKeys(rows, e.queue, e.at, e.skip));
    }
  }

  lemma PickedAt(t: Trace, i: nat)
    requires Valid(t) && i < |t|
    ensures t[i].Claim? ==> Picked(Before(t, i), t[i])
  {
    assert Step(t, i);
    if t[i].Claim? {
      PickedRows(Before(t, i), t[i]);
    }
  }

  /** Each event changes each row only by its own update; only insertion adds and only purging removes. */
  lemma RowStep(rows: Table, e: Event, id: Bytes)
    ensures id in Next(rows, e) <==> (id in rows && !(e.Purge? && e.id == id)) || (e.Insert? && e.id == id)
    ensures id in rows && id in Next(rows, e) && !(e.Insert? && e.id == id) ==> Next(rows, e)[id] == Change(id, rows[id], e)
    ensures e.Insert? && e.id == id ==> Next(rows, e)[id] == NewRow(e)
  {
  }

  lemma InsertedInLonger(t: Trace, id: Bytes)
    requires t != [] && id in InsertedIds(t[..|t| - 1])
    ensures id in InsertedIds(t)
  {
  }

  /** Rows that were never inserted, or were purged, do not come back: job IDs are used once. */
  lemma {:induction false} PresentWasInserted(t: Trace, id: Bytes)
    requires Valid(t) && id in After(t)
    ensures id in InsertedIds(t)
  {
    var p, e := t[..|t| - 1], t[|t| - 1];
    RowStep(After(p), e, id);
    if id in After(p) {
      ValidPrefix(t, |t| - 1);
      PresentWasInserted(p, id);
      InsertedInLonger(t, id);
    }
  }

  lemma InsertedBefore(t: Trace, i: nat, id: Bytes)
    requires Valid(t) && i <= |t| && id in Before(t, i)
    ensures id in InsertedIds(t[..i])
  {
    ValidPrefix(t, i);
    PresentWasInserted(t[..i], id);
  }

  /** A job that is in the table is never inserted again. */
  lemma NeverReinserted(t: Trace, i: nat, j: nat, id: Bytes)
    requires Valid(t) && i <= j < |t| && id in Before(t, i)
    ensures !(t[j].Insert? && t[j].id == id)
  {
    InsertedBefore(t, i, id);
    NotInsertedAgain(t, i, j, id);
  }

  /** Only a claim puts a token on a row, and it is the claim's own. */
  lemma TokenSource(id: Bytes, r: Row, e: Event)
    ensures Change(id, r, e).token in {None, r.token} || (e.Claim? && e.got == Some(id) && Change(id, r, e).token == Some(e.token))
  {
  }

  lemma TokenInLonger(t: Trace, token: Bytes)
    requires t != [] && token in Tokens(t[..|t| - 1])
    ensures token in Tokens(t)
  {
  }

  lemma {:induction false} TokenWasDrawn(t: Trace, id: Bytes)
    requires Valid(t) && id in After(t) && After(t)[id].token.Some?
    ensures After(t)[id].token.value in Tokens(t)
  {
    var p, e := t[..|t| - 1], t[|t| - 1];
    RowStep(After(p), e, id);
    if id in After(p) && !(e.Insert? && e.id == id) {
      TokenSource(id, After(p)[id], e);
      if After(t)[id].token == After(p)[id].token {
        ValidPrefix(t, |t| - 1);
        TokenWasDrawn(p, id);
        TokenInLonger(t, After(t)[id].token.value);
      }
    }
  }
}
