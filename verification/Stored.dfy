/** The library never writes a row that it would refuse to read, and keeps the unique index. */
module Stored {
  import opened Base
  import opened Values
  import opened Rows
  import opened Lifecycle
  import Utf8

  lemma ClockTimes(at: int, delay: int)
    requires ClockOk(at) && 0 <= delay <= MAX_DELAY_US
    ensures StoredTime(at) && StoredTime(at + delay)
  {
  }

  lemma NewRowReadable(e: Event)
    requires e.Insert? && Admissible(e)
    ensures Readable(NewRow(e))
  {
  }

  lemma ReapReadable(r: Row, queue: Bytes, at: int)
    requires Readable(r) && Exhausted(r, queue, at) && ClockOk(at)
    ensures Readable(Reap(r, at))
  {
    ClockTimes(at, 0);
    Utf8.AsciiIsClean(LEASE_EXPIRED_FINAL);
  }

  lemma GrantReadable(r: Row, e: Event)
    requires Readable(r) && e.Claim? && Admissible(e) && Eligible(r, e.queue, e.at)
    ensures Readable(Grant(r, e))
  {
    ClockTimes(e.at, e.lease);
    ClockTimes(e.at, 0);
    Utf8.AsciiIsClean(LEASE_EXPIRED);
  }

  lemma FailReadable(r: Row, e: Event)
    requires Readable(r) && e.Fail? && Admissible(e) && Live(r, e.token, e.at)
    ensures Readable(FailRow(r, e))
  {
  }

  lemma OtherReadable(id: Bytes, r: Row, e: Event)
    requires Readable(r) && Admissible(e) && Hits(id, r, e)
    requires e.Heartbeat? || e.Complete? || e.Cancel? || e.Redrive?
    ensures Readable(Change(id, r, e))
  {
  }

  /** Every transition keeps the CHECK constraints and everything validateStoredJob asks for. */
  lemma ChangeReadable(rows: Table, id: Bytes, e: Event)
    requires id in rows && Readable(rows[id]) && Admissible(e) && Guard(rows, e)
    ensures Readable(Change(id, rows[id], e))
  {
    if Hits(id, rows[id], e) {
      if e.Claim? {
        PickedRows(rows, e);
        if id in e.reaped {
          ReapReadable(rows[id], e.queue, e.at);
        } else {
          GrantReadable(rows[id], e);
        }
      } else if e.Fail? {
        FailReadable(rows[id], e);
      } else {
        OtherReadable(id, rows[id], e);
      }
    }
  }

  lemma IdentityKept(id: Bytes, r: Row, e: Event)
    ensures Change(id, r, e).id == r.id && Change(id, r, e).queue == r.queue && Change(id, r, e).key == r.key
    ensures Change(id, r, e).kind == r.kind && Change(id, r, e).payload == r.payload
    ensures Change(id, r, e).maxAttempts == r.maxAttempts && Change(id, r, e).fingerprint == r.fingerprint
    ensures Change(id, r, e).createdAt == r.createdAt
  {
  }

  /** Every row of every reachable table meets all constraints and scans to the job it denotes. */
  lemma {:induction false} RowsReadable(t: Trace, id: Bytes)
    requires Valid(t) && id in After(t)
    ensures After(t)[id].id == id && Checks(After(t)[id])
    ensures Readable(After(t)[id]) && Scanned(Encode(After(t)[id])) == Some(JobOf(After(t)[id]))
  {
    LastStep(t);
    var p, e := t[..|t| - 1], t[|t| - 1];
    RowStep(After(p), e, id);
    if e.Insert? && e.id == id {
      NewRowReadable(e);
    } else {
      RowsReadable(p, id);
      ChangeReadable(After(p), id, e);
      IdentityKept(id, After(p)[id], e);
    }
    ReadableRowsScan(After(t)[id]);
  }

  /** A job that was inserted is there unless it was purged. */
  lemma {:induction false} PresentUnlessPurged(t: Trace, id: Bytes)
    requires Valid(t) && id in InsertedIds(t) && id !in After(t)
    ensures exists j :: 0 <= j < |t| && t[j].Purge? && t[j].id == id
  {
    var p, e := t[..|t| - 1], t[|t| - 1];
    RowStep(After(p), e, id);
    if id !in After(p) {
      ValidPrefix(t, |t| - 1);
      InsertedBeforeLast(t, id);
      PresentUnlessPurged(p, id);
      var j :| 0 <= j < |p| && p[j].Purge? && p[j].id == id;
      assert t[j].Purge? && t[j].id == id;
    }
  }

  lemma InsertedBeforeLast(t: Trace, id: Bytes)
    requires t != [] && id in InsertedIds(t) && !(t[|t| - 1].Insert? && t[|t| - 1].id == id)
    ensures id in InsertedIds(t[..|t| - 1])
  {
    var i :| 0 <= i < |t| && t[i].Insert? && t[i].id == id;
    assert t[..|t| - 1][i] == t[i];
  }

  /** The unique index on (queue, idempotency_key); rows without a key never clash. */
  predicate UniqueKeys(rows: Table) {
    forall x, y :: x in rows && y in rows && x != y && rows[x].key.Some? ==>
      rows[x].queue != rows[y].queue || rows[x].key != rows[y].key
  }

  lemma {:induction false} KeysStayUnique(t: Trace)
    requires Valid(t)
    ensures UniqueKeys(After(t))
  {
    if t != [] {
      LastStep(t);
      var p, e := t[..|t| - 1], t[|t| - 1];
      KeysStayUnique(p);
      var rows, rows' := After(p), After(t);
      forall x, y | x in rows' && y in rows' && x != y && rows'[x].key.Some?
        ensures rows'[x].queue != rows'[y].queue || rows'[x].key != rows'[y].key
      {
        KeyOrigin(rows, e, x);
        KeyOrigin(rows, e, y);
      }
    }
  }

  lemma KeyOrigin(rows: Table, e: Event, id: Bytes)
    requires id in Next(rows, e)
    ensures (e.Insert? && e.id == id && Next(rows, e)[id].queue == e.request.queue && Next(rows, e)[id].key == OptionalText(e.request.key))
            || (id in rows && Next(rows, e)[id].queue == rows[id].queue && Next(rows, e)[id].key == rows[id].key)
  {
  }

  /** Validation is neither too lax nor too strict: a request passes it exactly if its row meets every
      constraint and reads back, and its availability instant survives the trip to the table. */
  lemma ValidationIsTight(at: int, id: Bytes, request: EnqueueRequest, fingerprint: Bytes)
    requires ClockOk(at) && ValidID(id) && |fingerprint| == 32
    ensures ValidEnqueue(request) <==>
      && Readable(NewRow(Insert(at, id, request, fingerprint)))
      && (request.availableAt.IsZero() || FromStored(request.availableAt.ns / MICROSECOND) == request.availableAt)
  {
    var r := NewRow(Insert(at, id, request, fingerprint));
    Utf8.AsciiIsClean([]);
    StoredTimeIsPgTime(request.availableAt.ns / MICROSECOND);
    if !request.availableAt.IsZero() && FromStored(request.availableAt.ns / MICROSECOND) == request.availableAt {
      assert StoredTime(r.availableAt) ==> PgTime(request.availableAt);
    }
    if ValidEnqueue(request) {
      NewRowReadable(Insert(at, id, request, fingerprint));
      if !request.availableAt.IsZero() {
        PgTimeReadBack(request.availableAt);
      }
    }
  }

  /** A granted row reads back exactly if the claim passed validation of worker and token. */
  lemma GrantIsTight(r: Row, e: Event)
    requires Readable(r) && e.Claim? && Eligible(r, e.queue, e.at) && ClockOk(e.at) && LeaseOk(e.lease)
    ensures Readable(Grant(r, e)) <==> ValidWorkerName(e.worker) && ValidToken(e.token)
  {
    ReadableGrant(Grant(r, e), e);
    if ValidWorkerName(e.worker) && ValidToken(e.token) {
      GrantReadable(r, e);
    }
  }

  lemma ReadableGrant(granted: Row, e: Event)
    requires e.Claim? && granted.token == Some(e.token) && granted.owner == Some(e.worker)
    ensures Readable(granted) ==> ValidWorkerName(e.worker) && ValidToken(e.token)
  {
  }

  /** A failed row reads back exactly if the message passed validation. */
  lemma FailIsTight(r: Row, e: Event)
    requires Readable(r) && e.Fail? && Live(r, e.token, e.at) && ClockOk(e.at) && 0 <= e.retry <= MAX_DELAY_US
    ensures Readable(FailRow(r, e)) <==> |e.message| <= MAX_FAILURE_BYTES && Utf8.Clean(e.message)
  {
    ClockTimes(e.at, e.retry);
  }
}
