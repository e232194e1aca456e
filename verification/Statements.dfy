/** claimSQL of pkg/jobs/lifecycle.go in the words of its own clauses: which rows a claim reaps, which one
    it returns and when it returns none. */
module Statements {
  import opened Base
  import opened Rows
  import opened Order
  import opened Lifecycle
  import opened Queueing

  /** The candidate's WHERE clause. */
  predicate Claimable(r: Row, queue: Bytes, at: int) {
    && r.queue == queue
    && match r.state
       case Pending => r.availableAt <= at
       case Running => r.leaseUntil.Some? && r.leaseUntil.value <= at && r.attempts < r.maxAttempts
       case _ => false
  }

  /** The WHERE clause of the rows to reap. */
  predicate Reapable(r: Row, queue: Bytes, at: int) {
    r.state == Running && r.queue == queue && r.attempts >= r.maxAttempts && r.leaseUntil.Some? && r.leaseUntil.value <= at
  }

  /** The WHERE clause of heartbeatSQL, completeSQL and failSQL. */
  predicate Honours(r: Row, token: Bytes, at: int) {
    r.token == Some(token) && r.state == Running && r.leaseUntil.Some? && at < r.leaseUntil.value
  }

  lemma ClausesAreModelled(r: Row, queue: Bytes, token: Bytes, at: int)
    ensures Claimable(r, queue, at) <==> Eligible(r, queue, at)
    ensures Reapable(r, queue, at) <==> Exhausted(r, queue, at)
    ensures Honours(r, token, at) <==> Live(r, token, at)
  {
  }

  // ----- ORDER BY -----

  /** ORDER BY time, created_at, id. */
  predicate Precedes(time: int, created: int, id: Bytes, time': int, created': int, id': Bytes) {
    time < time' || (time == time' && (created < created' || (created == created' && TextBefore(id, id'))))
  }

  lemma KeysPrecede(time: int, created: int, id: Bytes, time': int, created': int, id': Bytes)
    requires Less([time, created] + id, [time', created'] + id')
    ensures Precedes(time, created, id, time', created', id')
  {
    var a, b := [time, created] + id, [time', created'] + id';
    assert a[1..] == [created] + id && b[1..] == [created'] + id';
    if time == time' && created == created' {
      assert a[1..][1..] == id && b[1..][1..] == id';
      LessIsTextOrder(id, id');
    }
  }

  // ----- What a claim reaps, returns and leaves -----

  /** CASE WHEN state = 'pending' THEN available_at ELSE lease_until END */
  function DueTime(r: Row): int
    requires r.state == Pending || r.leaseUntil.Some?
  {
    if r.state == Pending then r.availableAt else r.leaseUntil.value
  }

  /** The claimed row is due in the queue that was asked for and not locked, and no other such row precedes it. */
  lemma ClaimReturnsEarliestDue(rows: Table, e: Event, other: Bytes)
    requires e.Claim? && ClaimPicks(rows, e) && e.got.Some?
    ensures e.got.value in rows && e.got.value !in e.skip && Claimable(rows[e.got.value], e.queue, e.at)
    ensures other in rows && other !in e.skip && other != e.got.value && Claimable(rows[other], e.queue, e.at) ==>
      Precedes(DueTime(rows[e.got.value]), rows[e.got.value].createdAt, e.got.value, DueTime(rows[other]), rows[other].createdAt, other)
  {
    var id := e.got.value;
    ClausesAreModelled(rows[id], e.queue, [], e.at);
    if other in rows && other !in e.skip && other != id && Claimable(rows[other], e.queue, e.at) {
      ClausesAreModelled(rows[other], e.queue, [], e.at);
      ClaimIsLeast(rows, e, other);
      KeysPrecede(DueTime(rows[id]), rows[id].createdAt, id, DueTime(rows[other]), rows[other].createdAt, other);
    }
  }

  /** ErrNoJob means that no due row of the queue was unlocked. */
  lemma NoJobMeansNoneDue(rows: Table, e: Event, id: Bytes)
    requires e.Claim? && ClaimPicks(rows, e) && e.got.None?
    requires id in rows && id !in e.skip
    ensures !Claimable(rows[id], e.queue, e.at)
  {
    ClausesAreModelled(rows[id], e.queue, [], e.at);
    var keys := EligibleKeys(rows, e.queue, e.at, e.skip);
    assert id !in keys;
  }

  function AllReapable(rows: Table, queue: Bytes, at: int, skip: set<Bytes>): set<Bytes> {
    set id | id in rows && id !in skip && Reapable(rows[id], queue, at)
  }

  /** The reaped rows are the first hundred of the unlocked rows of the queue whose final lease has expired. */
  lemma ClaimReapsEarliest(rows: Table, e: Event)
    requires e.Claim? && ClaimPicks(rows, e)
    ensures var all := AllReapable(rows, e.queue, e.at, e.skip);
            && e.reaped <= all && |e.reaped| == (if |all| < 100 then |all| else 100)
            && forall x, y :: x in e.reaped && y in all - e.reaped ==>
                 Precedes(rows[x].leaseUntil.value, rows[x].createdAt, x, rows[y].leaseUntil.value, rows[y].createdAt, y)
  {
    var keys, all := ExhaustedKeys(rows, e.queue, e.at, e.skip), AllReapable(rows, e.queue, e.at, e.skip);
    forall id ensures id in keys <==> id in all {
      if id in rows {
        ClausesAreModelled(rows[id], e.queue, [], e.at);
      }
    }
    assert keys.Keys == all;
    ReapedCount(rows, e);
    PickedRows(rows, e);
    forall x, y | x in e.reaped && y in all - e.reaped
      ensures Precedes(rows[x].leaseUntil.value, rows[x].createdAt, x, rows[y].leaseUntil.value, rows[y].createdAt, y)
    {
      LeftOut(keys, 100, y);
      KeysPrecede(rows[x].leaseUntil.value, rows[x].createdAt, x, rows[y].leaseUntil.value, rows[y].createdAt, y);
    }
  }

  /** What a claim leaves of each row. */
  lemma ClaimLeaves(rows: Table, e: Event, id: Bytes)
    requires e.Claim? && Picked(rows, e) && id in rows
    ensures id in Next(rows, e)
    ensures id in e.reaped ==>
      Next(rows, e)[id] == rows[id].(state := Dead, token := None, owner := None, leaseUntil := None, finishedAt := Some(e.at),
                                     updatedAt := e.at, lastError := LEASE_EXPIRED_FINAL)
    ensures e.got == Some(id) ==>
      Next(rows, e)[id] == rows[id].(state := Running, attempts := rows[id].attempts + 1, token := Some(e.token),
                                     owner := Some(e.worker), leaseUntil := Some(e.at + e.lease), updatedAt := e.at,
                                     finishedAt := None,
                                     lastError := if rows[id].state == Running then LEASE_EXPIRED else rows[id].lastError)
    ensures id !in e.reaped && e.got != Some(id) ==> Next(rows, e)[id] == rows[id]
  {
    RowStep(rows, e, id);
  }

  // ----- One claim as a whole -----

  /** Rows of other queues and locked rows are as they were. */
  predicate LeavesOthers(rows: Table, rows': Table, queue: Bytes, locked: set<Bytes>) {
    forall id :: id in rows && (id in locked || rows[id].queue != queue) ==> id in rows' && rows'[id] == rows[id]
  }

  predicate NoneDue(rows: Table, queue: Bytes, locked: set<Bytes>, at: int) {
    forall id :: id in rows && id !in locked ==> !Claimable(rows[id], queue, at)
  }

  predicate DueBefore(rows: Table, id: Bytes, other: Bytes, queue: Bytes, locked: set<Bytes>, at: int)
    requires id in rows && Claimable(rows[id], queue, at)
  {
    other in rows && other !in locked && other != id && Claimable(rows[other], queue, at) ==>
      Precedes(DueTime(rows[id]), rows[id].createdAt, id, DueTime(rows[other]), rows[other].createdAt, other)
  }

  /** The first of the due and unlocked rows of the queue. */
  ghost predicate EarliestDue(rows: Table, id: Bytes, queue: Bytes, locked: set<Bytes>, at: int) {
    && id in rows && id !in locked && Claimable(rows[id], queue, at)
    && forall other :: DueBefore(rows, id, other, queue, locked, at)
  }

  lemma ClaimLeavesOthers(rows: Table, e: Event)
    requires e.Claim? && ClaimPicks(rows, e)
    ensures LeavesOthers(rows, Next(rows, e), e.queue, e.skip)
  {
    PickedRows(rows, e);
    forall id | id in rows && (id in e.skip || rows[id].queue != e.queue) ensures id in Next(rows, e) && Next(rows, e)[id] == rows[id] {
      ClaimLeaves(rows, e, id);
    }
  }

  lemma ClaimPicksEarliest(rows: Table, e: Event)
    requires e.Claim? && ClaimPicks(rows, e)
    ensures if e.got.None? then NoneDue(rows, e.queue, e.skip, e.at) else EarliestDue(rows, e.got.value, e.queue, e.skip, e.at)
  {
    if e.got.None? {
      forall id | id in rows && id !in e.skip ensures !Claimable(rows[id], e.queue, e.at) {
        NoJobMeansNoneDue(rows, e, id);
      }
    } else {
      ClaimReturnsEarliestDue(rows, e, e.got.value);
      forall other ensures DueBefore(rows, e.got.value, other, e.queue, e.skip, e.at) {
        ClaimReturnsEarliestDue(rows, e, other);
      }
    }
  }
}
