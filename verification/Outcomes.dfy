/** What the operations bring about over whole runs: completion, failure for good, scheduling, and a lease
    that works until it expires. */
module Outcomes {
  import opened Base
  import opened Rows
  import opened Lifecycle
  import opened Fencing
  import opened Queueing
  import opened Statements

  // ----- Complete -----

  lemma CompletedRow(t: Trace, i: nat, id: Bytes, token: Bytes)
    requires i < |t| && t[i].Complete? && Used(t, i, id, token)
    ensures id in Before(t, i) && id in Before(t, i + 1)
    ensures Before(t, i + 1)[id] == Before(t, i)[id].(state := Succeeded, token := None, owner := None, leaseUntil := None,
                                                      finishedAt := Some(t[i].at), updatedAt := t[i].at)
  {
    StepAt(t, i);
    RowStep(Before(t, i), t[i], id);
  }

  /** An accepted Complete makes the job succeeded, for good. */
  lemma CompletionSucceeds(t: Trace, i: nat, j: nat, id: Bytes, token: Bytes)
    requires Valid(t) && i < j <= |t| && t[i].Complete? && Used(t, i, id, token)
    ensures id in Before(t, j) ==> Before(t, j)[id].state == Succeeded && Before(t, j)[id].finishedAt == Some(t[i].at)
  {
    CompletedRow(t, i, id, token);
    TerminalIsFinal(t, i + 1, j, id);
  }

  // ----- Fail -----

  lemma FailedRow(t: Trace, i: nat, id: Bytes, token: Bytes)
    requires i < |t| && t[i].Fail? && Used(t, i, id, token)
    ensures id in Before(t, i) && id in Before(t, i + 1)
    ensures var was := Before(t, i)[id];
            Before(t, i + 1)[id] == if t[i].permanent || was.attempts >= was.maxAttempts
              then was.(state := Dead, token := None, owner := None, leaseUntil := None, lastError := t[i].message,
                        finishedAt := Some(t[i].at), updatedAt := t[i].at)
              else was.(state := Pending, availableAt := t[i].at + t[i].retry, token := None, owner := None, leaseUntil := None,
                        lastError := t[i].message, finishedAt := None, updatedAt := t[i].at)
  {
    StepAt(t, i);
    RowStep(Before(t, i), t[i], id);
  }

  /** A failure that is permanent, or the last attempt's, ends the job: until someone redrives it, it is dead
      with that failure's message and is never claimed again. */
  lemma FailedForGood(t: Trace, i: nat, j: nat, id: Bytes, token: Bytes)
    requires Valid(t) && i < j < |t| && t[i].Fail? && Used(t, i, id, token)
    requires t[i].permanent || Before(t, i)[id].attempts >= Before(t, i)[id].maxAttempts
    requires forall m :: i < m < j ==> !(t[m].Redrive? && t[m].id == id)
    ensures id in Before(t, j) ==> Before(t, j)[id].state == Dead && Before(t, j)[id].lastError == t[i].message
    ensures !(t[j].Claim? && t[j].got == Some(id))
  {
    FailedRow(t, i, id, token);
    DeadStaysSame(t, i, j, id);
    PickedAt(t, j);
  }

  // ----- Scheduling -----

  lemma InsertedRow(t: Trace, i: nat)
    requires i < |t| && t[i].Insert?
    ensures t[i].id in Before(t, i + 1) && Before(t, i + 1)[t[i].id].state == Pending && Before(t, i + 1)[t[i].id].attempts == 0
    ensures var r := t[i].request;
            Before(t, i + 1)[t[i].id].availableAt == if r.availableAt.IsZero() then t[i].at else r.availableAt.ns / MICROSECOND
  {
    StepAt(t, i);
    RowStep(Before(t, i), t[i], t[i].id);
  }

  lemma {:induction false} ScheduledUntil(t: Trace, i: nat, j: nat, id: Bytes, until: int)
    requires Valid(t) && i < j <= |t| && t[i].Insert? && t[i].id == id
    requires id in Before(t, i + 1) && Before(t, i + 1)[id].state == Pending && Before(t, i + 1)[id].availableAt == until
    ensures Waiting(Before(t, j), id, until, t[j - 1].at)
    decreases j
  {
    if j > i + 1 {
      ScheduledUntil(t, i, j - 1, id, until);
      StepAt(t, j - 1);
      ClockMonotone(t, j - 2, j - 1);
      IdFreshAfter(t, i, j - 1);
      PickedAt(t, j - 1);
      WaitingStep(Before(t, j - 1), t[j - 1], id, until, t[j - 2].at);
    }
  }

  lemma IdFreshAfter(t: Trace, i: nat, j: nat)
    requires Valid(t) && i < j < |t| && t[i].Insert?
    ensures !(t[j].Insert? && t[j].id == t[i].id)
  {
    if t[j].Insert? {
      IdFresh(t, i, j);
    }
  }

  /** A job enqueued for a later instant is not claimed before it, whatever happens to it. */
  lemma AvailabilityRespected(t: Trace, i: nat, j: nat)
    requires Valid(t) && i < j < |t| && t[i].Insert? && !t[i].request.availableAt.IsZero()
    requires t[j].Claim? && t[j].got == Some(t[i].id)
    ensures t[i].request.availableAt.ns / MICROSECOND <= t[j].at
  {
    var id, until := t[i].id, t[i].request.availableAt.ns / MICROSECOND;
    InsertedRow(t, i);
    ScheduledUntil(t, i, j, id, until);
    IdFreshAfter(t, i, j);
    PickedAt(t, j);
    ClockMonotone(t, j - 1, j);
    WaitingStep(Before(t, j), t[j], id, until, t[j - 1].at);
  }

  // ----- A lease works until it expires -----

  /** The row is running under the lease until the given time. */
  predicate Holds(rows: Table, id: Bytes, token: Bytes, until: int) {
    id in rows && rows[id].state == Running && rows[id].token == Some(token) && rows[id].leaseUntil == Some(until)
  }

  lemma HoldsStep(rows: Table, e: Event, id: Bytes, token: Bytes, until: int)
    requires Holds(rows, id, token, until) && e.at < until && (e.Claim? ==> Picked(rows, e))
    requires !((e.Cancel? || e.Purge?) && e.id == id) && !(LeaseUse(e) && e.id == id && e.token == token)
    requires !(e.Insert? && e.id == id)
    ensures Holds(Next(rows, e), id, token, until)
  {
    RowStep(rows, e, id);
  }

  /** Nothing that may end or renew the lease happens strictly between events i and j. */
  predicate LeftAlone(t: Trace, i: nat, j: nat, id: Bytes, token: Bytes)
    requires j <= |t|
  {
    forall m :: i < m < j ==>
      !((t[m].Cancel? || t[m].Purge?) && t[m].id == id) && !(LeaseUse(t[m]) && t[m].id == id && t[m].token == token)
  }

  lemma {:induction false} HoldsUntil(t: Trace, i: nat, j: nat, id: Bytes, token: Bytes, until: int)
    requires Valid(t) && i < j < |t| && Grants(t, i, id, token, until) && LeftAlone(t, i, j, id, token)
    requires t[j].at < until
    ensures Holds(Before(t, j), id, token, until)
    decreases j
  {
    StepAt(t, j - 1);
    ClockMonotone(t, j - 1, j);
    if j == i + 1 {
      PickedAt(t, i);
      RowStep(Before(t, i), t[i], id);
    } else {
      HoldsUntil(t, i, j - 1, id, token, until);
      NotReinserted(t, i, j - 1, id);
      PickedAt(t, j - 1);
      HoldsStep(Before(t, j - 1), t[j - 1], id, token, until);
    }
  }

  /** A granted lease is honoured until its expiry: a heartbeat, Complete or Fail with it before that time is
      accepted, whatever other workers do, unless the job was canceled or deleted, or the lease was used
      in between. */
  lemma LeaseIsHonoured(t: Trace, i: nat, j: nat, id: Bytes, token: Bytes, until: int)
    requires Valid(t) && i < j < |t| && Grants(t, i, id, token, until) && LeftAlone(t, i, j, id, token)
    requires LeaseUse(t[j]) && t[j].id == id && t[j].token == token && t[j].at < until
    ensures Used(t, j, id, token)
  {
    HoldsUntil(t, i, j, id, token, until);
  }

  // ----- Cancel and Redrive -----

  /** An unfinished job that is canceled stays canceled; its holder's lease is gone. */
  lemma CancellationHolds(t: Trace, i: nat, j: nat, id: Bytes)
    requires Valid(t) && i < j <= |t| && t[i].Cancel? && t[i].id == id
    requires id in Before(t, i) && (Before(t, i)[id].state == Pending || Before(t, i)[id].state == Running)
    ensures id in Before(t, j) ==> Before(t, j)[id].state == Canceled && Before(t, j)[id].token == None
  {
    StepAt(t, i);
    RowStep(Before(t, i), t[i], id);
    TerminalIsFinal(t, i + 1, j, id);
  }

  /** A redriven job is due at once, with all its attempts before it. */
  lemma RedriveRevives(t: Trace, i: nat, id: Bytes)
    requires i < |t| && t[i].Redrive? && t[i].id == id && id in Before(t, i) && Before(t, i)[id].state == Dead
    ensures id in Before(t, i + 1) && Before(t, i + 1)[id].attempts == 0 && Claimable(Before(t, i + 1)[id], Before(t, i)[id].queue, t[i].at)
    ensures Before(t, i + 1)[id].lastError == [] && Before(t, i + 1)[id].finishedAt == None
  {
    StepAt(t, i);
    RowStep(Before(t, i), t[i], id);
  }
}
