/** Fencing over whole runs: what one lease token can do, and when a job may be claimed again. */
module Fencing {
  import opened Base
  import opened Errors
  import opened Rows
  import opened Lifecycle

  // ----- A dead lease stays dead -----

  predicate DeadLease(rows: Table, id: Bytes, token: Bytes, at: int) {
    id in rows ==> !Live(rows[id], token, at)
  }

  lemma DeadStep(rows: Table, e: Event, id: Bytes, token: Bytes)
    requires DeadLease(rows, id, token, e.at)
    requires e.Claim? ==> e.token != token
    ensures DeadLease(Next(rows, e), id, token, e.at)
  {
  }

  lemma {:induction false} DeadStaysDead(t: Trace, i: nat, j: nat, id: Bytes, token: Bytes)
    requires Valid(t) && i <= j < |t| && token in Tokens(t[..i])
    requires DeadLease(Before(t, i), id, token, t[i].at)
    ensures DeadLease(Before(t, j), id, token, t[j].at)
    decreases j
  {
    if i < j {
      DeadStaysDead(t, i, j - 1, id, token);
      StepAt(t, j - 1);
      TokenNotDrawnAgain(t, i, j - 1, token);
      DeadStep(Before(t, j - 1), t[j - 1], id, token);
      ClockMonotone(t, j - 1, j);
    }
  }

  predicate Refused(t: Trace, i: nat, id: Bytes, token: Bytes)
    requires i < |t|
  {
    LeaseUse(t[i]) && t[i].id == id && t[i].token == token && !Accepted(Before(t, i), t[i])
  }

  predicate Used(t: Trace, i: nat, id: Bytes, token: Bytes)
    requires i < |t|
  {
    LeaseUse(t[i]) && t[i].id == id && t[i].token == token && Accepted(Before(t, i), t[i])
  }

  predicate Acknowledged(t: Trace, i: nat, id: Bytes, token: Bytes)
    requires i < |t|
  {
    Used(t, i, id, token) && !t[i].Heartbeat?
  }

  predicate Issued(t: Trace, i: nat, id: Bytes, token: Bytes)
    requires i < |t|
  {
    t[i].Claim? && t[i].got == Some(id) && t[i].token == token
  }

  lemma IssuedEarlier(t: Trace, k: nat, i: nat, id: Bytes, token: Bytes)
    requires k < i <= |t| && Issued(t, k, id, token)
    ensures token in Tokens(t[..i])
  {
  }

  /** Along a run of atomic events, once any use of an issued lease has been refused, every later use of it
      is refused. What concurrent transactions add to this is in Refusals. */
  lemma RefusalIsFinal(t: Trace, k: nat, i: nat, j: nat, id: Bytes, token: Bytes)
    requires Valid(t) && k < i < j < |t|
    requires Issued(t, k, id, token) && Refused(t, i, id, token)
    ensures !Used(t, j, id, token)
  {
    IssuedEarlier(t, k, i, id, token);
    DeadStaysDead(t, i, j, id, token);
  }

  /** A lease is acknowledged at most once, and nothing succeeds with it afterwards. */
  lemma AcknowledgedOnce(t: Trace, k: nat, i: nat, j: nat, id: Bytes, token: Bytes)
    requires Valid(t) && k < i < j < |t|
    requires Issued(t, k, id, token) && Acknowledged(t, i, id, token)
    ensures !Used(t, j, id, token)
  {
    StepAt(t, i);
    RowStep(Before(t, i), t[i], id);
    IssuedEarlier(t, k, i + 1, id, token);
    DeadStaysDead(t, i + 1, j, id, token);
  }

  lemma ClaimReplacesToken(rows: Table, e: Event, id: Bytes, older: Bytes, at: int)
    requires e.Claim? && e.got == Some(id) && Picked(rows, e) && e.token != older
    ensures DeadLease(Next(rows, e), id, older, at)
  {
  }

  /** A newer claim of the job makes every older lease on it useless for good. */
  lemma SupersededLease(t: Trace, k: nat, i: nat, j: nat, id: Bytes, older: Bytes, newer: Bytes)
    requires Valid(t) && k < i < j < |t|
    requires Issued(t, k, id, older) && Issued(t, i, id, newer)
    ensures !Used(t, j, id, older)
  {
    TokenFresh(t, k, i);
    StepAt(t, i);
    PickedAt(t, i);
    ClaimReplacesToken(Before(t, i), t[i], id, older, t[i + 1].at);
    IssuedEarlier(t, k, i + 1, id, older);
    DeadStaysDead(t, i + 1, j, id, older);
  }

  /** The token on a row, the only one that can be accepted for it, was put there by the newest claim of
      the job, which drew it. */
  lemma {:induction false} TokenWasIssued(t: Trace, id: Bytes) returns (k: nat)
    requires Valid(t) && id in After(t) && After(t)[id].token.Some?
    ensures k < |t| && Issued(t, k, id, After(t)[id].token.value)
    ensures forall m :: k < m < |t| ==> !(t[m].Claim? && t[m].got == Some(id))
  {
    var p, e := t[..|t| - 1], t[|t| - 1];
    ValidPrefix(t, |t| - 1);
    PickedAt(t, |t| - 1);
    RowStep(After(p), e, id);
    TokenSource(id, After(p)[id], e);
    if e.Claim? && e.got == Some(id) && After(t)[id].token == Some(e.token) {
      k := |t| - 1;
    } else {
      k := TokenWasIssued(p, id);
    }
  }

  /** Every accepted use of a lease goes back to exactly one claim, which issued it for that job. */
  lemma UseWasIssued(t: Trace, j: nat, id: Bytes, token: Bytes) returns (k: nat)
    requires Valid(t) && j < |t| && Used(t, j, id, token)
    ensures k < j && Issued(t, k, id, token)
    ensures forall m :: 0 <= m < |t| && m != k && t[m].Claim? ==> t[m].token != token
  {
    ValidPrefix(t, j);
    k := TokenWasIssued(t[..j], id);
    forall m | 0 <= m < |t| && m != k && t[m].Claim? ensures t[m].token != token {
      if m < k { TokenFresh(t, m, k); } else { TokenFresh(t, k, m); }
    }
  }

  // ----- Reclaiming -----

  /** Event i grants the lease until the given time: the claim itself or a later heartbeat. */
  predicate Grants(t: Trace, i: nat, id: Bytes, token: Bytes, until: int)
    requires i < |t|
  {
    || (Issued(t, i, id, token) && until == t[i].at + t[i].lease)
    || (t[i].Heartbeat? && Used(t, i, id, token) && until == t[i].at + t[i].lease)
  }

  /** Neither extended nor given up strictly between events i and j. */
  predicate Untouched(t: Trace, i: nat, j: nat, id: Bytes, token: Bytes)
    requires j <= |t|
  {
    forall m :: i < m < j ==> !(Used(t, m, id, token) && (t[m].Heartbeat? || t[m].Fail?))
  }

  predicate Held(rows: Table, id: Bytes, token: Bytes, until: int, at: int) {
    || id !in rows
    || (rows[id].state == Running && rows[id].token == Some(token) && rows[id].leaseUntil == Some(until))
    || rows[id].state in {Succeeded, Canceled}
    || until <= at
  }

  lemma HeldStep(rows: Table, e: Event, id: Bytes, token: Bytes, until: int, at: int)
    requires Held(rows, id, token, until, at) && at <= e.at && (e.Claim? ==> Picked(rows, e))
    requires !(e.Insert? && e.id == id)
    requires (e.Heartbeat? || e.Fail?) && e.id == id && e.token == token ==> !Accepted(rows, e)
    ensures Held(Next(rows, e), id, token, until, e.at)
  {
  }

  lemma GrantIsHeld(t: Trace, i: nat, id: Bytes, token: Bytes, until: int)
    requires Valid(t) && i < |t| && Grants(t, i, id, token, until)
    ensures Held(Next(Before(t, i), t[i]), id, token, until, t[i].at)
  {
    StepAt(t, i);
    PickedAt(t, i);
    RowStep(Before(t, i), t[i], id);
  }

  lemma ClaimOfHeld(rows: Table, e: Event, id: Bytes, token: Bytes, until: int, at: int)
    requires Held(rows, id, token, until, at) && at <= e.at
    requires e.Claim? && e.got == Some(id) && Picked(rows, e)
    ensures until <= e.at
  {
  }

  lemma StillHeld(t: Trace, j: nat, id: Bytes, token: Bytes, until: int)
    requires Valid(t) && 0 < j < |t| && Held(Before(t, j), id, token, until, t[j - 1].at)
    requires !(t[j].Insert? && t[j].id == id) && !(Used(t, j, id, token) && (t[j].Heartbeat? || t[j].Fail?))
    ensures Held(Next(Before(t, j), t[j]), id, token, until, t[j].at)
  {
    ClockMonotone(t, j - 1, j);
    PickedAt(t, j);
    HeldStep(Before(t, j), t[j], id, token, until, t[j - 1].at);
  }

  lemma {:induction false} HeldUntil(t: Trace, i: nat, j: nat, id: Bytes, token: Bytes, until: int)
    requires Valid(t) && i < j <= |t|
    requires Grants(t, i, id, token, until) && Untouched(t, i, j, id, token)
    ensures Held(Before(t, j), id, token, until, t[j - 1].at)
    decreases j
  {
    StepAt(t, j - 1);
    if j == i + 1 {
      GrantIsHeld(t, i, id, token, until);
    } else {
      HeldUntil(t, i, j - 1, id, token, until);
      NotReinserted(t, i, j - 1, id);
      StillHeld(t, j - 1, id, token, until);
    }
  }

  /** A job that has been in the table is never inserted again. */
  lemma NotReinserted(t: Trace, i: nat, j: nat, id: Bytes)
    requires Valid(t) && i <= j < |t|
    requires id in Before(t, i) || (t[i].Claim? && t[i].got == Some(id)) || (LeaseUse(t[i]) && t[i].id == id && Accepted(Before(t, i), t[i]))
    ensures !(t[j].Insert? && t[j].id == id)
  {
    PickedAt(t, i);
    NeverReinserted(t, i, j, id);
  }

  /** Exclusivity: unless the holder itself gave the job up with Fail, the job is not claimed again
      before the last expiry granted to that holder, whatever happens in between: expiry, reaping,
      redriving, cancellation, deletion, other workers. */
  lemma ReclaimAfterExpiry(t: Trace, i: nat, j: nat, id: Bytes, token: Bytes, until: int)
    requires Valid(t) && i < j < |t|
    requires Grants(t, i, id, token, until) && Untouched(t, i, j, id, token)
    requires t[j].Claim? && t[j].got == Some(id)
    ensures until <= t[j].at
  {
    HeldUntil(t, i, j, id, token, until);
    PickedAt(t, j);
    ClockMonotone(t, j - 1, j);
    ClaimOfHeld(Before(t, j), t[j], id, token, until, t[j - 1].at);
  }

  // ----- Terminal rows -----

  lemma TerminalStep(rows: Table, e: Event, id: Bytes)
    requires id in rows && rows[id].state in {Succeeded, Canceled} && (e.Claim? ==> Picked(rows, e))
    requires !(e.Insert? && e.id == id)
    ensures id in Next(rows, e) ==> Next(rows, e)[id] == rows[id]
  {
  }

  /** Succeeded and canceled rows never change again in any column; they can only be deleted. */
  lemma {:induction false} TerminalIsFinal(t: Trace, i: nat, j: nat, id: Bytes)
    requires Valid(t) && i <= j <= |t|
    requires id in Before(t, i) && Before(t, i)[id].state in {Succeeded, Canceled}
    ensures id in Before(t, j) ==> Before(t, j)[id] == Before(t, i)[id]
    decreases j
  {
    if i < j {
      TerminalIsFinal(t, i, j - 1, id);
      StepAt(t, j - 1);
      RowStep(Before(t, j - 1), t[j - 1], id);
      NotReinserted(t, i, j - 1, id);
      if id in Before(t, j - 1) {
        PickedAt(t, j - 1);
        TerminalStep(Before(t, j - 1), t[j - 1], id);
      }
    }
  }

  /** A refusal reported as ErrCanceled is true of the row, and stays true as long as the row exists. */
  lemma CanceledIsTruthful(t: Trace, i: nat, j: nat, id: Bytes)
    requires Valid(t) && i <= j <= |t| && Classify(Before(t, i), id) == ErrCanceled
    ensures id in Before(t, j) ==> Before(t, j)[id].state == Canceled && Classify(Before(t, j), id) == ErrCanceled
  {
    TerminalIsFinal(t, i, j, id);
  }

  // ----- Retry delays -----

  predicate Waiting(rows: Table, id: Bytes, until: int, at: int) {
    || id !in rows
    || (rows[id].state == Pending && rows[id].availableAt == until)
    || rows[id].state == Canceled
    || until <= at
  }

  /** Event i fails the attempt and schedules another. */
  predicate Reschedules(t: Trace, i: nat, id: Bytes, token: Bytes)
    requires i < |t|
  {
    && t[i].Fail? && Used(t, i, id, token) && !t[i].permanent
    && Before(t, i)[id].attempts < Before(t, i)[id].maxAttempts
  }

  lemma RescheduledWaits(t: Trace, i: nat, id: Bytes, token: Bytes)
    requires i < |t| && Reschedules(t, i, id, token)
    ensures Waiting(Next(Before(t, i), t[i]), id, t[i].at + t[i].retry, t[i].at)
  {
  }

  lemma WaitingStep(rows: Table, e: Event, id: Bytes, until: int, at: int)
    requires Waiting(rows, id, until, at) && at <= e.at && (e.Claim? ==> Picked(rows, e))
    requires !(e.Insert? && e.id == id)
    ensures Waiting(Next(rows, e), id, until, e.at)
    ensures e.Claim? && e.got == Some(id) ==> until <= e.at
  {
  }

  lemma {:induction false} WaitingUntil(t: Trace, i: nat, j: nat, id: Bytes, token: Bytes)
    requires Valid(t) && i < j <= |t| && Reschedules(t, i, id, token)
    ensures Waiting(Before(t, j), id, t[i].at + t[i].retry, t[j - 1].at)
    decreases j
  {
    StepAt(t, j - 1);
    if j == i + 1 {
      RescheduledWaits(t, i, id, token);
    } else {
      WaitingUntil(t, i, j - 1, id, token);
      ClockMonotone(t, j - 2, j - 1);
      NotReinserted(t, i, j - 1, id);
      PickedAt(t, j - 1);
      WaitingStep(Before(t, j - 1), t[j - 1], id, t[i].at + t[i].retry, t[j - 2].at);
    }
  }

  /** A failed attempt with budget left is not followed by any claim before its retry delay has passed. */
  lemma RetryDelayRespected(t: Trace, i: nat, j: nat, id: Bytes, token: Bytes)
    requires Valid(t) && i < j < |t| && Reschedules(t, i, id, token)
    requires t[j].Claim? && t[j].got == Some(id)
    ensures t[i].at + t[i].retry <= t[j].at
  {
    WaitingUntil(t, i, j, id, token);
    PickedAt(t, j);
    ClockMonotone(t, j - 1, j);
    WaitingStep(Before(t, j), t[j], id, t[i].at + t[i].retry, t[j - 1].at);
  }

  /** The attempt number of a row does not change while the row carries the same token. */
  lemma {:induction false} AttemptWhileHeld(t: Trace, k: nat, n: nat, id: Bytes, token: Bytes)
    requires Valid(t) && k < n <= |t| && Issued(t, k, id, token)
    requires id in Before(t, n) && Before(t, n)[id].token == Some(token)
    ensures id in Before(t, k + 1) && Before(t, n)[id].attempts == Before(t, k + 1)[id].attempts
    decreases n
  {
    if k + 1 < n {
      StepAt(t, n - 1);
      RowStep(Before(t, n - 1), t[n - 1], id);
      NotReinserted(t, k, n - 1, id);
      if t[n - 1].Claim? {
        TokenFresh(t, k, n - 1);
      }
      SameTokenSameAttempt(id, Before(t, n - 1)[id], t[n - 1], token);
      AttemptWhileHeld(t, k, n - 1, id, token);
    }
  }

  lemma SameTokenSameAttempt(id: Bytes, r: Row, e: Event, token: Bytes)
    requires Change(id, r, e).token == Some(token) && (e.Claim? ==> e.token != token)
    ensures r.token == Some(token) && Change(id, r, e).attempts == r.attempts
  {
  }

  /** Only an accepted Complete makes a row succeeded. */
  lemma {:induction false} SucceededWasCompleted(t: Trace, id: Bytes) returns (i: nat)
    requires Valid(t) && id in After(t) && After(t)[id].state == Succeeded
    ensures i < |t| && t[i].Complete? && Used(t, i, id, t[i].token)
  {
    var p, e := t[..|t| - 1], t[|t| - 1];
    ValidPrefix(t, |t| - 1);
    RowStep(After(p), e, id);
    if e.Complete? && e.id == id && Accepted(After(p), e) {
      i := |t| - 1;
    } else {
      i := SucceededWasCompleted(p, id);
      assert p[..i] == t[..i];
    }
  }
}
