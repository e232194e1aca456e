/** The attempt budget over whole runs, and the measure that bounds how long a job can stay busy. */
module Budget {
  import opened Base
  import opened Rows
  import opened Lifecycle
  import opened Stored

  predicate Redrives(rows: Table, e: Event, id: Bytes) {
    e.Redrive? && id in rows && Hits(id, rows[id], e)
  }

  predicate ClaimsJob(e: Event, id: Bytes) { e.Claim? && e.got == Some(id) }

  /** Claims of the job since it was enqueued or last redriven. */
  function RecentClaims(t: Trace, id: Bytes): nat {
    if t == [] then 0
    else
      var p, e := t[..|t| - 1], t[|t| - 1];
      if (e.Insert? && e.id == id) || Redrives(After(p), e, id) then 0
      else RecentClaims(p, id) + if ClaimsJob(e, id) then 1 else 0
  }

  function TotalClaims(t: Trace, id: Bytes): nat {
    if t == [] then 0 else TotalClaims(t[..|t| - 1], id) + if ClaimsJob(t[|t| - 1], id) then 1 else 0
  }

  function TotalRedrives(t: Trace, id: Bytes): nat {
    if t == [] then 0
    else TotalRedrives(t[..|t| - 1], id) + if Redrives(After(t[..|t| - 1]), t[|t| - 1], id) then 1 else 0
  }

  /** One event's effect on the attempts column of a row. */
  lemma AttemptsStep(rows: Table, e: Event, id: Bytes)
    requires id in rows && id in Next(rows, e) && !(e.Insert? && e.id == id)
    requires e.Claim? ==> Picked(rows, e)
    ensures Next(rows, e)[id].attempts ==
            if Redrives(rows, e, id) then 0 else rows[id].attempts + if ClaimsJob(e, id) then 1 else 0
    ensures Next(rows, e)[id].maxAttempts == rows[id].maxAttempts
  {
  }

  lemma InsertedFresh(rows: Table, e: Event, id: Bytes)
    requires id in Next(rows, e) && ((e.Insert? && e.id == id) || id !in rows)
    ensures e.Insert? && e.id == id && Next(rows, e)[id].attempts == 0
  {
  }

  /** The attempts column is the number of committed claims since enqueue or the last redrive. */
  lemma {:induction false} AttemptsCountClaims(t: Trace, id: Bytes)
    requires Valid(t) && id in After(t)
    ensures After(t)[id].attempts == RecentClaims(t, id) <= After(t)[id].maxAttempts
  {
    RowsReadable(t, id);
    var p, e := t[..|t| - 1], t[|t| - 1];
    ValidPrefix(t, |t| - 1);
    PickedAt(t, |t| - 1);
    if (e.Insert? && e.id == id) || id !in After(p) {
      InsertedFresh(After(p), e, id);
    } else {
      AttemptsCountClaims(p, id);
      AttemptsStep(After(p), e, id);
    }
  }

  lemma {:induction false} NoClaimsBeforeInsert(t: Trace, id: Bytes)
    requires Valid(t) && id !in InsertedIds(t)
    ensures TotalClaims(t, id) == 0 && TotalRedrives(t, id) == 0 && Changes(t, id) == 0 && id !in After(t)
  {
    if t != [] {
      var p, e := t[..|t| - 1], t[|t| - 1];
      ValidPrefix(t, |t| - 1);
      PickedAt(t, |t| - 1);
      if id in InsertedIds(p) { InsertedInLonger(t, id); }
      assert !(e.Insert? && e.id == id);
      NoClaimsBeforeInsert(p, id);
      RowStep(After(p), e, id);
    }
  }

  lemma InsertedOnce(t: Trace, id: Bytes)
    requires Valid(t) && t != [] && t[|t| - 1].Insert? && t[|t| - 1].id == id
    ensures id !in InsertedIds(t[..|t| - 1])
  {
    var p := t[..|t| - 1];
    if id in InsertedIds(p) {
      var i :| 0 <= i < |p| && p[i].Insert? && p[i].id == id;
      IdFresh(t, i, |p|);
    }
  }

  lemma {:induction false} ClaimsWithinAttempts(t: Trace, id: Bytes)
    requires Valid(t) && id in After(t)
    ensures TotalClaims(t, id) <= After(t)[id].attempts + After(t)[id].maxAttempts * TotalRedrives(t, id)
  {
    var p, e := t[..|t| - 1], t[|t| - 1];
    ValidPrefix(t, |t| - 1);
    PickedAt(t, |t| - 1);
    if (e.Insert? && e.id == id) || id !in After(p) {
      InsertedFresh(After(p), e, id);
      InsertedOnce(t, id);
      NoClaimsBeforeInsert(p, id);
    } else {
      ClaimsWithinAttempts(p, id);
      AttemptsCountClaims(p, id);
      AttemptsStep(After(p), e, id);
      Distribute(After(t)[id].maxAttempts, TotalRedrives(p, id));
    }
  }

  lemma RowBudget(t: Trace, id: Bytes)
    requires Valid(t) && id in After(t)
    ensures TotalClaims(t, id) <= After(t)[id].maxAttempts * (1 + TotalRedrives(t, id))
  {
    ClaimsWithinAttempts(t, id);
    AttemptsCountClaims(t, id);
    Distribute(After(t)[id].maxAttempts, TotalRedrives(t, id));
  }

  lemma {:induction false} BudgetIsKept(t: Trace, i: nat, id: Bytes)
    requires Valid(t) && i < |t| && t[i].Insert? && t[i].id == id && id in After(t)
    ensures After(t)[id].maxAttempts == t[i].request.maxAttempts
  {
    var p, e := t[..|t| - 1], t[|t| - 1];
    ValidPrefix(t, |t| - 1);
    RowStep(After(p), e, id);
    if i < |t| - 1 {
      InsertedInPrefix(t, i, id);
      NotInsertedAgain(t, |t| - 1, |t| - 1, id);
      BudgetIsKept(p, i, id);
      IdentityKept(id, After(p)[id], e);
    }
  }

  lemma InsertedInPrefix(t: Trace, i: nat, id: Bytes)
    requires i < |t| - 1 && t[i].Insert? && t[i].id == id
    ensures id in InsertedIds(t[..|t| - 1])
  {
    assert t[..|t| - 1][i] == t[i];
  }

  /** Over a whole run a job is claimed at most max_attempts times for its enqueue and for each of its
      redrives, whether or not it is still there at the end. */
  lemma {:induction false} ClaimBudget(t: Trace, i: nat, id: Bytes)
    requires Valid(t) && i < |t| && t[i].Insert? && t[i].id == id
    ensures TotalClaims(t, id) <= t[i].request.maxAttempts * (1 + TotalRedrives(t, id))
  {
    if id in After(t) {
      RowBudget(t, id);
      BudgetIsKept(t, i, id);
    } else {
      GoneIsIdle(t, i, id);
      ValidPrefix(t, |t| - 1);
      ClaimBudget(t[..|t| - 1], i, id);
    }
  }

  /** The event that ends a run without the job is no claim and no redrive of it. */
  lemma GoneIsIdle(t: Trace, i: nat, id: Bytes)
    requires Valid(t) && i < |t| && t[i].Insert? && t[i].id == id && id !in After(t)
    ensures i < |t| - 1
    ensures TotalClaims(t, id) == TotalClaims(t[..|t| - 1], id) && TotalRedrives(t, id) == TotalRedrives(t[..|t| - 1], id)
  {
    PickedAt(t, |t| - 1);
    RowStep(After(t[..|t| - 1]), t[|t| - 1], id);
  }

  lemma Distribute(m: int, n: int)
    ensures m * (1 + n) == m + m * n
  {
  }

  // ----- The decreasing measure -----

  /** Pending rows have an even-numbered way to go plus one, running rows plus two; finished rows none. */
  function Measure(r: Row): int {
    match r.state
    case Pending => 2 * (r.maxAttempts - r.attempts) + 1
    case Running => 2 * (r.maxAttempts - r.attempts) + 2
    case _ => 0
  }

  /** A change of the job's state or attempt count other than a redrive. */
  predicate ChangesJob(rows: Table, e: Event, id: Bytes) {
    id in rows && Hits(id, rows[id], e) && !e.Heartbeat? && !e.Redrive?
  }

  function Changes(t: Trace, id: Bytes): nat {
    if t == [] then 0
    else Changes(t[..|t| - 1], id) + if ChangesJob(After(t[..|t| - 1]), t[|t| - 1], id) then 1 else 0
  }

  /** Every such change lowers the measure; heartbeats and foreign events leave it alone. */
  lemma MeasureFalls(rows: Table, e: Event, id: Bytes)
    requires id in rows && Checks(rows[id]) && (e.Claim? ==> Picked(rows, e)) && !Redrives(rows, e, id)
    ensures 0 <= Measure(rows[id]) <= 2 * rows[id].maxAttempts + 1
    ensures Measure(Change(id, rows[id], e)) <= Measure(rows[id]) - (if ChangesJob(rows, e, id) then 1 else 0)
  {
  }

  lemma LastChange(t: Trace, id: Bytes)
    requires Valid(t) && t != [] && id in After(t[..|t| - 1]) && !(t[|t| - 1].Insert? && t[|t| - 1].id == id)
    requires id in After(t) && TotalRedrives(t, id) == TotalRedrives(t[..|t| - 1], id)
    ensures Changes(t, id) - Changes(t[..|t| - 1], id) <= Measure(After(t[..|t| - 1])[id]) - Measure(After(t)[id])
  {
    var p, e := t[..|t| - 1], t[|t| - 1];
    ValidPrefix(t, |t| - 1);
    PickedAt(t, |t| - 1);
    RowStep(After(p), e, id);
    RowsReadable(p, id);
    MeasureFalls(After(p), e, id);
  }

  /** Between redrives a job changes state at most 2 * max_attempts + 1 times: from any point of a run
      on, the changes still to come are bounded by the measure at that point. */
  lemma {:induction false} ChangesBetweenRedrives(t: Trace, i: nat, id: Bytes)
    requires Valid(t) && i <= |t| && id in Before(t, i) && id in After(t)
    requires TotalRedrives(t, id) == TotalRedrives(t[..i], id)
    ensures Changes(t, id) - Changes(t[..i], id) <= Measure(Before(t, i)[id]) - Measure(After(t)[id])
    ensures Changes(t, id) - Changes(t[..i], id) <= 2 * Before(t, i)[id].maxAttempts + 1
    decreases |t|
  {
    ValidPrefix(t, i);
    RowsReadable(t[..i], id);
    RowsReadable(t, id);
    if i == |t| {
      assert t[..i] == t;
    } else {
      var p := t[..|t| - 1];
      assert p[..i] == t[..i];
      ValidPrefix(t, |t| - 1);
      RedrivesGrow(p, i, id);
      StillThere(t, i, id);
      ChangesBetweenRedrives(p, i, id);
      LastChange(t, id);
    }
    MeasureNonNegative(After(t)[id]);
    MeasureNonNegative(Before(t, i)[id]);
  }

  lemma MeasureNonNegative(r: Row)
    requires Checks(r)
    ensures 0 <= Measure(r) <= 2 * r.maxAttempts + 1
  {
  }

  lemma {:induction false} RedrivesGrow(t: Trace, i: nat, id: Bytes)
    requires i <= |t|
    ensures TotalRedrives(t[..i], id) <= TotalRedrives(t, id)
  {
    if i == |t| {
      assert t[..i] == t;
    } else {
      assert t[..|t| - 1][..i] == t[..i];
      RedrivesGrow(t[..|t| - 1], i, id);
    }
  }

  /** A row present at two points of a run was present, and not inserted, in between. */
  lemma StillThere(t: Trace, i: nat, id: Bytes)
    requires Valid(t) && i < |t| && id in Before(t, i) && id in After(t)
    ensures id in After(t[..|t| - 1]) && !(t[|t| - 1].Insert? && t[|t| - 1].id == id)
  {
    LastIsNoInsert(t, i, id);
    NotNewAtLast(t, id);
  }

  lemma LastIsNoInsert(t: Trace, i: nat, id: Bytes)
    requires Valid(t) && i < |t| && id in Before(t, i)
    ensures !(t[|t| - 1].Insert? && t[|t| - 1].id == id)
  {
    NeverReinserted(t, i, |t| - 1, id);
  }

  lemma NotNewAtLast(t: Trace, id: Bytes)
    requires t != [] && id in After(t) && !(t[|t| - 1].Insert? && t[|t| - 1].id == id)
    ensures id in After(t[..|t| - 1])
  {
    RowStep(After(t[..|t| - 1]), t[|t| - 1], id);
  }
}
