/** What holds of every run of N Workers over the job table. */
module FleetSafety {
  import opened Base
  import opened Errors
  import opened Values
  import opened Rows
  import opened Fleet
  import L = Lifecycle
  import W = Workers
  import P = WorkerProtocol
  import F = Fencing
  import Retry

  /** Position k of worker w's log. */
  predicate At(f: System, w: nat, k: nat, e: W.Event) {
    w < |f.machines| && k < |f.machines[w].log| && f.machines[w].log[k] == e
  }

  lemma CallerOf(f: System, i: nat) returns (w: nat, k: nat)
    requires Inv(f) && i < |f.table| && (f.table[i].Claim? || L.LeaseUse(f.table[i]))
    ensures w < |f.machines| && k < |f.machines[w].log| && Fits(f.machines[w].log[k], f.table[i])
  {
    assert HasCaller(f, f.table[i]);
    var v, call :| Made(f, v, call) && Fits(call, f.table[i]);
    w := v;
    k :| 0 <= k < |f.machines[w].log| && f.machines[w].log[k] == call;
  }

  lemma ClaimOf(f: System, w: nat, k: nat, job: Job) returns (i: nat, given: nat)
    requires Inv(f) && At(f, w, k, W.HandlerCalled(job))
    ensures i < |f.table| && Delivered(f.table, i, job) && F.Issued(f.table, i, job.id, job.lease.token)
    ensures given < k && Handed(f, w, given, job) && forall m :: given < m < k ==> P.Quiet(f.machines[w].log[m])
    ensures W.ValidClaimed(f.configs[w], job)
  {
    assert P.Good(f.configs[w], f.machines[w]);
    given := P.HandlerFollowsClaim(f.configs[w], f.machines[w].log, k);
    assert Handed(f, w, given, job);
    i :| Delivered(f.table, i, job);
    DeliveredLease(f.table, i, job);
  }

  /** Every handler runs for a claim that did commit and issued exactly the job's lease, never for a
      claim whose outcome was unknown to its worker, and for a job of its worker's queue. */
  lemma HandlersRunForCommittedClaims(configs: seq<W.Config>, acts: seq<Action>, f: System, w: nat, k: nat, job: Job) returns (i: nat)
    requires SystemAfter(configs, acts) == Some(f) && At(f, w, k, W.HandlerCalled(job))
    ensures i < |f.table| && F.Issued(f.table, i, job.id, job.lease.token) && Delivered(f.table, i, job)
    ensures job.queue == configs[w].queue && job.owner == configs[w].workerID
  {
    Reachable(configs, acts);
    var given;
    i, given := ClaimOf(f, w, k, job);
  }

  lemma FirstCallAfter(log: seq<W.Event>, given: nat, k: nat, k': nat)
    requires given < k < |log| && given < k' < |log| && log[k'].HandlerCalled?
    requires forall m :: given < m < k ==> P.Quiet(log[m])
    ensures k <= k'
  {
  }

  /** Across all workers, no committed claim is handled twice. */
  lemma OneHandlerPerClaim(configs: seq<W.Config>, acts: seq<Action>, f: System,
                           w: nat, k: nat, job: Job, w': nat, k': nat, job': Job)
    requires SystemAfter(configs, acts) == Some(f)
    requires At(f, w, k, W.HandlerCalled(job)) && At(f, w', k', W.HandlerCalled(job'))
    requires job.lease.token == job'.lease.token
    ensures w == w' && k == k'
  {
    Reachable(configs, acts);
    var i, given := ClaimOf(f, w, k, job);
    var i', given' := ClaimOf(f, w', k', job');
    FirstCallAfter(f.machines[w].log, given, k, k');
    FirstCallAfter(f.machines[w].log, given, k', k);
  }

  predicate FailedAs(e: L.Event, ack: W.Ack) {
    && e.Fail? && ack.Fail? && e.message == ack.failure.message && e.retry == ack.failure.retryAfter / MICROSECOND
    && e.permanent == ack.failure.permanent
  }

  /** The end of a handler that an acknowledgement in the table goes back to. */
  lemma AckCause(f: System, i: nat) returns (w: nat, k: nat, job: Job, end: W.HandlerEnd)
    requires Inv(f) && i < |f.table| && (f.table[i].Complete? || f.table[i].Fail?)
    ensures At(f, w, k, W.HandlerEnded(job, end)) && w < |f.configs|
    ensures job.lease == Lease(f.table[i].id, f.table[i].token)
    ensures f.table[i].Complete? <==> end == W.Returns(None)
    ensures f.table[i].Fail? ==> (exists ack: W.Ack :: P.Matches(f.configs[w], job, end, ack) && FailedAs(f.table[i], ack))
  {
    var c;
    w, c := CallerOf(f, i);
    assert P.Good(f.configs[w], f.machines[w]);
    k, job, end := P.AckFollowsHandler(f.configs[w], f.machines[w].log, c);
    var ack := f.machines[w].log[c].ack;
    assert P.Matches(f.configs[w], job, end, ack);
    assert f.table[i].Fail? ==> FailedAs(f.table[i], ack);
  }

  /** The table is completed only for a handler that returned nil, under the very lease it ran with. */
  lemma CompletionHasNilReturn(configs: seq<W.Config>, acts: seq<Action>, f: System, i: nat) returns (w: nat, k: nat, job: Job)
    requires SystemAfter(configs, acts) == Some(f) && i < |f.table| && f.table[i].Complete?
    ensures At(f, w, k, W.HandlerEnded(job, W.Returns(None))) && job.lease == Lease(f.table[i].id, f.table[i].token)
  {
    Reachable(configs, acts);
    var end;
    w, k, job, end := AckCause(f, i);
  }

  /** A succeeded row means that some handler returned nil, without a panic, under exactly the token
      whose Complete the table accepted. */
  lemma SucceededMeansHandled(configs: seq<W.Config>, acts: seq<Action>, f: System, id: Bytes)
    returns (i: nat, w: nat, k: nat, job: Job)
    requires SystemAfter(configs, acts) == Some(f)
    requires id in L.After(f.table) && L.After(f.table)[id].state == Succeeded
    ensures i < |f.table| && f.table[i].Complete? && F.Used(f.table, i, id, job.lease.token)
    ensures At(f, w, k, W.HandlerEnded(job, W.Returns(None))) && job.lease.jobID == id
  {
    Reachable(configs, acts);
    i := F.SucceededWasCompleted(f.table, id);
    w, k, job := CompletionHasNilReturn(configs, acts, f, i);
  }

  /** A failed attempt was failed by its own worker, with that worker's delay for that attempt number. */
  lemma FailureCause(f: System, i: nat) returns (w: nat, job: Job, end: W.HandlerEnd)
    requires Inv(f) && i < |f.table| && f.table[i].Fail? && F.Used(f.table, i, f.table[i].id, f.table[i].token)
    ensures w < |f.configs| && job.lease == Lease(f.table[i].id, f.table[i].token) && end != W.Returns(None)
    ensures f.table[i].id in L.Before(f.table, i) && job.attempts == L.Before(f.table, i)[f.table[i].id].attempts
    ensures !f.table[i].permanent ==>
      job.attempts >= 1 && f.table[i].retry == Retry.DelayAfter(f.configs[w].policy, job.attempts) / MICROSECOND
  {
    var k;
    w, k, job, end := AckCause(f, i);
    assert P.Good(f.configs[w], f.machines[w]);
    var h := P.EndedWasCalled(f.configs[w], f.machines[w].log, k);
    var c, given := ClaimOf(f, w, h, job);
    ClaimPrecedesUse(f.table, c, i, job.id, job.lease.token);
    DeliveredLease(f.table, c, job);
    F.AttemptWhileHeld(f.table, c, i, job.id, job.lease.token);
  }

  lemma TokenIsOneClaim(t: L.Trace, i: nat, j: nat)
    requires L.Valid(t) && i < |t| && j < |t| && t[i].Claim? && t[j].Claim?
    ensures t[i].token == t[j].token ==> i == j
  {
    if i < j {
      L.TokenFresh(t, i, j);
    } else if j < i {
      L.TokenFresh(t, j, i);
    }
  }

  lemma ClaimPrecedesUse(t: L.Trace, c: nat, i: nat, id: Bytes, token: Bytes)
    requires L.Valid(t) && c < |t| && i < |t| && F.Issued(t, c, id, token)
    requires L.LeaseUse(t[i]) && F.Used(t, i, t[i].id, token)
    ensures c < i && t[i].id == id
  {
    var k := F.UseWasIssued(t, i, t[i].id, token);
    TokenIsOneClaim(t, k, c);
  }

  /** A job whose attempt number n failed with budget left is not claimed again, by any worker, before
      the failing worker's Delay(n) has passed since the failure. */
  lemma RetriesKeepTheirDelay(configs: seq<W.Config>, acts: seq<Action>, f: System, i: nat, j: nat, id: Bytes, token: Bytes)
    returns (w: nat, job: Job, end: W.HandlerEnd)
    requires SystemAfter(configs, acts) == Some(f) && i < j < |f.table|
    requires F.Reschedules(f.table, i, id, token) && f.table[j].Claim? && f.table[j].got == Some(id)
    ensures w < |configs| && job.lease == Lease(id, token) && end != W.Returns(None)
    ensures id in L.Before(f.table, i) && job.attempts == L.Before(f.table, i)[id].attempts >= 1
    ensures f.table[i].at + Retry.DelayAfter(configs[w].policy, job.attempts) / MICROSECOND <= f.table[j].at
  {
    Reachable(configs, acts);
    w, job, end := FailureCause(f, i);
    F.RetryDelayRespected(f.table, i, j, id, token);
  }
}
