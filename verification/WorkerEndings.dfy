/** Why a Worker's Run ends and what it returns, read from the log of its observable events. */
module WorkerEndings {
  import opened Base
  import opened Errors
  import opened Rows
  import opened Workers
  import opened WorkerProtocol

  /** The reply obliges Run to return this result. */
  predicate Owes(c: Config, reply: Event, result: RunError) {
    match reply
    case ClaimReplied(job, Some(err)) =>
      if ErrCommitOutcomeUnknown in err then result == if job.id != [] then ClaimReconciliation(job, err) else Plain(err)
      else ErrNoJob !in err && result == Plain(err)
    case ClaimReplied(job, None) => !ValidClaimed(c, job) && result == Plain({ErrInvalid})
    case BeatReplied(Some(err)) =>
      ErrCommitOutcomeUnknown in err && result.LeaseReconciliation? && result.lease == result.job.lease && result.err == err
    case AckReplied(job, Some(err)) =>
      if ErrCommitOutcomeUnknown in err then result.LeaseReconciliation? && result.job == job && result.err == err
      else ErrCanceled !in err && result == Plain(err)
    case _ => false
  }

  lemma NewDebt(c: Config, m: Monitor, e: Event)
    requires Permits(c, m, e) && m.due.None? && Observe(c, m, e).due.Some?
    ensures Owes(c, e, Observe(c, m, e).due.value)
  {
  }

  /** While Run owes an error, no store call is under way, and none is made. */
  lemma {:induction false} DebtIsQuiet(c: Config, log: seq<Event>)
    requires Obeys(c, log) && MonitorAfter(c, log).value.due.Some?
    ensures !MonitorAfter(c, log).value.calling
  {
    ObeysPrefix(c, log);
    if MonitorAfter(c, log[..|log| - 1]).value.due.Some? {
      DebtIsQuiet(c, log[..|log| - 1]);
    }
  }

  lemma {:induction false} DebtOrigin(c: Config, log: seq<Event>) returns (k: nat)
    requires Obeys(c, log) && MonitorAfter(c, log).value.due.Some?
    ensures k < |log| && Owes(c, log[k], MonitorAfter(c, log).value.due.value)
    ensures forall n :: k < n < |log| ==> !Call(log[n]) && !Reply(log[n])
  {
    ObeysPrefix(c, log);
    var before := log[..|log| - 1];
    if MonitorAfter(c, before).value.due.Some? {
      k := DebtOrigin(c, before);
      DebtIsQuiet(c, before);
    } else {
      k := |log| - 1;
      NewDebt(c, MonitorAfter(c, before).value, log[k]);
    }
  }

  lemma {:induction false} EndedAt(c: Config, log: seq<Event>) returns (p: nat)
    requires Obeys(c, log) && MonitorAfter(c, log).value.ended.Some?
    ensures p < |log| && log[p].ParentEnded? && log[p].reason == MonitorAfter(c, log).value.ended.value.err
  {
    ObeysPrefix(c, log);
    if log[|log| - 1].ParentEnded? {
      p := |log| - 1;
    } else {
      p := EndedAt(c, log[..|log| - 1]);
    }
  }

  /** A claim's reply that begins an attempt. */
  predicate Begins(c: Config, e: Event) { e.ClaimReplied? && e.err.None? && ValidClaimed(c, e.job) }

  lemma {:induction false} BeatOrigin(c: Config, log: seq<Event>) returns (b: nat)
    requires Obeys(c, log) && MonitorAfter(c, log).value.beat.Some?
    ensures b < |log| && log[b] == BeatReplied(MonitorAfter(c, log).value.beat)
    ensures forall n :: b < n < |log| ==> !Begins(c, log[n])
  {
    ObeysPrefix(c, log);
    if log[|log| - 1].BeatReplied? {
      b := |log| - 1;
    } else {
      b := BeatOrigin(c, log[..|log| - 1]);
    }
  }

  /** The heartbeat of the attempt under way at j failed for good at b, other than by a cancellation of the job. */
  predicate HeartbeatLost(c: Config, log: seq<Event>, b: nat, j: nat)
    requires b < j <= |log|
  {
    && log[b].BeatReplied? && log[b].err.Some? && ErrCanceled !in log[b].err.value
    && forall n :: b < n < j ==> !Begins(c, log[n])
  }

  predicate OwedAt(c: Config, log: seq<Event>, k: nat, j: nat)
    requires k < j < |log| && log[j].RunEnded?
  {
    Owes(c, log[k], log[j].result) && forall n :: k < n < j ==> !Call(log[n]) && !Reply(log[n])
  }

  /** Run ends for one of four reasons, and returns just that: the last reply obliges it to; the parent has
      ended; the attempt's heartbeat failed, but not because the job was canceled; or the configuration
      is refused. */
  lemma RunEndsForAReason(c: Config, log: seq<Event>, j: nat)
    requires Obeys(c, log) && j < |log| && log[j].RunEnded?
    ensures (exists k :: 0 <= k < j && OwedAt(c, log, k, j))
            || (exists p :: 0 <= p < j && log[p].ParentEnded? && log[j].result == Plain(log[p].reason))
            || (exists b :: 0 <= b < j && HeartbeatLost(c, log, b, j) && log[j].result == Plain(log[b].err.value))
            || (!ValidConfig(c) && log[j].result == Plain({ErrInvalid}))
  {
    PrefixObeys(c, log, j);
    var before := log[..j];
    assert forall n :: 0 <= n < j ==> before[n] == log[n];
    var m := MonitorAfter(c, before).value;
    if m.due.Some? {
      var k := DebtOrigin(c, before);
      assert OwedAt(c, log, k, j);
    } else {
      if m.ended.Some? && log[j].result == Plain(m.ended.value.err) {
        var p := EndedAt(c, before);
        assert log[p] == before[p];
      } else if m.stage.Cleared? && m.beat.Some? && !Dropped(m) && !BeatAllows(m.beat, m.cause) {
        var b := BeatOrigin(c, before);
        assert log[b] == before[b];
        assert HeartbeatLost(c, log, b, j);
      }
    }
  }

  // ----- After a failed heartbeat -----

  /** The parent was seen alive at k, after the attempt's heartbeat had failed at b. */
  predicate SeenAliveAfter(log: seq<Event>, b: nat, k: nat, j: nat) {
    && b < k < j < |log| && log[b].BeatReplied? && log[b].err.Some? && log[k] == ParentAlive
    && forall n :: b < n < j ==> !log[n].ClaimReplied? && !log[n].AckCalled?
  }

  lemma {:induction false} ClearedAfter(c: Config, log: seq<Event>, b: nat, k: nat)
    requires Obeys(c, log) && b < k < |log| && log[b].BeatReplied? && log[b].err.Some? && log[k] == ParentAlive
    requires forall n :: b < n < |log| ==> !log[n].ClaimReplied? && !log[n].AckCalled?
    ensures var m := MonitorAfter(c, log).value;
            && m.beat == log[b].err
            && (m.stage.Cleared? || m.stage == Alive || m.stage == Finished)
  {
    ObeysPrefix(c, log);
    FailedBeatStays(c, log, b);
    if k < |log| - 1 {
      ClearedAfter(c, log[..|log| - 1], b, k);
    } else {
      StageAfterBeat(c, log[..|log| - 1], b);
    }
  }

  lemma {:induction false} StageAfterBeat(c: Config, log: seq<Event>, b: nat)
    requires Obeys(c, log) && b < |log| && log[b].BeatReplied? && log[b].err.Some?
    requires forall n :: b < n < |log| ==> !log[n].ClaimReplied? && !log[n].AckCalled?
    ensures var g := MonitorAfter(c, log).value.stage;
            g.Offered? || g.Working? || g.Over? || g.Cleared? || g == Alive || g == Finished
  {
    ObeysPrefix(c, log);
    if b < |log| - 1 {
      StageAfterBeat(c, log[..|log| - 1], b);
    }
  }

  /** A heartbeat that is told that the job was canceled does not end Run: if, with the heartbeat joined, the
      parent is seen alive, Run goes on to the next job, unless the parent ends later. */
  lemma CanceledJobIsDropped(c: Config, log: seq<Event>, b: nat, k: nat, j: nat) returns (p: nat)
    requires Obeys(c, log) && SeenAliveAfter(log, b, k, j) && log[j].RunEnded? && ValidConfig(c)
    requires ErrCanceled in log[b].err.value && ErrCommitOutcomeUnknown !in log[b].err.value
    ensures k < p < j && log[p].ParentEnded? && log[j].result == Plain(log[p].reason)
  {
    PrefixObeys(c, log, j);
    var before := log[..j];
    assert forall n :: 0 <= n < j ==> before[n] == log[n];
    ClearedAfter(c, before, b, k);
    var m := MonitorAfter(c, before).value;
    NoDebtAfter(c, before, b, k);
    p := EndedAt(c, before);
    AliveSoFar(c, log, k);
  }

  lemma {:induction false} NoDebtAfter(c: Config, log: seq<Event>, b: nat, k: nat)
    requires Obeys(c, log) && b < k < |log| && log[k] == ParentAlive
    requires forall n :: b < n < |log| ==> !log[n].ClaimReplied? && !log[n].AckCalled?
    requires log[b].BeatReplied? && log[b].err.Some?
    ensures MonitorAfter(c, log).value.due.None?
  {
    ObeysPrefix(c, log);
    if k < |log| - 1 {
      NoDebtAfter(c, log[..|log| - 1], b, k);
      ClearedAfter(c, log[..|log| - 1], b, k);
    }
  }

  /** A heartbeat that lost the lease, in an error that does not match context cancellation, ends Run with
      exactly that error, once the parent has been seen alive. */
  lemma LostLeaseEndsRun(c: Config, log: seq<Event>, b: nat, k: nat, j: nat)
    requires Obeys(c, log) && SeenAliveAfter(log, b, k, j)
    requires log[b].err.value !! {ErrCanceled, CtxCanceled, ErrCommitOutcomeUnknown}
    ensures log[j].RunEnded? ==> log[j].result == Plain(log[b].err.value)
    ensures !Call(log[j]) && log[j] != ParentAlive
  {
    PrefixObeys(c, log, j);
    var before := log[..j];
    assert forall n :: 0 <= n < j ==> before[n] == log[n];
    LostStage(c, before, b, k);
    NoDebtAfter(c, before, b, k);
  }

  lemma {:induction false} LostStage(c: Config, log: seq<Event>, b: nat, k: nat)
    requires Obeys(c, log) && b < k < |log| && log[b].BeatReplied? && log[b].err.Some? && log[k] == ParentAlive
    requires forall n :: b < n < |log| ==> !log[n].ClaimReplied? && !log[n].AckCalled?
    requires log[b].err.value !! {ErrCanceled, CtxCanceled, ErrCommitOutcomeUnknown}
    ensures var m := MonitorAfter(c, log).value;
            m.beat == log[b].err && (m.stage.Cleared? || m.stage == Finished)
  {
    ObeysPrefix(c, log);
    FailedBeatStays(c, log, b);
    if k < |log| - 1 {
      LostStage(c, log[..|log| - 1], b, k);
    } else {
      OverBeforeAlive(c, log[..|log| - 1], b);
    }
  }

  /** Until the parent is first seen alive, the attempt of a lost lease is not over. */
  lemma {:induction false} OverBeforeAlive(c: Config, log: seq<Event>, b: nat)
    requires Obeys(c, log) && b < |log| && log[b].BeatReplied? && log[b].err.Some?
    requires forall n :: b < n < |log| ==> !log[n].ClaimReplied? && !log[n].AckCalled?
    requires log[b].err.value !! {ErrCanceled, CtxCanceled, ErrCommitOutcomeUnknown}
    ensures var m := MonitorAfter(c, log).value;
            m.beat == log[b].err && (m.stage.Offered? || m.stage.Working? || m.stage.Over? || m.stage.Cleared? || m.stage == Finished)
  {
    ObeysPrefix(c, log);
    FailedBeatStays(c, log, b);
    if b < |log| - 1 {
      OverBeforeAlive(c, log[..|log| - 1], b);
    }
  }
}
