/** What a Worker with an accepted configuration sends: no store call of any run is one that
    PostgreSQL refuses as invalid (Worker.validate and validateClaimedAttempt of pkg/jobs/worker.go). */
module WorkerCalls {
  import opened Base
  import opened Errors
  import opened Values
  import opened Rows
  import opened Retry
  import opened Workers
  import opened WorkerProtocol
  import FailureText
  import Utf8

  /** The arguments that PostgreSQL checks before it touches the database. */
  predicate ValidCall(e: Event) {
    match e
    case ClaimCalled(request) => ValidClaim(request)
    case BeatCalled(lease, duration) => ValidLease(lease) && ValidDuration(duration)
    case AckCalled(Complete(lease)) => ValidLease(lease)
    case AckCalled(Fail(lease, failure)) => ValidLease(lease) && ValidFailure(failure)
    case _ => true
  }

  /** An accepted configuration leaves room for two heartbeats in a lease and does not poll in a busy loop. */
  lemma ConfigBounds(c: Config)
    requires ValidConfig(c)
    ensures 0 < c.heartbeatInterval && 2 * c.heartbeatInterval <= c.lease <= 3600 * SECOND && SECOND <= c.lease
    ensures 0 < c.pollInterval <= 60 * SECOND && c.queue != [] && c.workerID != []
  {
  }

  lemma DelayFits(c: Config, attempt: int)
    requires ValidConfig(c) && attempt >= 1
    ensures 0 <= DelayAfter(c.policy, attempt) <= MAX_RETRY_DELAY && DelayAfter(c.policy, attempt) % MICROSECOND == 0
  {
    DelayMonotone(c.policy, attempt, attempt);
    DelayWholeMicroseconds(c.policy, attempt);
  }

  lemma FailureFits(c: Config, job: Job, end: HandlerEnd, ack: Ack)
    requires ValidConfig(c) && job.attempts >= 1 && Matches(c, job, end, ack) && ack.Fail?
    ensures ValidFailure(ack.failure)
  {
    DelayFits(c, job.attempts);
    FailureText.BoundedIsClean(if end.Panics? then Ascii("handler panicked") else end.err.value.text);
  }

  /** The retry policy never refuses an accepted attempt, so every joined attempt has its acknowledgement. */
  lemma AckExists(c: Config, job: Job, end: HandlerEnd)
    requires ValidConfig(c) && ValidClaimed(c, job)
    ensures AckFor(c, job, end).Some?
  {
  }

  lemma {:induction false} JobIsClaimed(c: Config, log: seq<Event>)
    requires Obeys(c, log) && HasJob(MonitorAfter(c, log).value.stage)
    ensures ValidClaimed(c, MonitorAfter(c, log).value.stage.job)
  {
    ObeysPrefix(c, log);
    if HasJob(MonitorAfter(c, log[..|log| - 1]).value.stage) {
      JobIsClaimed(c, log[..|log| - 1]);
    }
  }

  /** A Worker that passes validate never makes a store call that is refused as ErrInvalid, in any run. */
  lemma NeverInvalid(c: Config, acts: seq<Action>, j: nat)
    requires ValidConfig(c) && MachineAfter(c, acts).Some? && j < |MachineAfter(c, acts).value.log|
    ensures ValidCall(MachineAfter(c, acts).value.log[j])
  {
    var log := MachineAfter(c, acts).value.log;
    RunsObeyProtocol(c, acts);
    PrefixObeys(c, log, j);
    var m := MonitorAfter(c, log[..j]).value;
    if HasJob(m.stage) {
      JobIsClaimed(c, log[..j]);
      ClaimedIsRunning(c, m.stage.job);
      if log[j].AckCalled? && log[j].ack.Fail? {
        FailureFits(c, m.stage.job, m.stage.end, log[j].ack);
      }
    }
  }

  /** A Worker that fails validate makes no store call and runs no handler. */
  lemma {:induction false} InvalidConfigDoesNothing(c: Config, acts: seq<Action>)
    requires !ValidConfig(c) && MachineAfter(c, acts).Some?
    ensures var s := MachineAfter(c, acts).value;
            && s.phase == Stopped(Plain({ErrInvalid})) && s.beat == Off
            && forall j :: 0 <= j < |s.log| ==> s.log[j].RunEnded? || s.log[j].ParentEnded?
  {
    if acts != [] {
      InvalidConfigDoesNothing(c, acts[..|acts| - 1]);
    }
  }

  // ----- When a joined attempt is acknowledged -----

  lemma More(c: Config, acts: seq<Action>, s: Machine, a: Action)
    requires MachineAfter(c, acts) == Some(s) && Enabled(s, a)
    ensures MachineAfter(c, acts + [a]) == Some(Do(c, s, a))
  {
  }

  /** An attempt in which a heartbeat call is under way when the handler returns nil. */
  function AttemptLog(c: Config, job: Job): seq<Event> {
    [ParentAlive, ClaimCalled(ClaimRequest(c.queue, c.workerID, c.lease)), ClaimReplied(job, None), HandlerCalled(job),
     BeatCalled(job.lease, c.lease), HandlerEnded(job, Returns(None)), AttemptEnded({HandlerFinished})]
  }

  function Claimed(c: Config, job: Job): Machine {
    Machine(Starting, job, None, None, false, Waiting, AttemptLog(c, job)[..3])
  }

  function AtJoin(c: Config, job: Job): Machine {
    Machine(Joining(Returns(None)), job, None, Some(Done({CtxCanceled}, {HandlerFinished})), true, Calling, AttemptLog(c, job))
  }

  lemma PlayClaim(c: Config, job: Job)
    requires ValidConfig(c) && ValidClaimed(c, job)
    ensures MachineAfter(c, [Look, CallClaim, ReplyClaim(job, None)]) == Some(Claimed(c, job))
  {
    var s1 := Do(c, Start(c), Look);
    var s2 := Do(c, s1, CallClaim);
    assert s2.log == AttemptLog(c, job)[..2];
    assert Do(c, s2, ReplyClaim(job, None)) == Claimed(c, job);
    More(c, [], Start(c), Look);
    More(c, [Look], s1, CallClaim);
    More(c, [Look, CallClaim], s2, ReplyClaim(job, None));
    assert [] + [Look] == [Look] && [Look] + [CallClaim] == [Look, CallClaim];
    assert [Look, CallClaim] + [ReplyClaim(job, None)] == [Look, CallClaim, ReplyClaim(job, None)];
  }

  function HandlerOver(c: Config, job: Job): Machine {
    Machine(Closing(Returns(None)), job, None, None, false, Calling, AttemptLog(c, job)[..6])
  }

  lemma PlayHandler(c: Config, job: Job, acts: seq<Action>)
    requires MachineAfter(c, acts) == Some(Claimed(c, job))
    ensures MachineAfter(c, acts + [StartHandler] + [Tick] + [EndHandler(Returns(None))]) == Some(HandlerOver(c, job))
  {
    var s1 := Do(c, Claimed(c, job), StartHandler);
    var s2 := Do(c, s1, Tick);
    More(c, acts, Claimed(c, job), StartHandler);
    More(c, acts + [StartHandler], s1, Tick);
    More(c, acts + [StartHandler] + [Tick], s2, EndHandler(Returns(None)));
    assert Do(c, s2, EndHandler(Returns(None))).log == AttemptLog(c, job)[..6];
  }

  lemma PlayCancel(c: Config, job: Job, acts: seq<Action>)
    requires MachineAfter(c, acts) == Some(HandlerOver(c, job))
    ensures MachineAfter(c, acts + [CloseStop] + [CancelAttempt]) == Some(AtJoin(c, job))
  {
    var s := Do(c, HandlerOver(c, job), CloseStop);
    More(c, acts, HandlerOver(c, job), CloseStop);
    More(c, acts + [CloseStop], s, CancelAttempt);
    assert s.log + [AttemptEnded({HandlerFinished})] == AttemptLog(c, job);
  }

  function Joined(c: Config, job: Job, err: Err): Machine {
    AtJoin(c, job).(phase := Checking(Returns(None), Some(err)), beat := Off,
                    log := AttemptLog(c, job) + [BeatReplied(Some(err))])
  }

  lemma PlayBeat(c: Config, job: Job, acts: seq<Action>, err: Err)
    requires MachineAfter(c, acts) == Some(AtJoin(c, job))
    ensures MachineAfter(c, acts + [ReplyBeat(Some(err))] + [CancelCause] + [Send] + [Join]) == Some(Joined(c, job, err))
  {
    var s0 := AtJoin(c, job);
    var s1 := Do(c, s0, ReplyBeat(Some(err)));
    var s2 := Do(c, s1, CancelCause);
    var s3 := Do(c, s2, Send);
    var acts1 := acts + [ReplyBeat(Some(err))];
    var acts2 := acts1 + [CancelCause];
    More(c, acts, s0, ReplyBeat(Some(err)));
    More(c, acts1, s1, CancelCause);
    More(c, acts2, s2, Send);
    More(c, acts2 + [Send], s3, Join);
  }

  lemma PlayAck(c: Config, job: Job, acts: seq<Action>, err: Err)
    requires MachineAfter(c, acts) == Some(Joined(c, job, err)) && CtxCanceled in err && ErrCommitOutcomeUnknown !in err
    ensures var s := MachineAfter(c, acts + [Check] + [CallAck]);
            s.Some? && s.value.log == AttemptLog(c, job) + [BeatReplied(Some(err))] + [ParentAlive] + [AckCalled(Complete(job.lease))]
  {
  }

  /** A heartbeat that was under way when the handler returned nil fails with any such error, and the
      attempt is completed. */
  lemma LateHeartbeat(c: Config, job: Job, err: Err) returns (acts: seq<Action>)
    requires ValidConfig(c) && ValidClaimed(c, job) && CtxCanceled in err && ErrCommitOutcomeUnknown !in err
    ensures var s := MachineAfter(c, acts);
            s.Some? && s.value.log == AttemptLog(c, job) + [BeatReplied(Some(err))] + [ParentAlive] + [AckCalled(Complete(job.lease))]
  {
    PlayClaim(c, job);
    acts := [Look, CallClaim, ReplyClaim(job, None)];
    PlayHandler(c, job, acts);
    acts := acts + [StartHandler] + [Tick] + [EndHandler(Returns(None))];
    PlayCancel(c, job, acts);
    acts := acts + [CloseStop] + [CancelAttempt];
    PlayBeat(c, job, acts, err);
    acts := acts + [ReplyBeat(Some(err))] + [CancelCause] + [Send] + [Join];
    PlayAck(c, job, acts, err);
    acts := acts + [Check] + [CallAck];
  }

  /** A lost lease is acted on only if the error does not also match context cancellation: joined with
      it, the loss is taken for the attempt's own end and the attempt is acknowledged all the same. */
  lemma JoinedLossIsTakenForTeardown(c: Config, job: Job) returns (acts: seq<Action>)
    requires ValidConfig(c) && ValidClaimed(c, job)
    ensures var s := MachineAfter(c, acts);
            s.Some? && s.value.log == AttemptLog(c, job) + [BeatReplied(Some({ErrLeaseLost, CtxCanceled}))] + [ParentAlive]
                                      + [AckCalled(Complete(job.lease))]
  {
    acts := LateHeartbeat(c, job, {ErrLeaseLost, CtxCanceled});
  }

  /** The heartbeat's error at b is followed by an acknowledgement at j, in the same attempt. */
  predicate AckedAfter(log: seq<Event>, b: nat, j: nat, err: Err) {
    && b < j < |log| && log[b] == BeatReplied(Some(err)) && log[j].AckCalled?
    && forall k :: b < k < j ==> !log[k].ClaimReplied?
  }

  /** In some run of the Worker the heartbeat fails with this error and the attempt is acknowledged. */
  ghost predicate MayBeAcked(c: Config, err: Err) {
    exists acts, b, j :: MachineAfter(c, acts).Some? && AckedAfter(MachineAfter(c, acts).value.log, b, j, err)
  }

  /** A job that the Worker can claim. */
  function SomeJob(c: Config): Job {
    var id, token: Bytes := seq(32, _ => 48), seq(64, _ => 48);
    var now := Time(0, true);
    Job(id, c.queue, [97], Some([]), [], Running, 1, 1, now, now, now, Lease(id, token), c.workerID, now, [], ZERO_TIME)
  }

  lemma SomeJobIsClaimed(c: Config)
    requires ValidConfig(c)
    ensures ValidClaimed(c, SomeJob(c))
  {
    Utf8.AsciiIsClean([]);
  }

  /** Exactly which heartbeat errors can be followed by an acknowledgement, over all runs: those that match
      context cancellation and no unknown outcome, whatever else they match. */
  lemma AcknowledgedIff(c: Config, err: Err)
    requires ValidConfig(c)
    ensures MayBeAcked(c, err) <==> CtxCanceled in err && ErrCommitOutcomeUnknown !in err
  {
    if CtxCanceled in err && ErrCommitOutcomeUnknown !in err {
      SomeJobIsClaimed(c);
      var acts := LateHeartbeat(c, SomeJob(c), err);
      assert AckedAfter(MachineAfter(c, acts).value.log, 7, 9, err);
    }
    forall acts, b: nat, j: nat | MachineAfter(c, acts).Some? && AckedAfter(MachineAfter(c, acts).value.log, b, j, err)
      ensures CtxCanceled in err && ErrCommitOutcomeUnknown !in err
    {
      RunsObeyProtocol(c, acts);
      FailedHeartbeat(c, MachineAfter(c, acts).value.log, b, j);
    }
  }
}
