/** What any store, handler and parent context can rely on in every run of a Worker, stated as a monitor
    over the observable events and proved for all interleavings. */
module WorkerProtocol {
  import opened Base
  import opened Errors
  import opened Values
  import opened Rows
  import opened Retry
  import opened Workers
  import FailureText

  datatype Stage =
    | Between
    | Resting                            // no job was found, a poll interval has to pass
    | Alive                              // the parent was seen alive, a claim may follow
    | Offered(job: Job)                  // a definite claim returned this job
    | Working(job: Job)
    | Over(job: Job, end: HandlerEnd)
    | Cleared(job: Job, end: HandlerEnd) // heartbeat joined and parent seen alive
    | Acked(job: Job)
    | Finished

  /** `calling`: a store call is in flight. `beat`: the heartbeat error of this attempt. `cause`: why the
      attempt's context ended. `ended`: how the parent ended. `due`: the error that Run now owes. */
  datatype Monitor = Monitor(stage: Stage, calling: bool, beat: Option<Err>, cause: Option<Err>, ended: Option<Done>,
                             due: Option<RunError>)

  const INITIAL := Monitor(Between, false, None, None, None, None)

  predicate CanCall(m: Monitor) { !m.calling && m.due.None? && m.stage != Finished }

  /** No heartbeat error, or one that counts as the attempt's own end: a context cancellation without an
      unknown outcome, when the handler's end was the first cause of the cancellation. */
  predicate BeatAllows(beat: Option<Err>, cause: Option<Err>) {
    beat.None? || (CtxCanceled in beat.value && ErrCommitOutcomeUnknown !in beat.value && Is(cause, HandlerFinished))
  }

  /** The attempt's context ends once, because the parent ended, the heartbeat failed or the handler did. */
  predicate EndsAttempt(m: Monitor, cause: Err) {
    && m.cause.None? && (m.stage.Offered? || m.stage.Working? || m.stage.Over?)
    && ((m.ended.Some? && m.ended.value.cause == cause) || m.beat == Some(cause) || (m.stage.Over? && cause == {HandlerFinished}))
  }

  /** The acknowledgement that an attempt's end calls for: Complete only for a nil return. */
  predicate Matches(c: Config, job: Job, end: HandlerEnd, ack: Ack) {
    match end
    case Returns(None) => ack == Complete(job.lease)
    case Returns(Some(e)) =>
      && ack.Fail? && ack.lease == job.lease && ack.failure.message == FailureText.Bounded(e.text)
      && (ack.failure.permanent <==> PermanentFailure in e.identities)
      && (ack.failure.permanent ==> ack.failure.retryAfter == 0)
      && (!ack.failure.permanent ==> job.attempts >= 1 && ack.failure.retryAfter == DelayAfter(c.policy, job.attempts))
    case Panics =>
      && ack.Fail? && ack.lease == job.lease && ack.failure.message == FailureText.Bounded(Ascii("handler panicked"))
      && !ack.failure.permanent && job.attempts >= 1 && ack.failure.retryAfter == DelayAfter(c.policy, job.attempts)
  }

  predicate HasJob(g: Stage) { g.Offered? || g.Working? || g.Over? || g.Cleared? || g.Acked? }

  /** An attempt ends without an acknowledgement, and Run goes on, only when the heartbeat saw the job canceled. */
  predicate Dropped(m: Monitor) { m.stage.Cleared? && Is(m.beat, ErrCanceled) && !BeatAllows(m.beat, m.cause) }

  /** What Run may return, and when: the error that it owes; the parent's error once the parent has ended,
      between attempts or after the join; a heartbeat error that is neither a cancellation of the job nor
      the attempt's own end; and ErrInvalid for a configuration that is refused. */
  predicate Returnable(c: Config, m: Monitor, result: RunError) {
    if m.due.Some? then result == m.due.value
    else if m.stage == Between || m.stage == Resting || Dropped(m) then
      (m.ended.Some? && result == Plain(m.ended.value.err)) || (!ValidConfig(c) && result == Plain({ErrInvalid}))
    else if m.stage.Over? then m.cause.Some? && m.ended.Some? && result == Plain(m.ended.value.err)
    else m.stage.Cleared? && !BeatAllows(m.beat, m.cause) && result == Plain(m.beat.value)
  }

  /** The events that may happen next. */
  predicate Permits(c: Config, m: Monitor, e: Event) {
    match e
    case ParentEnded(_, _) => m.ended.None?
    case ParentAlive =>
      && m.ended.None? && !m.calling && m.due.None?
      && (m.stage == Between || (m.stage.Over? && m.cause.Some?) || Dropped(m))
    case ClaimCalled(request) => m.stage == Alive && CanCall(m) && request == ClaimRequest(c.queue, c.workerID, c.lease)
    case ClaimReplied(_, _) => m.stage == Alive && m.calling
    case Waited => m.stage == Resting
    case HandlerCalled(job) => m.stage == Offered(job)
    case HandlerEnded(job, _) => m.stage == Working(job)
    case AttemptEnded(cause) => EndsAttempt(m, cause)
    case BeatCalled(lease, duration) =>
      && CanCall(m) && m.beat.None? && (m.stage.Offered? || m.stage.Working? || m.stage.Over?)
      && lease == m.stage.job.lease && duration == c.lease
    case BeatReplied(_) => m.calling && m.beat.None? && (m.stage.Offered? || m.stage.Working? || m.stage.Over?)
    case AckCalled(ack) => m.stage.Cleared? && CanCall(m) && BeatAllows(m.beat, m.cause) && Matches(c, m.stage.job, m.stage.end, ack)
    case AckReplied(_, _) => m.stage.Acked? && m.calling
    case RunEnded(result) => !m.calling && m.stage != Finished && Returnable(c, m, result)
  }

  function Observe(c: Config, m: Monitor, e: Event): Monitor
    requires Permits(c, m, e)
  {
    match e
    case ParentEnded(reason, cause) => m.(ended := Some(Done(reason, cause)))
    case ParentAlive => m.(stage := if m.stage.Over? then Cleared(m.stage.job, m.stage.end) else Alive)
    case ClaimCalled(_) => m.(calling := true)
    case ClaimReplied(job, err) =>
      if Is(err, ErrCommitOutcomeUnknown) then
        m.(calling := false, due := Some(if job.id != [] then ClaimReconciliation(job, err.value) else Plain(err.value)))
      else if Is(err, ErrNoJob) then m.(calling := false, stage := Resting)
      else if err.Some? then m.(calling := false, due := Some(Plain(err.value)))
      else if !ValidClaimed(c, job) then m.(calling := false, due := Some(Plain({ErrInvalid})))
      else m.(calling := false, stage := Offered(job), beat := None, cause := None)
    case Waited => m.(stage := Between)
    case HandlerCalled(job) => m.(stage := Working(job))
    case HandlerEnded(job, end) => m.(stage := Over(job, end))
    case AttemptEnded(cause) => m.(cause := Some(cause))
    case BeatCalled(_, _) => m.(calling := true)
    case BeatReplied(err) =>
      m.(calling := false, beat := err,
         due := if Is(err, ErrCommitOutcomeUnknown) then Some(LeaseReconciliation(m.stage.job, m.stage.job.lease, err.value)) else m.due)
    case AckCalled(_) => m.(calling := true, stage := Acked(m.stage.job))
    case AckReplied(job, err) =>
      if Is(err, ErrCommitOutcomeUnknown) then m.(calling := false, due := Some(LeaseReconciliation(job, m.stage.job.lease, err.value)))
      else if Is(err, ErrCanceled) || err.None? then m.(calling := false, stage := Between)
      else m.(calling := false, due := Some(Plain(err.value)))
    case RunEnded(_) => m.(stage := Finished)
  }

  /** None if the monitor rejects the events. */
  function MonitorAfter(c: Config, log: seq<Event>): Option<Monitor> {
    if log == [] then Some(INITIAL)
    else
      var m := MonitorAfter(c, log[..|log| - 1]);
      if m.None? || !Permits(c, m.value, log[|log| - 1]) then None else Some(Observe(c, m.value, log[|log| - 1]))
  }

  // ----- Simulation -----

  /** The heartbeat error that the monitor has seen, against the one that the goroutine carries. */
  predicate Carries(s: Machine, beat: Option<Err>, err: Option<Err>) {
    if beat.Some? then err == beat else err.Some? ==> s.attempt.Some? && err.value == s.attempt.value.err
  }

  predicate BeatRelated(s: Machine, m: Monitor) {
    match s.beat
    case Ending(err) => Carries(s, m.beat, err)
    case Sending(err) => Carries(s, m.beat, err)
    case Sent(err) => Carries(s, m.beat, err)
    case _ => InAttempt(s.phase) ==> m.beat.None?
  }

  predicate DueRelated(s: Machine, m: Monitor) {
    if (InAttempt(s.phase) || s.phase.Checking?) && Is(m.beat, ErrCommitOutcomeUnknown)
    then m.due == Some(LeaseReconciliation(s.job, s.job.lease, m.beat.value))
    else !s.phase.Stopped? ==> m.due.None?
  }

  predicate StageRelated(c: Config, s: Machine, m: Monitor) {
    match s.phase
    case Top => m.stage == Between || Dropped(m)
    case Polling => m.stage == Resting
    case Looked => m.stage == Alive
    case Claiming => m.stage == Alive
    case Starting => m.stage == Offered(s.job)
    case Handling => m.stage == Working(s.job)
    case Closing(end) => m.stage == Over(s.job, end)
    case Canceling(end) => m.stage == Over(s.job, end)
    case Joining(end) => m.stage == Over(s.job, end)
    case Checking(end, err) => m.stage == Over(s.job, end) && Carries(s, m.beat, err)
    case Ready(ack) => m.stage.Cleared? && m.stage.job == s.job && BeatAllows(m.beat, m.cause) && Matches(c, s.job, m.stage.end, ack)
    case Acking => m.stage == Acked(s.job)
    case Stopped(_) => m.stage == Finished
  }

  function CauseOf(context: Option<Done>): Option<Err> { if context.Some? then Some(context.value.cause) else None }

  /** As long as the parent lives, only the heartbeat's error or the handler's end cancels the attempt. */
  predicate OwnEnd(s: Machine, m: Monitor) {
    s.attempt.Some? && s.parent.None? ==>
      s.attempt.value.err == {CtxCanceled} && (s.attempt.value.cause == {HandlerFinished} || m.beat == Some(s.attempt.value.cause))
  }

  /** The configuration was accepted, and so was the job of the attempt. */
  predicate Accepted(c: Config, s: Machine) {
    && (!s.phase.Stopped? ==> ValidConfig(c))
    && (InAttempt(s.phase) || s.phase.Checking? ==> s.job.attempts >= 1)
  }

  predicate AttemptRelated(s: Machine, m: Monitor) {
    InAttempt(s.phase) || s.phase.Checking? ==> m.cause == CauseOf(s.attempt) && OwnEnd(s, m)
  }

  predicate Related(c: Config, s: Machine, m: Monitor) {
    && m.ended == s.parent && Accepted(c, s) && AttemptRelated(s, m)
    && (m.calling <==> s.phase.Claiming? || s.phase.Acking? || s.beat.Calling?)
    && BeatRelated(s, m) && DueRelated(s, m) && StageRelated(c, s, m)
  }

  /** Up to two further events take the monitor from m to m'. */
  predicate Feeds(c: Config, m: Monitor, es: seq<Event>, m': Monitor) {
    || (es == [] && m' == m)
    || (|es| == 1 && Permits(c, m, es[0]) && m' == Observe(c, m, es[0]))
    || (|es| == 2 && Permits(c, m, es[0]) && Permits(c, Observe(c, m, es[0]), es[1])
        && m' == Observe(c, Observe(c, m, es[0]), es[1]))
  }

  lemma OneMore(c: Config, log: seq<Event>, m: Monitor, e: Event, m': Monitor)
    requires MonitorAfter(c, log) == Some(m) && Permits(c, m, e) && m' == Observe(c, m, e)
    ensures MonitorAfter(c, log + [e]) == Some(m')
  {
    assert (log + [e])[..|log|] == log;
  }

  lemma TwoMore(c: Config, log: seq<Event>, m: Monitor, e: Event, m1: Monitor, f: Event, m': Monitor)
    requires MonitorAfter(c, log) == Some(m) && Permits(c, m, e) && m1 == Observe(c, m, e)
    requires Permits(c, m1, f) && m' == Observe(c, m1, f)
    ensures MonitorAfter(c, log + [e, f]) == Some(m')
  {
    OneMore(c, log, m, e, m1);
    OneMore(c, log + [e], m1, f, m');
    assert log + [e, f] == log + [e] + [f];
  }

  lemma FeedsMonitor(c: Config, log: seq<Event>, es: seq<Event>, m: Monitor, m': Monitor)
    requires MonitorAfter(c, log) == Some(m) && Feeds(c, m, es, m')
    ensures MonitorAfter(c, log + es) == Some(m')
  {
    if |es| == 0 {
      assert log + es == log;
    } else if |es| == 1 {
      OneMore(c, log, m, es[0], m');
      assert es == [es[0]];
    } else {
      TwoMore(c, log, m, es[0], Observe(c, m, es[0]), es[1], m');
      assert es == [es[0], es[1]];
    }
  }

  /** One step of the machine, seen by the monitor. */
  predicate Simulates(c: Config, s: Machine, m: Monitor, s': Machine, es: seq<Event>, m': Monitor) {
    s'.log == s.log + es && Feeds(c, m, es, m') && Related(c, s', m')
  }

  lemma AckMatches(c: Config, job: Job, end: HandlerEnd)
    ensures AckFor(c, job, end).Some? ==> Matches(c, job, end, AckFor(c, job, end).value)
  {
  }

  lemma EndRelated(c: Config, s: Machine, m: Monitor, result: RunError)
    requires Permits(c, m, RunEnded(result)) && m.ended == s.parent && (s.beat.Off? || s.beat.Waiting?)
    ensures Related(c, End(s, result), Observe(c, m, RunEnded(result)))
  {
  }

  /** A job that passes validateClaimedAttempt is a running attempt with a usable lease. */
  lemma ClaimedIsRunning(c: Config, job: Job)
    requires ValidConfig(c) && ValidClaimed(c, job)
    ensures job.state == Running && job.attempts >= 1 && ValidLease(job.lease) && job.lease.jobID == job.id
  {
  }

  lemma ClaimGoesOn(c: Config, s: Machine, m: Monitor, job: Job, err: Option<Err>)
    requires Shape(s) && Related(c, s, m) && s.phase.Claiming?
    requires !AfterClaim(c, Emit(s, ClaimReplied(job, err)), job, err).phase.Stopped?
    ensures var e := ClaimReplied(job, err);
            Permits(c, m, e) && Simulates(c, s, m, AfterClaim(c, Emit(s, e), job, err), [e], Observe(c, m, e))
  {
    if ValidClaimed(c, job) {
      ClaimedIsRunning(c, job);
    }
  }

  lemma ClaimSimulates(c: Config, s: Machine, m: Monitor, job: Job, err: Option<Err>) returns (es: seq<Event>, m': Monitor)
    requires Shape(s) && Related(c, s, m) && s.phase.Claiming?
    ensures Simulates(c, s, m, AfterClaim(c, Emit(s, ClaimReplied(job, err)), job, err), es, m')
  {
    var e := ClaimReplied(job, err);
    es, m' := [e], Observe(c, m, e);
    var s' := AfterClaim(c, Emit(s, e), job, err);
    if s'.phase.Stopped? {
      EndRelated(c, Emit(s, e), m', s'.phase.result);
      es, m' := [e, RunEnded(s'.phase.result)], Observe(c, m', RunEnded(s'.phase.result));
    } else {
      ClaimGoesOn(c, s, m, job, err);
    }
  }

  lemma JoinSimulates(c: Config, s: Machine, m: Monitor, end: HandlerEnd, err: Option<Err>) returns (es: seq<Event>, m': Monitor)
    requires Shape(s) && Related(c, s, m) && s.phase == Checking(end, err)
    ensures Simulates(c, s, m, AfterJoin(c, s, end, err), es, m')
  {
    var s' := AfterJoin(c, s, end, err);
    if Is(err, ErrCommitOutcomeUnknown) || s.parent.Some? {
      EndRelated(c, s, m, s'.phase.result);
      es, m' := [RunEnded(s'.phase.result)], Observe(c, m, RunEnded(s'.phase.result));
    } else {
      AckMatches(c, s.job, end);
      es, m' := [ParentAlive], Observe(c, m, ParentAlive);
      if s'.phase.Stopped? {
        EndRelated(c, Emit(s, ParentAlive), m', s'.phase.result);
        es, m' := [ParentAlive, RunEnded(s'.phase.result)], Observe(c, m', RunEnded(s'.phase.result));
      }
    }
  }

  lemma AckSimulates(c: Config, s: Machine, m: Monitor, job: Job, err: Option<Err>) returns (es: seq<Event>, m': Monitor)
    requires Shape(s) && Related(c, s, m) && s.phase.Acking?
    ensures Simulates(c, s, m, AfterAck(Emit(s, AckReplied(job, err)), job, err), es, m')
  {
    var e := AckReplied(job, err);
    es, m' := [e], Observe(c, m, e);
    var s' := AfterAck(Emit(s, e), job, err);
    if s'.phase.Stopped? {
      EndRelated(c, Emit(s, e), m', s'.phase.result);
      es, m' := [e, RunEnded(s'.phase.result)], Observe(c, m', RunEnded(s'.phase.result));
    }
  }

  lemma BeatSimulates(c: Config, s: Machine, m: Monitor, a: Action) returns (es: seq<Event>, m': Monitor)
    requires Shape(s) && Related(c, s, m) && Enabled(s, a) && (a.Tick? || a.ReplyBeat?)
    ensures Simulates(c, s, m, Do(c, s, a), es, m')
  {
    var e := if a.Tick? then BeatCalled(s.job.lease, c.lease) else BeatReplied(a.err);
    es, m' := [e], Observe(c, m, e);
  }

  lemma SelectSimulates(c: Config, s: Machine, m: Monitor, a: Action)
    requires Shape(s) && Related(c, s, m) && Enabled(s, a) && (a.SeeStop? || a.SeeDone? || a.Send?)
    ensures Simulates(c, s, m, Do(c, s, a), [], m)
  {
  }

  lemma CauseSimulates(c: Config, s: Machine, m: Monitor) returns (es: seq<Event>, m': Monitor)
    requires Shape(s) && Related(c, s, m) && Enabled(s, CancelCause)
    ensures Simulates(c, s, m, Do(c, s, CancelCause), es, m')
  {
    es, m' := [], m;
    if s.beat.err.Some? && s.attempt.None? {
      es, m' := [AttemptEnded(s.beat.err.value)], Observe(c, m, AttemptEnded(s.beat.err.value));
    }
  }

  predicate Local(a: Action) { a.Propagate? || a.CloseStop? || a.CancelAttempt? || a.Join? }

  lemma LocalSimulates(c: Config, s: Machine, m: Monitor, a: Action) returns (es: seq<Event>, m': Monitor)
    requires Shape(s) && Related(c, s, m) && Enabled(s, a) && Local(a)
    ensures Simulates(c, s, m, Do(c, s, a), es, m')
  {
    es, m' := [], m;
    if a.Propagate? {
      es, m' := [AttemptEnded(s.parent.value.cause)], Observe(c, m, AttemptEnded(s.parent.value.cause));
    } else if a.CancelAttempt? && s.attempt.None? {
      es, m' := [AttemptEnded({HandlerFinished})], Observe(c, m, AttemptEnded({HandlerFinished}));
    }
  }

  lemma LookSimulates(c: Config, s: Machine, m: Monitor, a: Action) returns (es: seq<Event>, m': Monitor)
    requires Shape(s) && Related(c, s, m) && Enabled(s, a) && (a.Look? || a.Poll?)
    ensures Simulates(c, s, m, Do(c, s, a), es, m')
  {
    if a.Poll? && a.elapsed {
      es, m' := [Waited], Observe(c, m, Waited);
    } else if s.parent.Some? {
      var result := Plain(s.parent.value.err);
      EndRelated(c, s, m, result);
      es, m' := [RunEnded(result)], Observe(c, m, RunEnded(result));
    } else {
      es, m' := [ParentAlive], Observe(c, m, ParentAlive);
    }
  }

  lemma CallSimulates(c: Config, s: Machine, m: Monitor, a: Action) returns (es: seq<Event>, m': Monitor)
    requires Shape(s) && Related(c, s, m) && Enabled(s, a) && (a.CallClaim? || a.CallAck?)
    ensures Simulates(c, s, m, Do(c, s, a), es, m')
  {
    var e := if a.CallClaim? then ClaimCalled(ClaimRequest(c.queue, c.workerID, c.lease)) else AckCalled(s.phase.ack);
    es, m' := [e], Observe(c, m, e);
  }

  lemma OutsideSimulates(c: Config, s: Machine, m: Monitor, a: Action) returns (es: seq<Event>, m': Monitor)
    requires Shape(s) && Related(c, s, m) && Enabled(s, a) && (a.CancelParent? || a.StartHandler? || a.EndHandler?)
    ensures Simulates(c, s, m, Do(c, s, a), es, m')
  {
    var e := if a.CancelParent? then ParentEnded(a.done.err, a.done.cause) else if a.StartHandler? then HandlerCalled(s.job) else HandlerEnded(s.job, a.end);
    es, m' := [e], Observe(c, m, e);
  }

  lemma StepSimulates(c: Config, s: Machine, m: Monitor, a: Action) returns (es: seq<Event>, m': Monitor)
    requires Shape(s) && Related(c, s, m) && Enabled(s, a)
    ensures Simulates(c, s, m, Do(c, s, a), es, m')
  {
    if a.CancelCause? {
      es, m' := CauseSimulates(c, s, m);
    } else if a.Tick? || a.ReplyBeat? {
      es, m' := BeatSimulates(c, s, m, a);
    } else if a.SeeStop? || a.SeeDone? || a.Send? {
      SelectSimulates(c, s, m, a);
      es, m' := [], m;
    } else if Local(a) {
      es, m' := LocalSimulates(c, s, m, a);
    } else if a.ReplyClaim? {
      es, m' := ClaimSimulates(c, s, m, a.job, a.err);
    } else if a.Check? {
      es, m' := JoinSimulates(c, s, m, s.phase.end, s.phase.heartbeatErr);
    } else if a.ReplyAck? {
      es, m' := AckSimulates(c, s, m, a.job, a.err);
    } else if a.Look? || a.Poll? {
      es, m' := LookSimulates(c, s, m, a);
    } else if a.CallClaim? || a.CallAck? {
      es, m' := CallSimulates(c, s, m, a);
    } else {
      es, m' := OutsideSimulates(c, s, m, a);
    }
  }

  predicate Obeys(c: Config, log: seq<Event>) { MonitorAfter(c, log).Some? }

  /** What every reachable machine satisfies. */
  predicate Good(c: Config, s: Machine) {
    Shape(s) && Obeys(c, s.log) && Related(c, s, MonitorAfter(c, s.log).value)
  }

  lemma StartIsGood(c: Config)
    ensures Good(c, Start(c))
  {
  }

  /** A step keeps the machine good and only appends to its log, a call or reply first. */
  lemma GoodStep(c: Config, s: Machine, a: Action) returns (es: seq<Event>)
    requires Good(c, s) && Enabled(s, a)
    ensures Good(c, Do(c, s, a)) && Do(c, s, a).log == s.log + es
  {
    ShapeStep(c, s, a);
    var m := MonitorAfter(c, s.log).value;
    var m';
    es, m' := StepSimulates(c, s, m, a);
    FeedsMonitor(c, s.log, es, m, m');
  }

  /** Every interleaving of the main loop, the heartbeat goroutine, the handler, the parent context and
      arbitrary store answers shows only events that the monitor permits. */
  lemma {:induction false} RunsObeyProtocol(c: Config, acts: seq<Action>)
    requires MachineAfter(c, acts).Some?
    ensures Obeys(c, MachineAfter(c, acts).value.log) && Good(c, MachineAfter(c, acts).value)
  {
    if acts == [] {
      StartIsGood(c);
    } else {
      var before := acts[..|acts| - 1];
      RunsObeyProtocol(c, before);
      var es := GoodStep(c, MachineAfter(c, before).value, acts[|acts| - 1]);
    }
  }

  // ----- Readings of the protocol -----

  predicate Call(e: Event) { e.ClaimCalled? || e.BeatCalled? || e.AckCalled? }

  predicate Reply(e: Event) { e.ClaimReplied? || e.BeatReplied? || e.AckReplied? }

  /** A store reply whose error matches ErrCommitOutcomeUnknown, whatever else it matches. */
  predicate UnknownReply(e: Event) { Reply(e) && Is(e.err, ErrCommitOutcomeUnknown) }

  lemma ObeysPrefix(c: Config, log: seq<Event>)
    requires Obeys(c, log) && log != []
    ensures Obeys(c, log[..|log| - 1])
    ensures var m := MonitorAfter(c, log[..|log| - 1]).value;
            Permits(c, m, log[|log| - 1]) && MonitorAfter(c, log) == Some(Observe(c, m, log[|log| - 1]))
  {
  }

  lemma {:induction false} PrefixObeys(c: Config, log: seq<Event>, j: nat)
    requires Obeys(c, log) && j <= |log|
    ensures Obeys(c, log[..j])
    ensures j < |log| ==> Permits(c, MonitorAfter(c, log[..j]).value, log[j])
  {
    if j < |log| {
      ObeysPrefix(c, log);
      PrefixObeys(c, log[..|log| - 1], j);
      assert log[..|log| - 1][..j] == log[..j];
    } else {
      assert log[..j] == log;
    }
  }

  lemma {:induction false} DueStays(c: Config, log: seq<Event>, i: nat)
    requires Obeys(c, log) && i < |log| && UnknownReply(log[i])
    ensures MonitorAfter(c, log).value.due.Some? && ErrCommitOutcomeUnknown in MonitorAfter(c, log).value.due.value.err
  {
    ObeysPrefix(c, log);
    if i < |log| - 1 {
      DueStays(c, log[..|log| - 1], i);
    }
  }

  /** After any reply with an unknown outcome, also one that matches ErrNoJob or ErrCanceled too, Run makes
      no store call, and what it returns matches ErrCommitOutcomeUnknown. */
  lemma {:induction false} UnknownEndsTheRun(c: Config, log: seq<Event>, i: nat, j: nat)
    requires Obeys(c, log) && i < j < |log| && UnknownReply(log[i])
    ensures !Call(log[j])
    ensures log[j].RunEnded? ==> ErrCommitOutcomeUnknown in log[j].result.err
    decreases |log|
  {
    ObeysPrefix(c, log);
    if j < |log| - 1 {
      UnknownEndsTheRun(c, log[..|log| - 1], i, j);
    } else {
      DueStays(c, log[..j], i);
    }
  }

  lemma {:induction false} CallIsPending(c: Config, log: seq<Event>, i: nat)
    requires Obeys(c, log) && i < |log| && Call(log[i])
    requires forall k :: i < k < |log| ==> !Reply(log[k])
    ensures MonitorAfter(c, log).value.calling
  {
    ObeysPrefix(c, log);
    if i < |log| - 1 {
      CallIsPending(c, log[..|log| - 1], i);
    }
  }

  /** One Run never has two store calls in flight, although two goroutines make them: the heartbeat is
      joined before the main loop calls the store again. */
  lemma CallsNeverOverlap(c: Config, log: seq<Event>, i: nat, j: nat)
    requires Obeys(c, log) && i < j < |log| && Call(log[i]) && Call(log[j])
    ensures exists k :: i < k < j && Reply(log[k])
  {
    PrefixObeys(c, log, j);
    var before := log[..j];
    assert forall k :: 0 <= k < j ==> before[k] == log[k];
    if forall k :: i < k < j ==> !Reply(log[k]) {
      CallIsPending(c, before, i);
    }
  }

  /** Between the end of a handler and its acknowledgement only heartbeats and looks at the parent happen. */
  predicate Quiet(e: Event) { e.BeatCalled? || e.BeatReplied? || e.AttemptEnded? || e.ParentEnded? || e.ParentAlive? }

  lemma {:induction false} EndOrigin(c: Config, log: seq<Event>) returns (i: nat)
    requires Obeys(c, log)
    requires MonitorAfter(c, log).value.stage.Over? || MonitorAfter(c, log).value.stage.Cleared?
    ensures var g := MonitorAfter(c, log).value.stage; i < |log| && log[i] == HandlerEnded(g.job, g.end)
    ensures forall k :: i < k < |log| ==> Quiet(log[k])
  {
    ObeysPrefix(c, log);
    if log[|log| - 1].HandlerEnded? {
      i := |log| - 1;
    } else {
      i := EndOrigin(c, log[..|log| - 1]);
    }
  }

  /** Every acknowledgement belongs to the handler invocation that ended last, is the one its end calls
      for, and is the only one: Complete for exactly a nil return, Fail for an error or a panic. */
  lemma AckFollowsHandler(c: Config, log: seq<Event>, j: nat) returns (i: nat, job: Job, end: HandlerEnd)
    requires Obeys(c, log) && j < |log| && log[j].AckCalled?
    ensures i < j && log[i] == HandlerEnded(job, end) && Matches(c, job, end, log[j].ack)
    ensures log[j].ack.Complete? <==> end == Returns(None)
    ensures log[j].ack.lease == job.lease
    ensures forall k :: i < k < j ==> Quiet(log[k])
  {
    PrefixObeys(c, log, j);
    i := EndOrigin(c, log[..j]);
    var g := MonitorAfter(c, log[..j]).value.stage;
    job, end := g.job, g.end;
    assert forall k :: i < k < j ==> log[..j][k] == log[k];
  }

  lemma {:induction false} OfferOrigin(c: Config, log: seq<Event>) returns (i: nat)
    requires Obeys(c, log) && MonitorAfter(c, log).value.stage.Offered?
    ensures i < |log| && log[i] == ClaimReplied(MonitorAfter(c, log).value.stage.job, None)
    ensures ValidClaimed(c, MonitorAfter(c, log).value.stage.job)
    ensures forall k :: i < k < |log| ==> Quiet(log[k])
  {
    ObeysPrefix(c, log);
    if log[|log| - 1].ClaimReplied? {
      i := |log| - 1;
    } else {
      i := OfferOrigin(c, log[..|log| - 1]);
    }
  }

  /** A handler runs only for the job of a claim that was answered without any error, once per answer. */
  lemma HandlerFollowsClaim(c: Config, log: seq<Event>, j: nat) returns (i: nat)
    requires Obeys(c, log) && j < |log| && log[j].HandlerCalled?
    ensures i < j && log[i] == ClaimReplied(log[j].job, None) && ValidClaimed(c, log[j].job)
    ensures forall k :: i < k < j ==> Quiet(log[k])
  {
    PrefixObeys(c, log, j);
    i := OfferOrigin(c, log[..j]);
    assert forall k :: i < k < j ==> log[..j][k] == log[k];
  }

  lemma {:induction false} WorkOrigin(c: Config, log: seq<Event>) returns (i: nat)
    requires Obeys(c, log) && MonitorAfter(c, log).value.stage.Working?
    ensures i < |log| && log[i] == HandlerCalled(MonitorAfter(c, log).value.stage.job)
  {
    ObeysPrefix(c, log);
    if log[|log| - 1].HandlerCalled? {
      i := |log| - 1;
    } else {
      i := WorkOrigin(c, log[..|log| - 1]);
    }
  }

  /** A handler that ended was called, with the same job. */
  lemma EndedWasCalled(c: Config, log: seq<Event>, j: nat) returns (i: nat)
    requires Obeys(c, log) && j < |log| && log[j].HandlerEnded?
    ensures i < j && log[i] == HandlerCalled(log[j].job)
  {
    PrefixObeys(c, log, j);
    i := WorkOrigin(c, log[..j]);
  }

  lemma EndedStep(c: Config, m: Monitor, e: Event)
    requires Permits(c, m, e)
    ensures Observe(c, m, e).ended.None? <==> m.ended.None? && !e.ParentEnded?
  {
  }

  lemma {:induction false} NotYetEnded(c: Config, log: seq<Event>)
    requires Obeys(c, log) && MonitorAfter(c, log).value.ended.None?
    ensures forall p :: 0 <= p < |log| ==> !log[p].ParentEnded?
  {
    if log != [] {
      var before := log[..|log| - 1];
      ObeysPrefix(c, log);
      EndedStep(c, MonitorAfter(c, before).value, log[|log| - 1]);
      NotYetEnded(c, before);
      assert forall p :: 0 <= p < |before| ==> log[p] == before[p];
    }
  }

  lemma {:induction false} ClearedBy(c: Config, log: seq<Event>, i: nat)
    requires Obeys(c, log) && i < |log| && log[i].HandlerEnded? && MonitorAfter(c, log).value.stage.Cleared?
    requires forall k :: i < k < |log| ==> Quiet(log[k])
    ensures exists k :: i < k < |log| && log[k] == ParentAlive
  {
  }

  lemma AliveSoFar(c: Config, log: seq<Event>, k: nat)
    requires Obeys(c, log) && k < |log| && log[k] == ParentAlive
    ensures forall p :: 0 <= p < k ==> !log[p].ParentEnded?
  {
    PrefixObeys(c, log, k);
    NotYetEnded(c, log[..k]);
    assert forall p :: 0 <= p < k ==> log[..k][p] == log[p];
  }

  /** The look at the parent that preceded the acknowledgement at j of the handler end at i. */
  lemma LookBeforeAck(c: Config, log: seq<Event>, i: nat, j: nat) returns (k: nat)
    requires Obeys(c, log) && i < j < |log| && log[j].AckCalled? && log[i].HandlerEnded?
    requires forall m :: i < m < j ==> Quiet(log[m])
    ensures i < k < j && log[k] == ParentAlive
  {
    PrefixObeys(c, log, j);
    var before := log[..j];
    assert forall m :: i <= m < j ==> before[m] == log[m];
    ClearedBy(c, before, i);
    k :| i < k < j && before[k] == ParentAlive;
  }

  /** Every acknowledgement comes after a look at the parent context that was made when the handler had
      already ended and found the parent alive: a cancellation before the handler's end prevents it. */
  lemma ParentAliveBeforeAck(c: Config, log: seq<Event>, j: nat) returns (i: nat, k: nat)
    requires Obeys(c, log) && j < |log| && log[j].AckCalled?
    ensures i < k < j && log[i].HandlerEnded? && log[k] == ParentAlive
    ensures forall m :: i < m < j ==> !log[m].HandlerEnded?
    ensures forall p :: 0 <= p < k ==> !log[p].ParentEnded?
  {
    var job, end;
    i, job, end := AckFollowsHandler(c, log, j);
    k := LookBeforeAck(c, log, i, j);
    AliveSoFar(c, log, k);
  }

  lemma {:induction false} FailedBeatStays(c: Config, log: seq<Event>, b: nat)
    requires Obeys(c, log) && b < |log| && log[b].BeatReplied? && log[b].err.Some?
    requires forall k :: b < k < |log| ==> !log[k].ClaimReplied?
    ensures MonitorAfter(c, log).value.beat == log[b].err
  {
    ObeysPrefix(c, log);
    if b < |log| - 1 {
      FailedBeatStays(c, log[..|log| - 1], b);
    }
  }

  lemma {:induction false} CauseOrigin(c: Config, log: seq<Event>, b: nat) returns (k: nat)
    requires Obeys(c, log) && b < |log| && log[b].BeatReplied? && MonitorAfter(c, log).value.cause.Some?
    requires forall n :: b < n < |log| ==> !log[n].ClaimReplied?
    ensures k < |log| && log[k] == AttemptEnded(MonitorAfter(c, log).value.cause.value)
    ensures forall n :: k < n < |log| ==> !log[n].ClaimReplied? && !log[n].AttemptEnded?
  {
    if b == |log| - 1 {
      ObeysPrefix(c, log);
      k := CauseBefore(c, log);
    } else {
      ObeysPrefix(c, log);
      CauseStep(c, MonitorAfter(c, log[..|log| - 1]).value, log[|log| - 1]);
      if log[|log| - 1].AttemptEnded? {
        k := |log| - 1;
      } else {
        k := CauseOrigin(c, log[..|log| - 1], b);
      }
    }
  }

  /** Only a claim's answer and the end of the attempt's context change the cause. */
  lemma CauseStep(c: Config, m: Monitor, e: Event)
    requires Permits(c, m, e)
    ensures e.AttemptEnded? ==> Observe(c, m, e).cause == Some(e.cause)
    ensures !e.AttemptEnded? && !e.ClaimReplied? ==> Observe(c, m, e).cause == m.cause
  {
  }

  /** As long as an attempt lasts, the cause of its context's end goes back to an event of the attempt. */
  lemma {:induction false} CauseBefore(c: Config, log: seq<Event>) returns (k: nat)
    requires Obeys(c, log) && MonitorAfter(c, log).value.cause.Some?
    requires var g := MonitorAfter(c, log).value.stage; g.Offered? || g.Working? || g.Over?
    ensures k < |log| && log[k] == AttemptEnded(MonitorAfter(c, log).value.cause.value)
    ensures forall n :: k < n < |log| ==> !log[n].ClaimReplied? && !log[n].AttemptEnded?
  {
    ObeysPrefix(c, log);
    if log[|log| - 1].AttemptEnded? {
      k := |log| - 1;
    } else {
      k := CauseBefore(c, log[..|log| - 1]);
    }
  }

  /** The attempt that is under way at j was ended at k, and its handler's end was the cause. */
  predicate FinishedFirst(log: seq<Event>, k: nat, j: nat)
    requires k < j <= |log|
  {
    && log[k].AttemptEnded? && HandlerFinished in log[k].cause
    && forall n :: k < n < j ==> !log[n].ClaimReplied? && !log[n].AttemptEnded?
  }

  /** In an attempt whose heartbeat failed nothing calls the store again, except that the attempt may
      still be acknowledged when the error matches context cancellation and no unknown outcome, and the
      first cause of the attempt's end, which no later one replaces, was that the handler had finished. */
  lemma FailedHeartbeat(c: Config, log: seq<Event>, b: nat, j: nat)
    requires Obeys(c, log) && b < j < |log| && log[b].BeatReplied? && log[b].err.Some?
    requires forall k :: b < k < j ==> !log[k].ClaimReplied?
    ensures !log[j].BeatCalled?
    ensures log[j].AckCalled? ==> CtxCanceled in log[b].err.value && ErrCommitOutcomeUnknown !in log[b].err.value
    ensures log[j].AckCalled? ==> exists k :: 0 <= k < j && FinishedFirst(log, k, j)
  {
    PrefixObeys(c, log, j);
    var before := log[..j];
    assert before[b] == log[b];
    assert forall k :: b < k < j ==> before[k] == log[k];
    FailedBeatStays(c, before, b);
    if log[j].AckCalled? {
      var k := CauseOrigin(c, before, b);
      assert log[k] == before[k];
      assert forall n :: k < n < j ==> before[n] == log[n];
      assert FinishedFirst(log, k, j);
    }
  }

  // ----- One attempt's calls -----

  /** From an acknowledgement to the next answer of a claim the attempt is over. */
  lemma {:induction false} AttemptIsOver(c: Config, log: seq<Event>, a: nat)
    requires Obeys(c, log) && a < |log| && log[a].AckCalled?
    requires forall k :: a < k < |log| ==> !log[k].ClaimReplied?
    ensures var g := MonitorAfter(c, log).value.stage; g.Acked? || g == Between || g == Alive || g == Finished
  {
    ObeysPrefix(c, log);
    if a < |log| - 1 {
      AttemptIsOver(c, log[..|log| - 1], a);
    }
  }

  /** The store calls of one attempt are heartbeats and then at most one acknowledgement: after it comes no
      heartbeat, no second acknowledgement and no handler until another claim has been answered. */
  lemma AckEndsTheAttempt(c: Config, log: seq<Event>, a: nat, j: nat)
    requires Obeys(c, log) && a < j < |log| && log[a].AckCalled?
    requires forall k :: a < k < j ==> !log[k].ClaimReplied?
    ensures !log[j].BeatCalled? && !log[j].BeatReplied? && !log[j].AckCalled? && !log[j].HandlerCalled? && !log[j].HandlerEnded?
  {
    PrefixObeys(c, log, j);
    assert log[..j][a] == log[a] && forall k :: a < k < j ==> log[..j][k] == log[k];
    AttemptIsOver(c, log[..j], a);
  }

  // ----- Polling -----

  lemma {:induction false} StillResting(c: Config, log: seq<Event>, i: nat)
    requires Obeys(c, log) && i < |log| && log[i].ClaimReplied? && Is(log[i].err, ErrNoJob) && !Is(log[i].err, ErrCommitOutcomeUnknown)
    requires forall k :: i < k < |log| ==> log[k] != Waited
    ensures MonitorAfter(c, log).value.stage == Resting || MonitorAfter(c, log).value.stage == Finished
  {
    ObeysPrefix(c, log);
    if i < |log| - 1 {
      StillResting(c, log[..|log| - 1], i);
    }
  }

  /** An empty queue is not polled in a busy loop: after ErrNoJob a poll interval passes before the next
      claim. */
  lemma NoBusyLoop(c: Config, log: seq<Event>, i: nat, j: nat)
    requires Obeys(c, log) && i < j < |log| && log[i].ClaimReplied? && Is(log[i].err, ErrNoJob)
    requires Call(log[j])
    ensures exists k :: i < k < j && log[k] == Waited
  {
    PrefixObeys(c, log, j);
    if Is(log[i].err, ErrCommitOutcomeUnknown) {
      UnknownEndsTheRun(c, log, i, j);
    } else if forall k :: i < k < j ==> log[k] != Waited {
      assert log[..j][i] == log[i];
      StillResting(c, log[..j], i);
    }
  }
}
