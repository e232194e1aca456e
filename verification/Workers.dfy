/** One Worker.Run of pkg/jobs/worker.go as interleaved steps: the main loop, the heartbeat goroutine of
    the attempt, the parent context, the handler, and a store that may answer anything. */
module Workers {
  import opened Base
  import opened Errors
  import opened Values
  import opened Rows
  import opened Retry
  import FailureText

  datatype Config = Config(hasStore: bool, hasHandler: bool, queue: Bytes, workerID: Bytes, lease: int,
                           heartbeatInterval: int, pollInterval: int, policy: RetryPolicy)

  /** Worker.validate */
  predicate ValidConfig(c: Config) {
    && c.hasStore && c.hasHandler
    && ValidClaim(ClaimRequest(c.queue, c.workerID, c.lease))
    && 0 < c.heartbeatInterval <= c.lease / 2
    && 0 < c.pollInterval <= 60 * SECOND
    && ValidPolicy(c.policy)
    && c.policy.initial % MICROSECOND == 0 && c.policy.maximum % MICROSECOND == 0
  }

  /** validateClaimedAttempt */
  predicate ValidClaimed(c: Config, job: Job) {
    job.queue == c.queue && job.owner == c.workerID && ValidStoredJob(job)
  }

  // ----- The handler -----

  datatype HandlerError = HandlerError(identities: Err, text: Bytes)

  const PANICKED := HandlerError({HandlerPanicked}, Ascii("handler panicked"))

  /** How a handler invocation ends. A panic may carry any value, also nil. */
  datatype HandlerEnd = Returns(err: Option<HandlerError>) | Panics

  function HandlerResult(end: HandlerEnd): Option<HandlerError> {
    if end.Panics? then Some(PANICKED) else end.err
  }

  /** callHandler: the completion flag, not the recovered value, tells a panic from a return. */
  method CallHandler(end: HandlerEnd) returns (err: Option<HandlerError>)
    ensures err == HandlerResult(end)
    ensures err == None <==> end == Returns(None)
  {
    var completed := false;
    err := None;
    if end.Returns? {
      err := end.err;
      completed := true;
    }
    if !completed {
      err := Some(PANICKED);
    }
  }

  // ----- Acknowledgements -----

  datatype Ack = Complete(lease: Lease) | Fail(lease: Lease, failure: Failure)

  /** The acknowledgement of an attempt; None if the retry policy gives no delay for it. */
  function AckFor(c: Config, job: Job, end: HandlerEnd): Option<Ack> {
    var err := HandlerResult(end);
    if err.None? then Some(Complete(job.lease))
    else
      var permanent := PermanentFailure in err.value.identities;
      if !permanent && (job.attempts < 1 || !ValidPolicy(c.policy)) then None
      else Some(Fail(job.lease, Failure(FailureText.Bounded(err.value.text),
                                        if permanent then 0 else DelayAfter(c.policy, job.attempts), permanent)))
  }

  // ----- The machine -----

  /** A context that has ended: what Err and Cause report. */
  datatype Done = Done(err: Err, cause: Err)

  /** What Run returns. Reconciliation errors carry the job and lease that the caller has to look up. */
  datatype RunError =
    | Plain(err: Err)
    | ClaimReconciliation(job: Job, err: Err)
    | LeaseReconciliation(job: Job, lease: Lease, err: Err)

  datatype Phase =
    | Top | Looked | Claiming | Polling
    | Starting | Handling
    | Closing(end: HandlerEnd) | Canceling(end: HandlerEnd) | Joining(end: HandlerEnd)
    | Checking(end: HandlerEnd, heartbeatErr: Option<Err>)
    | Ready(ack: Ack) | Acking
    | Stopped(result: RunError)

  /** The heartbeat goroutine: selecting, in a store call, returned, and past the cancel of its error. */
  datatype Beat = Off | Waiting | Calling | Ending(err: Option<Err>) | Sending(err: Option<Err>) | Sent(err: Option<Err>)

  /** What an observer of the store, the handler and the parent context sees. */
  datatype Event =
    | ParentEnded(reason: Err, cause: Err)
    | ParentAlive                              // Run reads ctx.Err() and gets nil
    | ClaimCalled(request: ClaimRequest)
    | ClaimReplied(job: Job, err: Option<Err>)
    | Waited                                   // one poll interval has passed
    | HandlerCalled(job: Job)
    | HandlerEnded(job: Job, end: HandlerEnd)
    | AttemptEnded(cause: Err)                 // the handler's context ends, with this cause
    | BeatCalled(lease: Lease, duration: int)
    | BeatReplied(err: Option<Err>)
    | AckCalled(ack: Ack)
    | AckReplied(job: Job, err: Option<Err>)
    | RunEnded(result: RunError)

  datatype Machine = Machine(phase: Phase, job: Job, parent: Option<Done>, attempt: Option<Done>, stop: bool, beat: Beat,
                         log: seq<Event>)

  datatype Action =
    | CancelParent(done: Done) | Propagate
    | Look | CallClaim | ReplyClaim(job: Job, err: Option<Err>) | Poll(elapsed: bool)
    | StartHandler | EndHandler(end: HandlerEnd)
    | CloseStop | CancelAttempt | Join | Check
    | CallAck | ReplyAck(job: Job, err: Option<Err>)
    | Tick | ReplyBeat(err: Option<Err>) | SeeStop | SeeDone | CancelCause | Send

  const ZERO_JOB := Job([], [], [], None, [], Unknown([]), 0, 0, ZERO_TIME, ZERO_TIME, ZERO_TIME,
                        NO_LEASE, [], ZERO_TIME, [], ZERO_TIME)

  function Emit(s: Machine, e: Event): Machine { s.(log := s.log + [e]) }

  /** Cancels the attempt's context. The first cancellation decides, later ones are ignored. */
  function CancelWith(s: Machine, done: Done): Machine {
    if s.attempt.Some? then s else Emit(s.(attempt := Some(done)), AttemptEnded(done.cause))
  }

  function End(s: Machine, result: RunError): Machine { Emit(s.(phase := Stopped(result)), RunEnded(result)) }

  function Start(c: Config): Machine {
    var s := Machine(Top, ZERO_JOB, None, None, false, Off, []);
    if ValidConfig(c) then s else End(s, Plain({ErrInvalid}))
  }

  predicate ContextErr(err: Err) { err == {CtxCanceled} || err == {CtxDeadlineExceeded} }

  predicate Enabled(s: Machine, a: Action) {
    match a
    case CancelParent(done) => s.parent.None? && ContextErr(done.err)
    case Propagate => s.parent.Some? && s.attempt.None? && s.beat != Off
    case Look => s.phase.Top?
    case CallClaim => s.phase.Looked?
    case ReplyClaim(_, _) => s.phase.Claiming?
    case Poll(elapsed) => s.phase.Polling? && (elapsed || s.parent.Some?)
    case StartHandler => s.phase.Starting?
    case EndHandler(_) => s.phase.Handling?
    case CloseStop => s.phase.Closing?
    case CancelAttempt => s.phase.Canceling?
    case Join => s.phase.Joining? && s.beat.Sent?
    case Check => s.phase.Checking?
    case CallAck => s.phase.Ready?
    case ReplyAck(_, _) => s.phase.Acking?
    case Tick => s.beat.Waiting?
    case ReplyBeat(_) => s.beat.Calling?
    case SeeStop => s.beat.Waiting? && s.stop
    case SeeDone => s.beat.Waiting? && s.attempt.Some?
    case CancelCause => s.beat.Ending?
    case Send => s.beat.Sending?
  }

  /** Claim's answer. */
  function AfterClaim(c: Config, s: Machine, job: Job, err: Option<Err>): Machine {
    if Is(err, ErrCommitOutcomeUnknown) then
      End(s, if job.id != [] then ClaimReconciliation(job, err.value) else Plain(err.value))
    else if Is(err, ErrNoJob) then s.(phase := Polling)
    else if err.Some? then End(s, Plain(err.value))
    else if !ValidClaimed(c, job) then End(s, Plain({ErrInvalid}))
    else s.(phase := Starting, job := job, attempt := None, stop := false, beat := Waiting)
  }

  /** The heartbeat's context error is only the attempt's own end. */
  predicate StoppedAfterHandler(heartbeatErr: Option<Err>, attempt: Option<Done>) {
    Is(heartbeatErr, CtxCanceled) && attempt.Some? && HandlerFinished in attempt.value.cause
  }

  /** What runAttempt decides once the heartbeat has been joined. */
  function AfterJoin(c: Config, s: Machine, end: HandlerEnd, heartbeatErr: Option<Err>): Machine {
    if Is(heartbeatErr, ErrCommitOutcomeUnknown) then End(s, LeaseReconciliation(s.job, s.job.lease, heartbeatErr.value))
    else if s.parent.Some? then End(s, Plain(s.parent.value.err))
    else
      var s := Emit(s, ParentAlive);
      if heartbeatErr.Some? && !StoppedAfterHandler(heartbeatErr, s.attempt) then
        if Is(heartbeatErr, ErrCanceled) then s.(phase := Top) else End(s, Plain(heartbeatErr.value))
      else
        var ack := AckFor(c, s.job, end);
        if ack.None? then End(s, Plain({ErrInvalid})) else s.(phase := Ready(ack.value))
  }

  /** Complete's or Fail's answer. */
  function AfterAck(s: Machine, job: Job, err: Option<Err>): Machine {
    if Is(err, ErrCommitOutcomeUnknown) then End(s, LeaseReconciliation(job, s.job.lease, err.value))
    else if Is(err, ErrCanceled) || err.None? then s.(phase := Top)
    else End(s, Plain(err.value))
  }

  function Do(c: Config, s: Machine, a: Action): Machine
    requires Enabled(s, a)
  {
    match a
    case CancelParent(done) => Emit(s.(parent := Some(done)), ParentEnded(done.err, done.cause))
    case Propagate => CancelWith(s, s.parent.value)
    case Look => if s.parent.Some? then End(s, Plain(s.parent.value.err)) else Emit(s.(phase := Looked), ParentAlive)
    case CallClaim => Emit(s.(phase := Claiming), ClaimCalled(ClaimRequest(c.queue, c.workerID, c.lease)))
    case ReplyClaim(job, err) => AfterClaim(c, Emit(s, ClaimReplied(job, err)), job, err)
    case Poll(elapsed) => if elapsed then Emit(s.(phase := Top), Waited) else End(s, Plain(s.parent.value.err))
    case StartHandler => Emit(s.(phase := Handling), HandlerCalled(s.job))
    case EndHandler(end) => Emit(s.(phase := Closing(end)), HandlerEnded(s.job, end))
    case CloseStop => s.(phase := Canceling(s.phase.end), stop := true)
    case CancelAttempt => CancelWith(s.(phase := Joining(s.phase.end)), Done({CtxCanceled}, {HandlerFinished}))
    case Join => s.(phase := Checking(s.phase.end, s.beat.err), beat := Off)
    case Check => AfterJoin(c, s, s.phase.end, s.phase.heartbeatErr)
    case CallAck => Emit(s.(phase := Acking), AckCalled(s.phase.ack))
    case ReplyAck(job, err) => AfterAck(Emit(s, AckReplied(job, err)), job, err)
    case Tick => Emit(s.(beat := Calling), BeatCalled(s.job.lease, c.lease))
    case ReplyBeat(err) => Emit(s.(beat := if err.Some? then Ending(err) else Waiting), BeatReplied(err))
    case SeeStop => s.(beat := Ending(None))
    case SeeDone => s.(beat := Ending(Some(s.attempt.value.err)))
    case CancelCause =>
      var s' := s.(beat := Sending(s.beat.err));
      if s.beat.err.Some? then CancelWith(s', Done({CtxCanceled}, s.beat.err.value)) else s'
    case Send => s.(beat := Sent(s.beat.err))
  }

  function MachineAfter(c: Config, acts: seq<Action>): Option<Machine> {
    if acts == [] then Some(Start(c))
    else
      var before := MachineAfter(c, acts[..|acts| - 1]);
      if before.None? || !Enabled(before.value, acts[|acts| - 1]) then None else Some(Do(c, before.value, acts[|acts| - 1]))
  }

  // ----- Contexts and progress -----

  predicate InAttempt(p: Phase) { p.Starting? || p.Handling? || p.Closing? || p.Canceling? || p.Joining? }

  /** The heartbeat goroutine lives exactly from the accepted claim to the join. */
  predicate Shape(s: Machine) {
    && (s.beat != Off <==> InAttempt(s.phase))
    && (s.parent.Some? ==> ContextErr(s.parent.value.err))
    && (s.attempt.Some? ==> ContextErr(s.attempt.value.err))
    && (s.phase.Canceling? || s.phase.Joining? ==> s.stop)
    && (s.phase.Joining? || s.phase.Checking? ==> s.attempt.Some?)
  }

  predicate Beats(a: Action) { a.Tick? || a.ReplyBeat? || a.SeeStop? || a.SeeDone? || a.CancelCause? || a.Send? }

  lemma BeatShape(c: Config, s: Machine, a: Action)
    requires Shape(s) && Enabled(s, a) && Beats(a)
    ensures Shape(Do(c, s, a))
  {
  }

  /** The main loop has an answer or the joined heartbeat to act on. */
  predicate Decides(a: Action) { a.ReplyClaim? || a.Check? || a.ReplyAck? }

  lemma DecisionShape(c: Config, s: Machine, a: Action)
    requires Shape(s) && Enabled(s, a) && Decides(a)
    ensures Shape(Do(c, s, a))
  {
  }

  lemma OtherShape(c: Config, s: Machine, a: Action)
    requires Shape(s) && Enabled(s, a) && !Beats(a) && !Decides(a)
    ensures Shape(Do(c, s, a))
  {
  }

  lemma ShapeStep(c: Config, s: Machine, a: Action)
    requires Shape(s) && Enabled(s, a)
    ensures Shape(Do(c, s, a))
  {
    if Beats(a) {
      BeatShape(c, s, a);
    } else if Decides(a) {
      DecisionShape(c, s, a);
    } else {
      OtherShape(c, s, a);
    }
  }

  lemma {:induction false} AlwaysShaped(c: Config, acts: seq<Action>)
    requires MachineAfter(c, acts).Some?
    ensures Shape(MachineAfter(c, acts).value)
  {
    if acts != [] {
      AlwaysShaped(c, acts[..|acts| - 1]);
      ShapeStep(c, MachineAfter(c, acts[..|acts| - 1]).value, acts[|acts| - 1]);
    }
  }

  /** Until Run returns there is always a next step that needs neither a timer nor the parent's
      cancellation, except while polling. A pending store call or handler counts as able to end. */
  lemma NeverStuck(c: Config, acts: seq<Action>, s: Machine) returns (a: Action)
    requires MachineAfter(c, acts) == Some(s) && !s.phase.Stopped?
    ensures Enabled(s, a) && !a.CancelParent? && !a.Tick? && (a.Poll? ==> s.phase.Polling?)
  {
    AlwaysShaped(c, acts);
    match s.phase
    case Top => a := Look;
    case Looked => a := CallClaim;
    case Claiming => a := ReplyClaim(ZERO_JOB, None);
    case Polling => a := Poll(true);
    case Starting => a := StartHandler;
    case Handling => a := EndHandler(Panics);
    case Closing(_) => a := CloseStop;
    case Canceling(_) => a := CancelAttempt;
    case Joining(_) =>
      a := match s.beat
        case Calling => ReplyBeat(None)
        case Ending(_) => CancelCause
        case Sending(_) => Send
        case Sent(_) => Join
        case _ => SeeStop;
    case Checking(_, _) => a := Check;
    case Ready(_) => a := CallAck;
    case Acking => a := ReplyAck(ZERO_JOB, None);
  }

  // ----- The join -----

  predicate Joins(p: Phase) { p.Closing? || p.Canceling? || p.Joining? }

  /** How many steps the end of an attempt can still take before the heartbeat is joined. */
  function Distance(s: Machine): (d: nat)
    ensures d <= 10
  {
    (match s.phase case Closing(_) => 3 case Canceling(_) => 2 case Joining(_) => 1 case _ => 0)
    + (match s.beat case Calling => 5 case Waiting => 4 case Ending(_) => 3 case Sending(_) => 2 case Sent(_) => 1 case Off => 0)
    + (if s.parent.None? then 1 else 0) + (if s.attempt.None? then 1 else 0)
  }

  function Ticks(acts: seq<Action>): nat {
    if acts == [] then 0 else Ticks(acts[..|acts| - 1]) + if acts[|acts| - 1].Tick? then 1 else 0
  }

  lemma CloserToJoin(c: Config, s: Machine, a: Action)
    requires Joins(s.phase) && Enabled(s, a)
    ensures Distance(Do(c, s, a)) < Distance(s) + if a.Tick? then 2 else 0
  {
  }

  /** The join is reached: once the handler has ended, the machine, its store call and its environment
      take at most ten steps before the heartbeat is joined, and two more for every tick that still
      starts a heartbeat; and as NeverStuck shows, a step other than a tick is always there to be taken. */
  lemma {:induction false} JoinIsReached(c: Config, acts: seq<Action>, more: seq<Action>)
    requires MachineAfter(c, acts + more).Some?
    requires forall n :: 0 <= n <= |more| ==> MachineAfter(c, acts + more[..n]).Some? && Joins(MachineAfter(c, acts + more[..n]).value.phase)
    ensures |more| + Distance(MachineAfter(c, acts + more).value) <= 10 + 2 * Ticks(more)
    decreases |more|
  {
    if more != [] {
      var less := more[..|more| - 1];
      assert more[..|more| - 1] == less;
      assert (acts + more)[..|acts + more| - 1] == acts + less;
      forall n | 0 <= n <= |less| ensures MachineAfter(c, acts + less[..n]).Some? && Joins(MachineAfter(c, acts + less[..n]).value.phase) {
        assert less[..n] == more[..n];
      }
      JoinIsReached(c, acts, less);
      CloserToJoin(c, MachineAfter(c, acts + less).value, more[|more| - 1]);
    }
  }
}
