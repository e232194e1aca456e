/** Any number of Workers over one job table. A store call is answered according to what its transaction
    did: it commits one event of the state machine or none, possibly after its client gave up on it. */
module Fleet {
  import opened Base
  import opened Errors
  import opened Values
  import opened Rows
  import L = Lifecycle
  import W = Workers
  import P = WorkerProtocol
  import F = Fencing
  import Stored

  /** A store call of a worker, and the position in the table's run of the event that it committed. */
  datatype Slot = Slot(call: W.Event, served: Option<nat>)

  /** A call whose outcome the worker was told is unknown, and that may still commit. */
  datatype Orphan = Orphan(worker: nat, call: W.Event)

  datatype System = System(configs: seq<W.Config>, machines: seq<W.Machine>, slots: seq<Option<Slot>>,
                           orphans: set<Orphan>, table: L.Trace)

  datatype Action =
    | Step(worker: nat, action: W.Action)
    | Serve(worker: nat, event: L.Event)
    | Late(orphan: Orphan, event: L.Event)
    | World(event: L.Event)  // other clients: they enqueue, cancel, redrive and delete

  function Start(configs: seq<W.Config>): System {
    System(configs, seq(|configs|, w requires 0 <= w < |configs| => W.Start(configs[w])), seq(|configs|, w => None), {}, [])
  }

  /** The event is the call's statement. */
  predicate Fits(call: W.Event, e: L.Event) {
    match call
    case ClaimCalled(r) => e.Claim? && e.queue == r.queue && e.worker == r.worker && e.lease == r.lease / MICROSECOND
    case BeatCalled(lease, duration) => e == L.Event.Heartbeat(e.at, lease.jobID, lease.token, duration / MICROSECOND)
    case AckCalled(Complete(lease)) => e == L.Event.Complete(e.at, lease.jobID, lease.token)
    case AckCalled(Fail(lease, f)) =>
      e == L.Event.Fail(e.at, lease.jobID, lease.token, f.message, f.retryAfter / MICROSECOND, f.permanent)
    case _ => false
  }

  /** The statement runs now; a refused lease operation rolls back instead. */
  predicate CanCommit(table: L.Trace, e: L.Event) {
    L.Follows(table, e) && (L.LeaseUse(e) ==> L.Accepted(L.After(table), e))
  }

  /** The claim at position i returned this job. */
  predicate Delivered(table: L.Trace, i: nat, job: Job) {
    && i < |table| && table[i].Claim? && table[i].got.Some?
    && table[i].got.value in L.After(table[..i + 1]) && job == JobOf(L.After(table[..i + 1])[table[i].got.value])
  }

  predicate Unknown(err: Option<Err>) { Is(err, ErrCommitOutcomeUnknown) }

  /** The answers that PostgreSQL may give: no error means a commit, an error without the unknown
      outcome means none, except that ErrNoJob reports a committed claim that found nothing. */
  predicate Answers(table: L.Trace, served: Option<nat>, a: W.Action) {
    match a
    case ReplyClaim(job, err) =>
      && (err.None? ==> served.Some? && Delivered(table, served.value, job))
      && (err.Some? && !Unknown(err) ==>
            if served.Some? then served.value < |table| && table[served.value].Claim? && table[served.value].got.None? && ErrNoJob in err.value
            else ErrNoJob !in err.value)
    case ReplyBeat(err) => (err.None? ==> served.Some?) && (served.Some? ==> err.None? || Unknown(err))
    case ReplyAck(_, err) => (err.None? ==> served.Some?) && (served.Some? ==> err.None? || Unknown(err))
    case _ => true
  }

  predicate Calls(a: W.Action) { a.CallClaim? || a.Tick? || a.CallAck? }

  predicate Replies(a: W.Action) { a.ReplyClaim? || a.ReplyBeat? || a.ReplyAck? }

  predicate Sized(f: System) { |f.machines| == |f.configs| && |f.slots| == |f.configs| }

  predicate Enabled(f: System, a: Action)
    requires Sized(f)
  {
    match a
    case Step(w, action) =>
      && w < |f.machines| && W.Enabled(f.machines[w], action)
      && (Replies(action) ==> f.slots[w].Some? && Answers(f.table, f.slots[w].value.served, action))
    case Serve(w, e) =>
      w < |f.slots| && f.slots[w].Some? && f.slots[w].value.served.None? && Fits(f.slots[w].value.call, e) && CanCommit(f.table, e)
    case Late(o, e) => o in f.orphans && Fits(o.call, e) && CanCommit(f.table, e)
    case World(e) => !e.Claim? && !L.LeaseUse(e) && CanCommit(f.table, e)
  }

  function SlotAfter(f: System, w: nat, action: W.Action): Option<Slot>
    requires Sized(f) && w < |f.machines| && W.Enabled(f.machines[w], action)
  {
    if Calls(action) then Some(Slot(W.Do(f.configs[w], f.machines[w], action).log[|f.machines[w].log|], None))
    else if Replies(action) then None
    else f.slots[w]
  }

  function OrphansAfter(f: System, w: nat, action: W.Action): set<Orphan>
    requires Sized(f) && w < |f.machines| && (Replies(action) ==> f.slots[w].Some?)
  {
    if Replies(action) && Unknown(action.err) && f.slots[w].value.served.None?
    then f.orphans + {Orphan(w, f.slots[w].value.call)} else f.orphans
  }

  function Do(f: System, a: Action): System
    requires Sized(f) && Enabled(f, a)
  {
    match a
    case Step(w, action) =>
      f.(machines := f.machines[w := W.Do(f.configs[w], f.machines[w], action)], slots := f.slots[w := SlotAfter(f, w, action)],
         orphans := OrphansAfter(f, w, action))
    case Serve(w, e) => f.(table := f.table + [e], slots := f.slots[w := Some(f.slots[w].value.(served := Some(|f.table|)))])
    case Late(o, e) => f.(table := f.table + [e], orphans := f.orphans - {o})
    case World(e) => f.(table := f.table + [e])
  }

  function SystemAfter(configs: seq<W.Config>, acts: seq<Action>): (r: Option<System>)
    ensures r.Some? ==> Sized(r.value) && r.value.configs == configs
  {
    if acts == [] then Some(Start(configs))
    else
      var before := SystemAfter(configs, acts[..|acts| - 1]);
      if before.None? || !Enabled(before.value, acts[|acts| - 1]) then None else Some(Do(before.value, acts[|acts| - 1]))
  }

  // ----- Invariant -----

  predicate Goods(f: System)
    requires Sized(f)
  {
    forall w :: 0 <= w < |f.machines| ==> P.Good(f.configs[w], f.machines[w])
  }

  predicate Made(f: System, w: nat, call: W.Event) { w < |f.machines| && call in f.machines[w].log }

  /** The event was committed for a call that some worker made. */
  ghost predicate HasCaller(f: System, e: L.Event) { exists w, call :: Made(f, w, call) && Fits(call, e) }

  ghost predicate Sources(f: System) {
    forall i :: 0 <= i < |f.table| && (f.table[i].Claim? || L.LeaseUse(f.table[i])) ==> HasCaller(f, f.table[i])
  }

  predicate SlotOk(f: System, w: nat)
    requires Sized(f) && w < |f.slots|
  {
    f.slots[w].Some? ==>
      && Made(f, w, f.slots[w].value.call)
      && (f.slots[w].value.served.Some? ==> f.slots[w].value.served.value < |f.table|)
  }

  predicate Requests(f: System)
    requires Sized(f)
  {
    && (forall w :: 0 <= w < |f.slots| ==> SlotOk(f, w))
    && (forall o :: o in f.orphans ==> Made(f, o.worker, o.call))
  }

  ghost predicate HasClaim(table: L.Trace, job: Job) { exists i :: Delivered(table, i, job) }

  /** Position k of the worker's log hands this job to the worker. */
  predicate Handed(f: System, w: nat, k: nat, job: Job) {
    w < |f.machines| && k < |f.machines[w].log| && f.machines[w].log[k] == W.ClaimReplied(job, None)
  }

  ghost predicate Deliveries(f: System) {
    forall w: nat, k: nat, job :: Handed(f, w, k, job) ==> HasClaim(f.table, job)
  }

  /** A claimed event that waits to be delivered. */
  predicate Waits(f: System, w: nat, i: nat)
    requires Sized(f)
  {
    w < |f.slots| && f.slots[w].Some? && f.slots[w].value.served == Some(i)
  }

  /** Every committed claim is delivered at most once. */
  ghost predicate Unique(f: System)
    requires Sized(f)
  {
    && (forall w: nat, w': nat, i: nat :: Waits(f, w, i) && Waits(f, w', i) ==> w == w')
    && (forall w: nat, i: nat, w': nat, k: nat, job :: Waits(f, w, i) && Handed(f, w', k, job) ==> !Delivered(f.table, i, job))
    && (forall w: nat, k: nat, job, w': nat, k': nat, job' ::
          Handed(f, w, k, job) && Handed(f, w', k', job') && job.lease.token == job'.lease.token ==> w == w' && k == k')
  }

  ghost predicate Inv(f: System) {
    Sized(f) && Goods(f) && Sources(f) && Requests(f) && Deliveries(f) && Unique(f) && L.Valid(f.table)
  }

  // ----- Facts about claims -----

  /** A delivered job carries the claim's own lease. */
  lemma DeliveredLease(table: L.Trace, i: nat, job: Job)
    requires L.Valid(table) && Delivered(table, i, job)
    ensures job.lease == Lease(table[i].got.value, table[i].token) && job.id == table[i].got.value
    ensures F.Issued(table, i, job.id, job.lease.token)
  {
    var id := table[i].got.value;
    L.StepAt(table, i);
    L.PickedAt(table, i);
    L.RowStep(L.Before(table, i), table[i], id);
    L.ValidPrefix(table, i + 1);
    Stored.RowsReadable(table[..i + 1], id);
  }

  /** The token names the claim. */
  lemma SameTokenSameClaim(table: L.Trace, i: nat, job: Job, i': nat, job': Job)
    requires L.Valid(table) && Delivered(table, i, job) && Delivered(table, i', job')
    ensures job.lease.token == job'.lease.token <==> i == i'
  {
    DeliveredLease(table, i, job);
    DeliveredLease(table, i', job');
    if i < i' {
      L.TokenFresh(table, i, i');
    } else if i' < i {
      L.TokenFresh(table, i', i);
    }
  }

  lemma DeliveredStays(table: L.Trace, e: L.Event, i: nat, job: Job)
    ensures Delivered(table, i, job) ==> Delivered(table + [e], i, job)
    ensures i < |table| ==> (Delivered(table, i, job) <==> Delivered(table + [e], i, job))
  {
    if i < |table| {
      assert (table + [e])[..i + 1] == table[..i + 1];
    }
  }

  // ----- Steps of the table -----

  lemma TableSources(f: System, f': System, e: L.Event)
    requires Sources(f) && f'.machines == f.machines && f'.table == f.table + [e]
    requires e.Claim? || L.LeaseUse(e) ==> HasCaller(f, e)
    ensures Sources(f')
  {
    forall i | 0 <= i < |f'.table| && (f'.table[i].Claim? || L.LeaseUse(f'.table[i])) ensures HasCaller(f', f'.table[i]) {
      assert i < |f.table| ==> HasCaller(f, f.table[i]);
      var w, call :| Made(f, w, call) && Fits(call, f'.table[i]);
      assert Made(f', w, call);
    }
  }

  lemma TableDeliveries(f: System, f': System, e: L.Event)
    requires Deliveries(f) && f'.machines == f.machines && f'.table == f.table + [e]
    ensures Deliveries(f')
  {
    forall w: nat, k: nat, job | Handed(f', w, k, job) ensures HasClaim(f'.table, job) {
      assert Handed(f, w, k, job);
      var i :| Delivered(f.table, i, job);
      DeliveredStays(f.table, e, i, job);
    }
  }

  /** Positions that wait after the event waited before, or are the event's own, for worker own only. */
  lemma TableUnique(f: System, f': System, e: L.Event, own: nat)
    requires Sized(f) && Sized(f') && L.Valid(f.table) && L.Follows(f.table, e)
    requires Requests(f) && Deliveries(f) && Unique(f)
    requires f'.machines == f.machines && f'.table == f.table + [e]
    requires forall w: nat, i: nat :: Waits(f', w, i) ==> Waits(f, w, i) || (w == own && i == |f.table|)
    ensures Unique(f')
  {
    forall w: nat, i: nat, w': nat | Waits(f', w, i) && Waits(f', w', i) ensures w == w' {
      assert Waits(f, w, i) ==> SlotOk(f, w);
      assert Waits(f, w', i) ==> SlotOk(f, w');
    }
    forall w: nat, i: nat, w': nat, k: nat, job | Waits(f', w, i) && Handed(f', w', k, job) ensures !Delivered(f'.table, i, job) {
      assert Handed(f, w', k, job);
      if i == |f.table| {
        var i0 :| Delivered(f.table, i0, job);
        NewClaimIsNew(f.table, e, i0, job);
      } else {
        assert Waits(f, w, i) && SlotOk(f, w);
        DeliveredStays(f.table, e, i, job);
      }
    }
    forall w: nat, k: nat, job, w': nat, k': nat, job' |
      Handed(f', w, k, job) && Handed(f', w', k', job') && job.lease.token == job'.lease.token
      ensures w == w' && k == k'
    {
      assert Handed(f, w, k, job) && Handed(f, w', k', job');
    }
  }

  lemma NewClaimIsNew(table: L.Trace, e: L.Event, i: nat, job: Job)
    requires L.Valid(table) && L.Follows(table, e) && Delivered(table, i, job)
    ensures !Delivered(table + [e], |table|, job)
  {
    L.ValidExtends(table, e);
    DeliveredStays(table, e, i, job);
    if Delivered(table + [e], |table|, job) {
      SameTokenSameClaim(table + [e], i, job, |table|, job);
    }
  }

  lemma TableStep(f: System, f': System, e: L.Event, own: nat)
    requires Inv(f) && L.Follows(f.table, e) && Sized(f') && Requests(f')
    requires f'.machines == f.machines && f'.configs == f.configs && f'.table == f.table + [e]
    requires forall w: nat, i: nat :: Waits(f', w, i) ==> Waits(f, w, i) || (w == own && i == |f.table|)
    requires e.Claim? || L.LeaseUse(e) ==> HasCaller(f, e)
    ensures Inv(f')
  {
    L.ValidExtends(f.table, e);
    TableSources(f, f', e);
    TableDeliveries(f, f', e);
    TableUnique(f, f', e, own);
  }

  lemma ServeKeeps(f: System, w: nat, e: L.Event)
    requires Inv(f) && Enabled(f, Serve(w, e))
    ensures Inv(Do(f, Serve(w, e)))
  {
    assert SlotOk(f, w);
    assert HasCaller(f, e) by { assert Made(f, w, f.slots[w].value.call); }
    ServeRequests(f, w, e, Do(f, Serve(w, e)));
    TableStep(f, Do(f, Serve(w, e)), e, w);
  }

  lemma ServeRequests(f: System, w: nat, e: L.Event, f': System)
    requires Sized(f) && Requests(f) && w < |f.slots| && f.slots[w].Some?
    requires f'.machines == f.machines && f'.configs == f.configs && f'.orphans == f.orphans && f'.table == f.table + [e]
    requires f'.slots == f.slots[w := Some(f.slots[w].value.(served := Some(|f.table|)))]
    ensures Sized(f') && Requests(f')
  {
    forall v | 0 <= v < |f'.slots| ensures SlotOk(f', v) {
      assert SlotOk(f, v);
    }
  }

  lemma LateRequests(f: System, a: Action)
    requires Sized(f) && Requests(f) && Enabled(f, a) && (a.Late? || a.World?)
    ensures Requests(Do(f, a))
  {
    var f' := Do(f, a);
    forall v | 0 <= v < |f'.slots| ensures SlotOk(f', v) {
      assert SlotOk(f, v);
    }
  }

  lemma LateKeeps(f: System, a: Action)
    requires Inv(f) && Enabled(f, a) && (a.Late? || a.World?)
    ensures Inv(Do(f, a))
  {
    if a.Late? {
      assert Made(f, a.orphan.worker, a.orphan.call);
    }
    LateRequests(f, a);
    TableStep(f, Do(f, a), a.event, 0);
  }

  // ----- Steps of a worker -----

  /** Which events a step appends. */
  lemma NewEvents(c: W.Config, s: W.Machine, a: W.Action, k: nat)
    requires W.Enabled(s, a) && |s.log| <= k < |W.Do(c, s, a).log|
    ensures var e := W.Do(c, s, a).log[k];
            (e.ClaimReplied? ==> a == W.ReplyClaim(e.job, e.err) && k == |s.log|)
  {
    if W.Beats(a) {
      BeatEvents(c, s, a, k);
    }
  }

  lemma BeatEvents(c: W.Config, s: W.Machine, a: W.Action, k: nat)
    requires W.Enabled(s, a) && W.Beats(a) && |s.log| <= k < |W.Do(c, s, a).log|
    ensures !W.Do(c, s, a).log[k].ClaimReplied?
  {
  }

  lemma CallAppends(c: W.Config, s: W.Machine, a: W.Action)
    requires W.Enabled(s, a) && Calls(a)
    ensures |W.Do(c, s, a).log| == |s.log| + 1
  {
  }

  /** A worker's step leaves the logs as they were, except for appending to its own. */
  predicate Appends(f: System, w: nat, action: W.Action, f': System)
    requires Sized(f) && w < |f.machines| && W.Enabled(f.machines[w], action)
  {
    && f'.machines == f.machines[w := W.Do(f.configs[w], f.machines[w], action)]
    && f.machines[w].log <= f'.machines[w].log && f'.table == f.table && f'.configs == f.configs
    && P.Good(f.configs[w], f'.machines[w])
  }

  lemma StepAppends(f: System, w: nat, action: W.Action)
    requires Inv(f) && Enabled(f, Step(w, action))
    ensures Appends(f, w, action, Do(f, Step(w, action)))
  {
    assert P.Good(f.configs[w], f.machines[w]);
    var es := P.GoodStep(f.configs[w], f.machines[w], action);
  }

  lemma MadeStays(f: System, w: nat, action: W.Action, f': System, v: nat, call: W.Event)
    requires Sized(f) && w < |f.machines| && W.Enabled(f.machines[w], action) && Appends(f, w, action, f') && Made(f, v, call)
    ensures Made(f', v, call)
  {
  }

  lemma StepSources(f: System, w: nat, action: W.Action, f': System)
    requires Sized(f) && w < |f.machines| && W.Enabled(f.machines[w], action) && Appends(f, w, action, f') && Sources(f)
    ensures Sources(f')
  {
    forall i | 0 <= i < |f'.table| && (f'.table[i].Claim? || L.LeaseUse(f'.table[i])) ensures HasCaller(f', f'.table[i]) {
      assert HasCaller(f, f.table[i]);
      var v, call :| Made(f, v, call) && Fits(call, f.table[i]);
      MadeStays(f, w, action, f', v, call);
    }
  }

  lemma StepRequests(f: System, w: nat, action: W.Action)
    requires Inv(f) && Enabled(f, Step(w, action))
    ensures Requests(Do(f, Step(w, action)))
  {
    var f' := Do(f, Step(w, action));
    StepAppends(f, w, action);
    forall v | 0 <= v < |f'.slots| ensures SlotOk(f', v) {
      assert SlotOk(f, v);
      if v == w && Calls(action) {
        CallAppends(f.configs[w], f.machines[w], action);
      } else if f'.slots[v].Some? {
        MadeStays(f, w, action, f', v, f.slots[v].value.call);
      }
    }
    forall o | o in f'.orphans ensures Made(f', o.worker, o.call) {
      assert SlotOk(f, w);
      MadeStays(f, w, action, f', o.worker, o.call);
    }
  }

  /** A job handed out after the step was handed out before, or is the step's own delivery. */
  lemma HandedBefore(f: System, w: nat, action: W.Action, v: nat, k: nat, job: Job)
    requires Inv(f) && Enabled(f, Step(w, action)) && Handed(Do(f, Step(w, action)), v, k, job)
    ensures Handed(f, v, k, job) || (v == w && k == |f.machines[w].log| && action == W.ReplyClaim(job, None))
  {
    StepAppends(f, w, action);
    if v == w && k >= |f.machines[w].log| {
      NewEvents(f.configs[w], f.machines[w], action, k);
    }
  }

  /** The delivery of a step comes from the claim that its slot waited for. */
  lemma DeliveryIsWaiting(f: System, w: nat, job: Job)
    requires Inv(f) && Enabled(f, Step(w, W.ReplyClaim(job, None)))
    ensures f.slots[w].Some? && f.slots[w].value.served.Some? && Waits(f, w, f.slots[w].value.served.value)
    ensures Delivered(f.table, f.slots[w].value.served.value, job)
  {
  }

  lemma StepDeliveries(f: System, w: nat, action: W.Action)
    requires Inv(f) && Enabled(f, Step(w, action))
    ensures Deliveries(Do(f, Step(w, action)))
  {
    var f' := Do(f, Step(w, action));
    forall v: nat, k: nat, job | Handed(f', v, k, job) ensures HasClaim(f'.table, job) {
      HandedBefore(f, w, action, v, k, job);
      if !Handed(f, v, k, job) {
        DeliveryIsWaiting(f, w, job);
      }
    }
  }

  lemma WaitedBefore(f: System, w: nat, action: W.Action, v: nat, i: nat)
    requires Inv(f) && Enabled(f, Step(w, action)) && Waits(Do(f, Step(w, action)), v, i)
    ensures Waits(f, v, i) && (v == w ==> !Replies(action))
  {
  }

  /** Two different deliveries after a step carry different tokens. */
  lemma HandedApart(f: System, w: nat, action: W.Action, v: nat, k: nat, job: Job, v': nat, k': nat, job': Job)
    requires Inv(f) && Enabled(f, Step(w, action))
    requires Handed(Do(f, Step(w, action)), v, k, job) && Handed(f, v', k', job')
    requires job.lease.token == job'.lease.token
    ensures v == v' && k == k'
  {
    HandedBefore(f, w, action, v, k, job);
    if !Handed(f, v, k, job) {
      DeliveryIsWaiting(f, w, job);
      var i := f.slots[w].value.served.value;
      var i' :| Delivered(f.table, i', job');
      SameTokenSameClaim(f.table, i, job, i', job');
    }
  }

  lemma StepUnique(f: System, w: nat, action: W.Action)
    requires Inv(f) && Enabled(f, Step(w, action))
    ensures Unique(Do(f, Step(w, action)))
  {
    var f' := Do(f, Step(w, action));
    forall v: nat, v': nat, i: nat | Waits(f', v, i) && Waits(f', v', i) ensures v == v' {
      WaitedBefore(f, w, action, v, i);
      WaitedBefore(f, w, action, v', i);
    }
    forall v: nat, i: nat, v': nat, k: nat, job | Waits(f', v, i) && Handed(f', v', k, job) ensures !Delivered(f'.table, i, job) {
      WaitedBefore(f, w, action, v, i);
      HandedBefore(f, w, action, v', k, job);
      if !Handed(f, v', k, job) {
        DeliveryIsWaiting(f, w, job);
        if Delivered(f.table, i, job) {
          SameTokenSameClaim(f.table, i, job, f.slots[w].value.served.value, job);
        }
      }
    }
    forall v: nat, k: nat, job, v': nat, k': nat, job' |
      Handed(f', v, k, job) && Handed(f', v', k', job') && job.lease.token == job'.lease.token
      ensures v == v' && k == k'
    {
      HandedBefore(f, w, action, v, k, job);
      HandedBefore(f, w, action, v', k', job');
      if Handed(f, v', k', job') {
        HandedApart(f, w, action, v, k, job, v', k', job');
      } else if Handed(f, v, k, job) {
        HandedApart(f, w, action, v', k', job', v, k, job);
      }
    }
  }

  lemma StepKeeps(f: System, w: nat, action: W.Action)
    requires Inv(f) && Enabled(f, Step(w, action))
    ensures Inv(Do(f, Step(w, action)))
  {
    StepAppends(f, w, action);
    StepSources(f, w, action, Do(f, Step(w, action)));
    StepRequests(f, w, action);
    StepDeliveries(f, w, action);
    StepUnique(f, w, action);
  }

  lemma InvStep(f: System, a: Action)
    requires Inv(f) && Enabled(f, a)
    ensures Inv(Do(f, a))
  {
    match a
    case Step(w, action) => StepKeeps(f, w, action);
    case Serve(w, e) => ServeKeeps(f, w, e);
    case _ => LateKeeps(f, a);
  }

  lemma {:induction false} Reachable(configs: seq<W.Config>, acts: seq<Action>)
    requires SystemAfter(configs, acts).Some?
    ensures Inv(SystemAfter(configs, acts).value)
  {
    if acts == [] {
      StartInv(configs);
    } else {
      Reachable(configs, acts[..|acts| - 1]);
      InvStep(SystemAfter(configs, acts[..|acts| - 1]).value, acts[|acts| - 1]);
    }
  }

  lemma NothingHandedYet(configs: seq<W.Config>, w: nat, k: nat, job: Job)
    ensures !Handed(Start(configs), w, k, job)
  {
    if w < |configs| {
      assert Start(configs).machines[w] == W.Start(configs[w]);
      assert forall e :: e in W.Start(configs[w]).log ==> e.RunEnded?;
    }
  }

  lemma StartUnique(configs: seq<W.Config>)
    ensures Deliveries(Start(configs)) && Unique(Start(configs))
  {
    forall w: nat, k: nat, job ensures !Handed(Start(configs), w, k, job) {
      NothingHandedYet(configs, w, k, job);
    }
    forall w: nat, i: nat ensures !Waits(Start(configs), w, i) {
    }
  }

  lemma StartInv(configs: seq<W.Config>)
    ensures Inv(Start(configs))
  {
    forall w | 0 <= w < |configs| ensures P.Good(configs[w], W.Start(configs[w])) {
      P.StartIsGood(configs[w]);
    }
    StartUnique(configs);
  }
}
