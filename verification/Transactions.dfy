/** Concurrent transactions over the job table: statements run under row locks that last to the end
    of their transaction, and commits may be applied without the client learning of it. Every such
    interleaving is a run of the atomic events of Lifecycle. */
module Transactions {
  import opened Base
  import opened Errors
  import opened Values
  import opened Rows
  import opened Lifecycle

  /** One executed statement of one transaction. */
  datatype Exec = Exec(tid: nat, event: Event)

  /** What the client of a transaction was told at its end: success, an error, an unknown outcome, or the
      answer of a transaction that changed no row. */
  datatype Reply = Succeeds | Errs | InDoubt | Returned(job: Job) | Rejected(id: Bytes, sentinel: Sentinel)

  /** A transaction that has changed no row and is not done: an enqueue whose INSERT met a conflict, before
      its fallback SELECT, in it, and with the found row locked FOR KEY SHARE; or an operation whose UPDATE
      changed no row and that is about to read why. */
  datatype Reader =
    | Waiting(request: EnqueueRequest, fingerprint: Bytes)
    | Looking(request: EnqueueRequest, fingerprint: Bytes, seen: Option<Bytes>)
    | Sharing(request: EnqueueRequest, fingerprint: Bytes, id: Bytes, row: Row)
    | Refused(event: Event)

  /** `rows` is the committed table. `versions` holds the uncommitted row versions (None for a
      deletion) and `locks` the transactions that hold them. */
  datatype Sys = Sys(
    rows: Table, clock: int, log: seq<Exec>, committed: set<nat>, open: set<nat>,
    locks: map<Bytes, nat>, versions: map<Bytes, Option<Row>>, readers: map<nat, Reader>, replies: map<nat, Reply>)

  datatype Action =
    | Tick(now: int)
    | Run(tid: nat, event: Event)
    | Commit(tid: nat, told: bool)
    | Abort(tid: nat, told: bool)
    | Doubt(tid: nat)
    | Conflict(tid: nat, request: EnqueueRequest, fingerprint: Bytes)
    | Snapshot(tid: nat, seen: Option<Bytes>)
    | Fallback(tid: nat)
    | Refuse(tid: nat, event: Event)
    | Answer(tid: nat, told: bool)
    | GiveUp(tid: nat)

  function Start(now: int): Sys {
    Sys(map[], now, [], {}, {}, map[], map[], map[], map[])
  }

  // ----- Statements -----

  /** The rows that the statement writes and keeps locked. */
  function Footprint(e: Event): set<Bytes> {
    match e
    case Claim(_, _, _, _, _, _, reaped, got) => reaped + (if got.Some? then {got.value} else {})
    case _ => {e.id}
  }

  /** An uncommitted row already carries the unique key: an insertion of that key has to wait. */
  predicate KeyPending(s: Sys, queue: Bytes, key: Bytes) {
    exists id :: id in s.versions && s.versions[id].Some?
                 && s.versions[id].value.queue == queue && s.versions[id].value.key == Some(key)
  }

  predicate KeyLeaving(s: Sys, queue: Bytes, key: Bytes) {
    exists id :: id in s.versions && s.versions[id].None? && id in s.rows
                 && s.rows[id].queue == queue && s.rows[id].key == Some(key)
  }

  /** The rows that fallbacks hold FOR KEY SHARE. */
  function Shared(s: Sys): set<Bytes> { set t | t in s.readers && s.readers[t].Sharing? :: s.readers[t].id }

  /** The statement is not held up by a lock. A claim skips every row that is locked in any mode, here or
      by transactions outside the library; everything else would wait, except that a plain update does not
      conflict with a key share. A claim locks its rows FOR UPDATE, so that a fallback which meets an
      uncommitted claim waits for it; the model lets it go on, which only adds interleavings. */
  predicate Unblocked(s: Sys, e: Event) {
    match e
    case Claim(_, _, _, _, _, skip, _, _) => s.locks.Keys + Shared(s) <= skip
    case Insert(_, id, request, _) => id !in s.locks && !KeyPending(s, request.queue, request.key)
    case Purge(_, id) => id !in s.locks && id !in Shared(s)
    case _ => e.id !in s.locks
  }

  /** The statement finds its row. An update whose condition fails on the committed version of its row
      finds none, at once and whatever the locks: it does not wait for an uncommitted version. */
  predicate Effective(rows: Table, e: Event) {
    e.Claim? || e.Insert? || (e.id in rows && (e.Purge? || Hits(e.id, rows[e.id], e)))
  }

  function Events(log: seq<Exec>): Trace { seq(|log|, i requires 0 <= i < |log| => log[i].event) }

  predicate NewTid(s: Sys, tid: nat) {
    && (forall i :: 0 <= i < |s.log| ==> s.log[i].tid != tid)
    && tid !in s.open && tid !in s.committed && tid !in s.readers && tid !in s.replies
  }

  predicate CanRun(s: Sys, tid: nat, e: Event) {
    && NewTid(s, tid)
    && e.at == s.clock && Admissible(e)
    && (e.Claim? ==> e.token !in Tokens(Events(s.log)))
    && (e.Insert? ==> e.id !in InsertedIds(Events(s.log)))
    && Unblocked(s, e) && Guard(s.rows, e) && Effective(s.rows, e)
  }

  function VersionAfter(rows: Table, e: Event, id: Bytes): Option<Row> {
    if id in Next(rows, e) then Some(Next(rows, e)[id]) else None
  }

  predicate Enabled(s: Sys, a: Action) {
    match a
    case Tick(now) => s.clock <= now
    case Run(tid, e) => CanRun(s, tid, e)
    case Commit(tid, _) => tid in s.open
    case Abort(tid, _) => tid in s.open
    case Doubt(tid) => tid in s.open && tid !in s.replies
    case Conflict(tid, request, _) =>
      && NewTid(s, tid) && ValidEnqueue(request) && request.key != []
      && KeyTaken(s.rows, request.queue, request.key) && !KeyLeaving(s, request.queue, request.key)
    case Snapshot(tid, seen) => tid in s.readers && s.readers[tid].Waiting? && Sees(s.rows, s.readers[tid], seen)
    case Fallback(tid) => tid in s.readers && s.readers[tid].Looking? && !Leaving(s, s.readers[tid].seen)
    case Refuse(tid, e) =>
      NewTid(s, tid) && e.at == s.clock && Admissible(e) && (LeaseUse(e) || e.Cancel? || e.Redrive?) && !Effective(s.rows, e)
    case Answer(tid, _) => tid in s.readers && HasAnswer(s.readers[tid])
    case GiveUp(tid) => tid in s.readers
  }

  /** What a snapshot of the committed table shows under the key of the request. */
  predicate Sees(rows: Table, r: Reader, seen: Option<Bytes>)
    requires r.Waiting?
  {
    if seen.Some? then HoldsKey(rows, seen.value, r.request.queue, r.request.key)
    else !KeyTaken(rows, r.request.queue, r.request.key)
  }

  /** The row is being deleted: whoever wants to lock it has to wait. */
  predicate Leaving(s: Sys, id: Option<Bytes>) { id.Some? && id.value in s.versions && s.versions[id.value].None? }

  predicate HasQueueKey(r: Row, queue: Bytes, key: Bytes) { r.queue == queue && r.key == Some(key) }

  predicate HoldsKey(rows: Table, id: Bytes, queue: Bytes, key: Bytes) { id in rows && HasQueueKey(rows[id], queue, key) }

  /** The fallback finds the row of its snapshot in its present version, or nothing if that row has been
      deleted meanwhile, even if another row has taken over the key. */
  function Found(s: Sys, seen: Option<Bytes>): Option<Row> {
    if seen.Some? && seen.value in s.rows then Some(s.rows[seen.value]) else None
  }

  /** The answer to a refused update, from a second look at the table. */
  function AnswerToRefused(rows: Table, e: Event): Reply
    requires LeaseUse(e) || e.Cancel? || e.Redrive?
  {
    if LeaseUse(e) then Rejected(e.id, Classify(rows, e.id))
    else if e.id !in rows then Rejected(e.id, ErrNotFound)
    else if e.Cancel? && rows[e.id].state == Canceled then Returned(JobOf(rows[e.id]))
    else Rejected(e.id, ErrStateConflict)
  }

  predicate HasAnswer(r: Reader) { r.Sharing? || (r.Refused? && (LeaseUse(r.event) || r.event.Cancel? || r.event.Redrive?)) }

  /** The answer of a transaction that changed no row. */
  function AnswerOf(rows: Table, r: Reader): Reply
    requires HasAnswer(r)
  {
    if r.Refused? then AnswerToRefused(rows, r.event)
    else if r.row.fingerprint == r.fingerprint then Returned(JobOf(r.row))
    else Rejected(r.id, ErrIdempotencyConflict)
  }

  /** An error of the body is always told; a commit may fail to be. */
  function ReplyFor(told: bool, reply: Reply): Reply { if told || reply.Rejected? then reply else InDoubt }

  /** A client is told once: one that has an unknown outcome does not learn how its commit ends later. */
  function Tell(s: Sys, tid: nat, reply: Reply): map<nat, Reply> { if tid in s.replies then s.replies else s.replies[tid := reply] }

  /** The locks and versions that remain when a transaction ends. */
  function Release<T>(s: Sys, m: map<Bytes, T>, tid: nat): map<Bytes, T>
  {
    map id | id in m && id in s.locks && s.locks[id] != tid :: m[id]
  }

  function Do(s: Sys, a: Action): Sys
    requires Enabled(s, a) && s.versions.Keys == s.locks.Keys
  {
    match a
    case Tick(now) => s.(clock := now)
    case Run(tid, e) =>
      s.(log := s.log + [Exec(tid, e)], open := s.open + {tid},
         locks := map id | id in s.locks.Keys + Footprint(e) :: if id in Footprint(e) then tid else s.locks[id],
         versions := map id | id in s.locks.Keys + Footprint(e) ::
           if id in Footprint(e) then VersionAfter(s.rows, e, id) else s.versions[id])
    case Commit(tid, told) =>
      s.(rows := Overlay(s, {tid}), open := s.open - {tid}, committed := s.committed + {tid},
         locks := Release(s, s.locks, tid), versions := Release(s, s.versions, tid),
         replies := Tell(s, tid, ReplyFor(told, Succeeds)))
    case Abort(tid, told) =>
      s.(open := s.open - {tid}, locks := Release(s, s.locks, tid), versions := Release(s, s.versions, tid),
         replies := Tell(s, tid, ReplyFor(told, Errs)))
    case Doubt(tid) => s.(replies := s.replies[tid := InDoubt])
    case Conflict(tid, request, fingerprint) => s.(readers := s.readers[tid := Waiting(request, fingerprint)])
    case Snapshot(tid, seen) =>
      s.(readers := s.readers[tid := Looking(s.readers[tid].request, s.readers[tid].fingerprint, seen)])
    case Fallback(tid) =>
      var r := s.readers[tid];
      var found := Found(s, r.seen);
      if found.None? then s.(readers := s.readers - {tid}, replies := s.replies[tid := Errs])
      else s.(readers := s.readers[tid := Sharing(r.request, r.fingerprint, r.seen.value, found.value)])
    case Refuse(tid, e) => s.(readers := s.readers[tid := Refused(e)])
    case Answer(tid, told) =>
      s.(readers := s.readers - {tid}, replies := s.replies[tid := ReplyFor(told, AnswerOf(s.rows, s.readers[tid]))])
    case GiveUp(tid) => s.(readers := s.readers - {tid}, replies := s.replies[tid := Errs])
  }

  // ----- Resolving the open transactions -----

  /** The table if exactly the transactions in c, of those open, were to commit now. */
  function Overlay(s: Sys, c: set<nat>): Table
    requires s.versions.Keys == s.locks.Keys
  {
    map id | id in s.rows.Keys + s.locks.Keys && (if Owned(s, c, id) then s.versions[id].Some? else id in s.rows)
        :: if Owned(s, c, id) then s.versions[id].value else s.rows[id]
  }

  predicate Owned(s: Sys, c: set<nat>, id: Bytes) { id in s.locks && s.locks[id] in c }

  /** The statements of the chosen transactions, in the order in which they were executed. */
  function Pick(log: seq<Exec>, chosen: set<nat>): Trace {
    if log == [] then []
    else
      var rest := Pick(log[..|log| - 1], chosen);
      if log[|log| - 1].tid in chosen then rest + [log[|log| - 1].event] else rest
  }

  /** However the open transactions end, what will have committed is one valid atomic run, in the
      order in which the statements were executed, and it leaves exactly the resulting table. */
  ghost predicate Resolvable(s: Sys, c: set<nat>)
    requires s.versions.Keys == s.locks.Keys
  {
    c <= s.open ==> Lifecycle.Valid(Pick(s.log, s.committed + c)) && After(Pick(s.log, s.committed + c)) == Overlay(s, c)
  }

  predicate ClockAhead(s: Sys) { forall i :: 0 <= i < |s.log| ==> s.log[i].event.at <= s.clock }

  predicate Executed(s: Sys, tid: nat) { exists i :: 0 <= i < |s.log| && s.log[i].tid == tid }

  /** Locks belong to open transactions, and a transaction is open or committed, not both. */
  predicate Shape(s: Sys) {
    && s.versions.Keys == s.locks.Keys
    && (forall id :: id in s.locks ==> s.locks[id] in s.open)
    && s.open !! s.committed
    && ClockAhead(s)
    && (forall t :: t in s.open + s.committed ==> Executed(s, t))
  }

  ghost predicate Inv(s: Sys) { Shape(s) && forall c :: Resolvable(s, c) }

  lemma {:induction false} PickIgnoresStrangers(log: seq<Exec>, c: set<nat>, tid: nat)
    requires forall i :: 0 <= i < |log| ==> log[i].tid != tid
    ensures Pick(log, c + {tid}) == Pick(log, c)
  {
    if log != [] {
      PickIgnoresStrangers(log[..|log| - 1], c, tid);
    }
  }

  /** Chosen events keep the clock order and add no tokens or IDs. */
  lemma {:induction false} PickedEvents(log: seq<Exec>, c: set<nat>, i: nat) returns (k: nat)
    requires i < |Pick(log, c)|
    ensures k < |log| && Pick(log, c)[i] == log[k].event && log[k].tid in c
  {
    var n := |log| - 1;
    if log[n].tid in c && i == |Pick(log[..n], c)| {
      k := n;
    } else {
      k := PickedEvents(log[..n], c, i);
    }
  }

  /** The event of a chosen transaction is among the chosen events. */
  lemma {:induction false} ChosenIsPicked(log: seq<Exec>, c: set<nat>, k: nat) returns (i: nat)
    requires k < |log| && log[k].tid in c
    ensures i < |Pick(log, c)| && Pick(log, c)[i] == log[k].event
  {
    var n := |log| - 1;
    if k == n {
      i := |Pick(log[..n], c)|;
    } else {
      i := ChosenIsPicked(log[..n], c, k);
    }
  }

  lemma PickIsFresh(log: seq<Exec>, c: set<nat>)
    ensures Tokens(Pick(log, c)) <= Tokens(Events(log)) && InsertedIds(Pick(log, c)) <= InsertedIds(Events(log))
  {
    var t := Pick(log, c);
    forall i | 0 <= i < |t|
      ensures t[i].Claim? ==> t[i].token in Tokens(Events(log))
      ensures t[i].Insert? ==> t[i].id in InsertedIds(Events(log))
    {
      var k := PickedEvents(log, c, i);
      assert Events(log)[k] == t[i];
    }
  }

  lemma FreshForPick(s: Sys, c: set<nat>, tid: nat, e: Event)
    requires CanRun(s, tid, e) && ClockAhead(s)
    ensures FreshAfter(Pick(s.log, c), e)
  {
    var t := Pick(s.log, c);
    PickIsFresh(s.log, c);
    if t != [] {
      var k := PickedEvents(s.log, c, |t| - 1);
    }
  }

  // ----- Statements do not see locked rows -----

  ghost predicate SameOutside(a: Table, b: Table, locked: set<Bytes>) {
    forall id :: id !in locked ==> (id in a <==> id in b) && (id in a ==> a[id] == b[id])
  }

  lemma OverlaySameOutside(s: Sys, c: set<nat>)
    requires s.versions.Keys == s.locks.Keys
    ensures SameOutside(s.rows, Overlay(s, c), s.locks.Keys)
  {
  }

  lemma SameSelections(a: Table, b: Table, queue: Bytes, at: int, skip: set<Bytes>)
    requires SameOutside(a, b, skip)
    ensures ExhaustedKeys(a, queue, at, skip) == ExhaustedKeys(b, queue, at, skip)
    ensures EligibleKeys(a, queue, at, skip) == EligibleKeys(b, queue, at, skip)
  {
  }

  lemma ClaimSeesUnlocked(a: Table, b: Table, e: Event)
    requires e.Claim? && SameOutside(a, b, e.skip) && ClaimPicks(a, e)
    ensures ClaimPicks(b, e)
  {
    SameSelections(a, b, e.queue, e.at, e.skip);
  }

  lemma KeyInOverlay(s: Sys, c: set<nat>, queue: Bytes, key: Bytes)
    requires s.versions.Keys == s.locks.Keys
    ensures KeyTaken(Overlay(s, c), queue, key) ==> KeyPending(s, queue, key) || KeyTaken(s.rows, queue, key)
  {
  }

  /** A statement that may run is a valid atomic step whichever open transactions commit before it. */
  lemma GuardOnOverlay(s: Sys, c: set<nat>, tid: nat, e: Event)
    requires s.versions.Keys == s.locks.Keys && CanRun(s, tid, e)
    ensures Guard(Overlay(s, c), e)
  {
    OverlaySameOutside(s, c);
    if e.Claim? {
      ClaimSeesUnlocked(s.rows, Overlay(s, c), e);
    } else if e.Insert? {
      KeyInOverlay(s, c, e.request.queue, e.request.key);
    }
  }

  lemma FootprintUnlocked(s: Sys, tid: nat, e: Event)
    requires CanRun(s, tid, e)
    ensures Footprint(e) !! s.locks.Keys
    ensures e.Claim? ==> Picked(s.rows, e)
  {
    if e.Claim? {
      PickedRows(s.rows, e);
    }
  }

  /** A claim takes no row that another transaction has locked in any mode. */
  lemma ClaimAvoidsLocks(s: Sys, tid: nat, e: Event)
    requires CanRun(s, tid, e) && e.Claim?
    ensures Footprint(e) !! s.locks.Keys
    ensures forall t :: t in s.readers && s.readers[t].Sharing? ==> s.readers[t].id !in Footprint(e)
  {
    PickedRows(s.rows, e);
    forall t | t in s.readers && s.readers[t].Sharing? ensures s.readers[t].id !in Footprint(e) {
      assert s.readers[t].id in Shared(s);
    }
  }

  lemma UntouchedRow(rows: Table, e: Event, id: Bytes)
    requires id !in Footprint(e)
    ensures id in Next(rows, e) <==> id in rows
    ensures id in rows ==> Next(rows, e)[id] == rows[id]
  {
  }

  lemma TouchedRow(a: Table, b: Table, e: Event, id: Bytes)
    requires id in a <==> id in b
    requires id in a ==> a[id] == b[id]
    ensures VersionAfter(a, e, id) == VersionAfter(b, e, id)
  {
  }

  function Look(rows: Table, id: Bytes): Option<Row> { if id in rows then Some(rows[id]) else None }

  lemma OverlayLook(s: Sys, c: set<nat>, id: Bytes)
    requires s.versions.Keys == s.locks.Keys
    ensures Look(Overlay(s, c), id) == if Owned(s, c, id) then s.versions[id] else Look(s.rows, id)
  {
  }

  lemma SameTable(a: Table, b: Table)
    requires forall id :: Look(a, id) == Look(b, id)
    ensures a == b
  {
    forall id ensures (id in a <==> id in b) && (id in a ==> a[id] == b[id]) {
      assert Look(a, id) == Look(b, id);
    }
  }

  lemma AfterRun(s: Sys, tid: nat, e: Event, id: Bytes)
    requires s.versions.Keys == s.locks.Keys && CanRun(s, tid, e)
    ensures var s' := Do(s, Run(tid, e));
            && s'.versions.Keys == s'.locks.Keys && s'.rows == s.rows
            && (id in s'.locks <==> id in s.locks || id in Footprint(e))
            && (id in Footprint(e) ==> s'.locks[id] == tid && s'.versions[id] == VersionAfter(s.rows, e, id))
            && (id in s.locks && id !in Footprint(e) ==> s'.locks[id] == s.locks[id] && s'.versions[id] == s.versions[id])
  {
  }

  lemma RunLook(s: Sys, c: set<nat>, tid: nat, e: Event, id: Bytes)
    requires Shape(s) && CanRun(s, tid, e) && c <= s.open
    ensures Look(Overlay(Do(s, Run(tid, e)), c + {tid}), id) == Look(Next(Overlay(s, c), e), id)
    ensures Look(Overlay(Do(s, Run(tid, e)), c), id) == Look(Overlay(s, c), id)
  {
    FootprintUnlocked(s, tid, e);
    AfterRun(s, tid, e, id);
    var s' := Do(s, Run(tid, e));
    OverlayLook(s', c + {tid}, id);
    OverlayLook(s', c, id);
    OverlayLook(s, c, id);
    if id in Footprint(e) {
      TouchedRow(s.rows, Overlay(s, c), e, id);
    } else {
      UntouchedRow(Overlay(s, c), e, id);
    }
  }

  /** The new statement's effect on any resolution is its own new versions, and it has no other. */
  lemma RunOnOverlay(s: Sys, c: set<nat>, tid: nat, e: Event)
    requires Shape(s) && CanRun(s, tid, e) && c <= s.open
    ensures Overlay(Do(s, Run(tid, e)), c + {tid}) == Next(Overlay(s, c), e)
    ensures Overlay(Do(s, Run(tid, e)), c) == Overlay(s, c)
  {
    var s' := Do(s, Run(tid, e));
    forall id
      ensures Look(Overlay(s', c + {tid}), id) == Look(Next(Overlay(s, c), e), id)
      ensures Look(Overlay(s', c), id) == Look(Overlay(s, c), id)
    {
      RunLook(s, c, tid, e, id);
    }
    SameTable(Overlay(s', c + {tid}), Next(Overlay(s, c), e));
    SameTable(Overlay(s', c), Overlay(s, c));
  }

  /** A statement appended by transaction tid, before the choice of survivors is made. */
  lemma PickAfterRun(s: Sys, tid: nat, e: Event, c: set<nat>)
    requires NewTid(s, tid)
    ensures Pick(s.log + [Exec(tid, e)], c + {tid}) == Pick(s.log, c) + [e]
    ensures tid !in c ==> Pick(s.log + [Exec(tid, e)], c) == Pick(s.log, c)
  {
    assert (s.log + [Exec(tid, e)])[..|s.log|] == s.log;
    PickIgnoresStrangers(s.log, c, tid);
  }

  lemma RunResolvable(s: Sys, tid: nat, e: Event, c: set<nat>)
    requires Inv(s) && CanRun(s, tid, e)
    ensures Resolvable(Do(s, Run(tid, e)), c)
  {
    if c <= s.open + {tid} {
      var c0 := c - {tid};
      var chosen := s.committed + c0;
      assert Resolvable(s, c0);
      PickAfterRun(s, tid, e, chosen);
      RunOnOverlay(s, c0, tid, e);
      if tid in c {
        assert c == c0 + {tid} && s.committed + c == chosen + {tid};
        FreshForPick(s, chosen, tid, e);
        GuardOnOverlay(s, c0, tid, e);
        ValidExtends(Pick(s.log, chosen), e);
      } else {
        assert c0 == c;
      }
    }
  }

  // ----- Ends of transactions -----

  lemma AfterRelease(s: Sys, a: Action, id: Bytes)
    requires s.versions.Keys == s.locks.Keys && Enabled(s, a) && (a.Commit? || a.Abort?)
    ensures var s' := Do(s, a);
            && s'.versions.Keys == s'.locks.Keys
            && (id in s'.locks <==> id in s.locks && s.locks[id] != a.tid)
            && (id in s'.locks ==> s'.locks[id] == s.locks[id] && s'.versions[id] == s.versions[id])
  {
  }

  lemma CommitResolvable(s: Sys, tid: nat, told: bool, c: set<nat>)
    requires Inv(s) && tid in s.open
    ensures Resolvable(Do(s, Commit(tid, told)), c)
  {
    var s' := Do(s, Commit(tid, told));
    if c <= s.open - {tid} {
      assert Resolvable(s, c + {tid});
      assert s.committed + {tid} + c == s.committed + (c + {tid});
      forall id ensures Look(Overlay(s', c), id) == Look(Overlay(s, c + {tid}), id) {
        AfterRelease(s, Commit(tid, told), id);
        OverlayLook(s', c, id);
        OverlayLook(s, c + {tid}, id);
        OverlayLook(s, {tid}, id);
      }
      SameTable(Overlay(s', c), Overlay(s, c + {tid}));
    }
  }

  lemma AbortResolvable(s: Sys, tid: nat, told: bool, c: set<nat>)
    requires Inv(s) && tid in s.open
    ensures Resolvable(Do(s, Abort(tid, told)), c)
  {
    var s' := Do(s, Abort(tid, told));
    if c <= s.open - {tid} {
      assert Resolvable(s, c);
      forall id ensures Look(Overlay(s', c), id) == Look(Overlay(s, c), id) {
        AfterRelease(s, Abort(tid, told), id);
        OverlayLook(s', c, id);
        OverlayLook(s, c, id);
      }
      SameTable(Overlay(s', c), Overlay(s, c));
    }
  }

  predicate LeavesRows(a: Action) { !a.Run? && !a.Commit? && !a.Abort? }

  lemma OtherKeeps(s: Sys, a: Action)
    requires s.versions.Keys == s.locks.Keys && Enabled(s, a) && LeavesRows(a)
    ensures var s' := Do(s, a);
            && s'.rows == s.rows && s'.locks == s.locks && s'.versions == s.versions && s'.log == s.log
            && s'.open == s.open && s'.committed == s.committed && s.clock <= s'.clock
  {
  }

  lemma OtherResolvable(s: Sys, s': Sys, c: set<nat>)
    requires s.versions.Keys == s.locks.Keys && Resolvable(s, c)
    requires s'.rows == s.rows && s'.locks == s.locks && s'.versions == s.versions && s'.log == s.log
    requires s'.open == s.open && s'.committed == s.committed
    ensures Resolvable(s', c)
  {
  }

  lemma RunShape(s: Sys, tid: nat, e: Event)
    requires Shape(s) && CanRun(s, tid, e)
    ensures Shape(Do(s, Run(tid, e)))
  {
    var s' := Do(s, Run(tid, e));
    forall id ensures (id in s'.locks ==> s'.locks[id] in s'.open) && (id in s'.versions <==> id in s'.locks) {
      AfterRun(s, tid, e, id);
    }
    assert s'.log[|s.log|].tid == tid;
    forall t | t in s'.open + s'.committed ensures Executed(s', t) {
      if t != tid {
        assert Executed(s, t);
        var i :| 0 <= i < |s.log| && s.log[i].tid == t;
        assert s'.log[i].tid == t;
      }
    }
  }

  lemma EndShape(s: Sys, a: Action)
    requires Shape(s) && Enabled(s, a) && (a.Commit? || a.Abort?)
    ensures Shape(Do(s, a))
  {
    var s' := Do(s, a);
    forall id ensures (id in s'.locks ==> s'.locks[id] in s'.open) && (id in s'.versions <==> id in s'.locks) {
      AfterRelease(s, a, id);
    }
    forall t | t in s'.open + s'.committed ensures Executed(s', t) {
      assert Executed(s, t);
      var i :| 0 <= i < |s.log| && s.log[i].tid == t;
      assert s'.log[i].tid == t;
    }
  }

  lemma OtherShape(s: Sys, a: Action)
    requires Shape(s) && Enabled(s, a) && LeavesRows(a)
    ensures Shape(Do(s, a))
  {
  }

  lemma ShapeStep(s: Sys, a: Action)
    requires Shape(s) && Enabled(s, a)
    ensures Shape(Do(s, a))
  {
    match a
    case Run(tid, e) => RunShape(s, tid, e);
    case Commit(_, _) => EndShape(s, a);
    case Abort(_, _) => EndShape(s, a);
    case _ => OtherShape(s, a);
  }

  lemma StepResolvable(s: Sys, a: Action, c: set<nat>)
    requires Inv(s) && Enabled(s, a)
    ensures Do(s, a).versions.Keys == Do(s, a).locks.Keys && Resolvable(Do(s, a), c)
  {
    ShapeStep(s, a);
    match a
    case Run(tid, e) => RunResolvable(s, tid, e, c);
    case Commit(tid, told) => CommitResolvable(s, tid, told, c);
    case Abort(tid, told) => AbortResolvable(s, tid, told, c);
    case _ =>
      OtherKeeps(s, a);
      assert Resolvable(s, c);
      OtherResolvable(s, Do(s, a), c);
  }

  lemma InvStep(s: Sys, a: Action)
    requires Inv(s) && Enabled(s, a)
    ensures Inv(Do(s, a))
  {
    ShapeStep(s, a);
    forall c ensures Resolvable(Do(s, a), c) {
      StepResolvable(s, a, c);
    }
  }

  // ----- Runs -----

  function StateAfter(now: int, acts: seq<Action>): Option<Sys>
  {
    if acts == [] then Some(Start(now))
    else
      var before := StateAfter(now, acts[..|acts| - 1]);
      if before.None? || before.value.versions.Keys != before.value.locks.Keys || !Enabled(before.value, acts[|acts| - 1]) then None
      else Some(Do(before.value, acts[|acts| - 1]))
  }

  lemma {:induction false} Reachable(now: int, acts: seq<Action>)
    requires StateAfter(now, acts).Some?
    ensures Inv(StateAfter(now, acts).value)
  {
    if acts == [] {
      var s := Start(now);
      forall c ensures Resolvable(s, c) {
        assert Pick(s.log, s.committed + c) == [];
        assert Overlay(s, c) == map[];
      }
    } else {
      Reachable(now, acts[..|acts| - 1]);
      InvStep(StateAfter(now, acts[..|acts| - 1]).value, acts[|acts| - 1]);
    }
  }

  /** Refinement: the committed table of every interleaving is what the committed statements leave
      when taken one at a time in execution order, and that is a valid run of the state machine. The
      same holds for every way in which the transactions still open may end. */
  lemma InterleavingsAreAtomicRuns(now: int, acts: seq<Action>, c: set<nat>)
    requires StateAfter(now, acts).Some? && c <= StateAfter(now, acts).value.open
    ensures var s := StateAfter(now, acts).value;
            && s.versions.Keys == s.locks.Keys
            && Lifecycle.Valid(Pick(s.log, s.committed + c))
            && After(Pick(s.log, s.committed + c)) == Overlay(s, c)
            && Lifecycle.Valid(Pick(s.log, s.committed))
            && After(Pick(s.log, s.committed)) == s.rows
  {
    Reachable(now, acts);
    var s := StateAfter(now, acts).value;
    assert Resolvable(s, c) && Resolvable(s, {});
    assert s.committed + {} == s.committed;
    assert Overlay(s, {}) == s.rows;
  }

  // ----- Tokens and IDs of the log -----

  lemma TokensGrow(log: seq<Exec>, x: Exec)
    ensures Tokens(Events(log)) <= Tokens(Events(log + [x]))
  {
    forall token | token in Tokens(Events(log)) ensures token in Tokens(Events(log + [x])) {
      var i :| 0 <= i < |Events(log)| && Events(log)[i].Claim? && Events(log)[i].token == token;
      assert Events(log + [x])[i] == Events(log)[i];
    }
  }

  lemma InsertedIdsGrow(log: seq<Exec>, x: Exec)
    ensures InsertedIds(Events(log)) <= InsertedIds(Events(log + [x]))
  {
    forall id | id in InsertedIds(Events(log)) ensures id in InsertedIds(Events(log + [x])) {
      var i :| 0 <= i < |Events(log)| && Events(log)[i].Insert? && Events(log)[i].id == id;
      assert Events(log + [x])[i] == Events(log)[i];
    }
  }

  /** Committed rows were inserted by statements of the log. */
  lemma RowsWereInserted(now: int, acts: seq<Action>, id: Bytes)
    requires StateAfter(now, acts).Some? && id in StateAfter(now, acts).value.rows
    ensures id in InsertedIds(Events(StateAfter(now, acts).value.log))
  {
    var s := StateAfter(now, acts).value;
    InterleavingsAreAtomicRuns(now, acts, {});
    PresentWasInserted(Pick(s.log, s.committed), id);
    PickIsFresh(s.log, s.committed);
  }

  // ----- What clients are told -----

  /** A transaction has one statement in the log, is in one phase at a time, and what its client was
      told at its end is true: success of a statement means that it committed, an error that it did not. */
  predicate Truthful(s: Sys) {
    && (forall i, j :: 0 <= i < j < |s.log| ==> s.log[i].tid != s.log[j].tid)
    && (forall t :: t in s.open && t in s.replies ==> s.replies[t] == InDoubt)
    && (forall t :: t in s.readers ==> t !in s.replies && !Executed(s, t))
    && (forall t :: t in s.replies && s.replies[t] == Succeeds ==> t in s.committed)
    && (forall t :: t in s.replies && s.replies[t] !in {Succeeds, InDoubt} ==> t !in s.committed)
  }

  lemma ExecutedMore(s: Sys, s': Sys, x: Exec, t: nat)
    requires s'.log == s.log + [x]
    ensures Executed(s', t) <==> t == x.tid || Executed(s, t)
  {
    assert s'.log[|s.log|] == x;
    if Executed(s, t) {
      var i :| 0 <= i < |s.log| && s.log[i].tid == t;
      assert s'.log[i].tid == t;
    }
  }

  lemma ExecutedAfterRun(s: Sys, tid: nat, e: Event, t: nat)
    requires s.versions.Keys == s.locks.Keys && CanRun(s, tid, e)
    ensures Executed(Do(s, Run(tid, e)), t) <==> t == tid || Executed(s, t)
  {
    ExecutedMore(s, Do(s, Run(tid, e)), Exec(tid, e), t);
  }

  lemma RunTruthful(s: Sys, tid: nat, e: Event)
    requires Shape(s) && Truthful(s) && CanRun(s, tid, e)
    ensures Truthful(Do(s, Run(tid, e)))
  {
    var s' := Do(s, Run(tid, e));
    forall t ensures Executed(s', t) <==> t == tid || Executed(s, t) {
      ExecutedAfterRun(s, tid, e, t);
    }
  }

  lemma NotExecuted(s: Sys, tid: nat)
    requires Shape(s)
    ensures !Executed(s, tid) ==> tid !in s.committed && tid !in s.open
    ensures NewTid(s, tid) ==> !Executed(s, tid)
  {
  }

  lemma EndTruthful(s: Sys, a: Action)
    requires Shape(s) && Truthful(s) && Enabled(s, a) && (a.Commit? || a.Abort?)
    ensures Truthful(Do(s, a))
  {
    forall t ensures Executed(Do(s, a), t) <==> Executed(s, t) {
    }
    NotExecuted(s, a.tid);
  }

  predicate SameProgress(s: Sys, s': Sys) { s'.log == s.log && s'.open == s.open && s'.committed == s.committed }

  lemma SameExecuted(s: Sys, s': Sys)
    requires s'.log == s.log
    ensures forall t :: Executed(s', t) <==> Executed(s, t)
  {
  }

  /** A transaction that has executed nothing goes on reading. */
  lemma ReaderTruthful(s: Sys, s': Sys, tid: nat, r: Reader)
    requires Shape(s) && Truthful(s) && (tid in s.readers || NewTid(s, tid))
    requires SameProgress(s, s') && s'.readers == s.readers[tid := r] && s'.replies == s.replies
    ensures Truthful(s')
  {
    SameExecuted(s, s');
    NotExecuted(s, tid);
  }

  /** A reading transaction ends. */
  lemma ReplyTruthful(s: Sys, s': Sys, tid: nat, reply: Reply)
    requires Shape(s) && Truthful(s) && tid in s.readers && reply != Succeeds
    requires SameProgress(s, s') && s'.readers == s.readers - {tid} && s'.replies == s.replies[tid := reply]
    ensures Truthful(s')
  {
    SameExecuted(s, s');
    NotExecuted(s, tid);
  }

  lemma StartTruthful(s: Sys, a: Action)
    requires Shape(s) && Truthful(s) && Enabled(s, a) && (a.Conflict? || a.Refuse?)
    ensures Truthful(Do(s, a))
  {
    ReaderTruthful(s, Do(s, a), a.tid, Do(s, a).readers[a.tid]);
  }

  lemma FallbackTruthful(s: Sys, tid: nat)
    requires Shape(s) && Truthful(s) && Enabled(s, Fallback(tid))
    ensures Truthful(Do(s, Fallback(tid)))
  {
    var s' := Do(s, Fallback(tid));
    if Found(s, s.readers[tid].seen).Some? {
      ReaderTruthful(s, s', tid, s'.readers[tid]);
    } else {
      ReplyTruthful(s, s', tid, Errs);
    }
  }

  lemma OtherTruthful(s: Sys, a: Action)
    requires Shape(s) && Truthful(s) && Enabled(s, a) && LeavesRows(a) && !a.Answer?
    ensures Truthful(Do(s, a))
  {
    var s' := Do(s, a);
    match a
    case Tick(_) => SameExecuted(s, s');
    case Conflict(tid, _, _) => StartTruthful(s, a);
    case Snapshot(tid, _) => ReaderTruthful(s, s', tid, s'.readers[tid]);
    case Refuse(tid, _) => StartTruthful(s, a);
    case Fallback(tid) => FallbackTruthful(s, tid);
    case GiveUp(tid) => ReplyTruthful(s, s', tid, Errs);
    case Doubt(_) => SameExecuted(s, s');
    case _ =>
  }

  lemma AnswerTruthful(s: Sys, tid: nat, told: bool)
    requires Shape(s) && Truthful(s) && Enabled(s, Answer(tid, told))
    ensures Truthful(Do(s, Answer(tid, told)))
  {
    ReplyTruthful(s, Do(s, Answer(tid, told)), tid, ReplyFor(told, AnswerOf(s.rows, s.readers[tid])));
  }

  lemma {:induction false} AlwaysTruthful(now: int, acts: seq<Action>)
    requires StateAfter(now, acts).Some?
    ensures Truthful(StateAfter(now, acts).value)
  {
    if acts != [] {
      var before, a := acts[..|acts| - 1], acts[|acts| - 1];
      AlwaysTruthful(now, before);
      Reachable(now, before);
      if a.Run? {
        RunTruthful(StateAfter(now, before).value, a.tid, a.event);
      } else if a.Commit? || a.Abort? {
        EndTruthful(StateAfter(now, before).value, a);
      } else if a.Answer? {
        AnswerTruthful(StateAfter(now, before).value, a.tid, a.told);
      } else {
        OtherTruthful(StateAfter(now, before).value, a);
      }
    }
  }

  lemma ReplyKept(s: Sys, a: Action, tid: nat)
    requires Shape(s) && Truthful(s) && Enabled(s, a) && tid in s.replies
    ensures var s' := Do(s, a);
            && tid in s'.replies && s'.replies[tid] == s.replies[tid]
            && (tid !in s.open ==> tid !in s'.open && (tid in s'.committed <==> tid in s.committed))
  {
  }

  /** What a client has been told stays settled: a definite answer means that its transaction has ended,
      and a transaction that has ended, also one in doubt, does not change sides later. */
  lemma {:induction false} ReplyIsFinal(now: int, acts: seq<Action>, i: nat, tid: nat)
    requires StateAfter(now, acts).Some? && i <= |acts|
    requires StateAfter(now, acts[..i]).Some? && tid in StateAfter(now, acts[..i]).value.replies
    ensures var s, s' := StateAfter(now, acts[..i]).value, StateAfter(now, acts).value;
            && tid in s'.replies && s'.replies[tid] == s.replies[tid]
            && (s.replies[tid] != InDoubt ==> tid !in s.open)
            && (tid !in s.open ==> tid !in s'.open && (tid in s'.committed <==> tid in s.committed))
    decreases |acts|
  {
    AlwaysTruthful(now, acts[..i]);
    if i == |acts| {
      assert acts[..i] == acts;
    } else {
      var before := acts[..|acts| - 1];
      assert before[..i] == acts[..i];
      ReplyIsFinal(now, before, i, tid);
      AlwaysTruthful(now, before);
      Reachable(now, before);
      ReplyKept(StateAfter(now, before).value, acts[|acts| - 1], tid);
    }
  }

  lemma {:induction false} PickOmits(log: seq<Exec>, c: set<nat>, k: nat)
    requires k < |log| && log[k].tid !in c
    ensures Pick(log, c) == Pick(log[..k] + log[k + 1..], c)
    decreases |log|
  {
    var n := |log| - 1;
    if k == n {
      assert log[..k] + log[k + 1..] == log[..n];
    } else {
      var shorter := log[..k] + log[k + 1..];
      assert shorter[..|shorter| - 1] == log[..n][..k] + log[..n][k + 1..];
      PickOmits(log[..n], c, k);
    }
  }

  /** An operation that returned an error other than an unknown outcome contributes no step: the
      atomic run is the same as if its statement had never been executed. */
  lemma ErrorContributesNothing(now: int, acts: seq<Action>, k: nat, c: set<nat>)
    requires StateAfter(now, acts).Some?
    requires var s := StateAfter(now, acts).value;
             && k < |s.log| && s.log[k].tid in s.replies && s.replies[s.log[k].tid] !in {Succeeds, InDoubt} && c <= s.open
    ensures var s := StateAfter(now, acts).value;
            Pick(s.log, s.committed + c) == Pick(s.log[..k] + s.log[k + 1..], s.committed + c)
  {
    var s := StateAfter(now, acts).value;
    AlwaysTruthful(now, acts);
    PickOmits(s.log, s.committed + c, k);
  }
}
