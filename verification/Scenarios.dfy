/** Runs from the empty table that reach the states in which the protocol's exceptions show. */
module Scenarios {
  import opened Base
  import opened Errors
  import opened Values
  import opened Rows
  import opened Order
  import opened Lifecycle
  import opened Transactions
  import Refusals
  import Utf8

  function Repeat(b: Byte, n: nat): Bytes { seq(n, _ => b) }

  const ID := Repeat(48, 32)
  const OTHER_ID := Repeat(49, 32)
  const TOKEN := Repeat(48, 64)
  const NAME: Bytes := [97]
  const REQUEST := EnqueueRequest(NAME, NAME, [], NAME, 1, ZERO_TIME)
  const INSERT := Event.Insert(0, ID, REQUEST, ID)
  const CLAIM := Event.Claim(0, NAME, NAME, TOKEN, 1_000_000, {}, {}, Some(ID))

  lemma InputsAreValid()
    ensures ValidEnqueue(REQUEST) && Admissible(INSERT) && Admissible(CLAIM) && ValidToken(TOKEN) && ID != OTHER_ID
  {
    Utf8.AsciiIsClean(NAME);
    assert ID[0] != OTHER_ID[0];
  }

  // ----- Transactions that run alone -----

  predicate Idle(s: Sys) { s.locks == map[] && s.versions == map[] && s.open == {} }

  /** One transaction with one statement has run and committed. */
  function Transacted(s: Sys, tid: nat, e: Event): Sys {
    s.(rows := Next(s.rows, e), log := s.log + [Exec(tid, e)], committed := s.committed + {tid}, replies := s.replies[tid := Succeeds])
  }

  lemma OverlaidRow(s: Sys, s1: Sys, tid: nat, e: Event, x: Bytes)
    requires s1.versions.Keys == s1.locks.Keys && s1.rows == s.rows
    requires x in s1.locks <==> x in Footprint(e)
    requires x in Footprint(e) ==> s1.locks[x] == tid && s1.versions[x] == VersionAfter(s.rows, e, x)
    ensures Look(Overlay(s1, {tid}), x) == Look(Next(s.rows, e), x)
  {
    OverlayLook(s1, {tid}, x);
    if x !in Footprint(e) {
      UntouchedRow(s.rows, e, x);
    }
  }

  lemma CommitsRow(s: Sys, tid: nat, e: Event, x: Bytes)
    requires Idle(s) && CanRun(s, tid, e)
    ensures Look(Overlay(Do(s, Run(tid, e)), {tid}), x) == Look(Next(s.rows, e), x)
  {
    AfterRun(s, tid, e, x);
    OverlaidRow(s, Do(s, Run(tid, e)), tid, e, x);
  }

  lemma RunAlone(now: int, acts: seq<Action>, s: Sys, tid: nat, e: Event, id: Bytes)
    requires StateAfter(now, acts) == Some(s) && Idle(s) && CanRun(s, tid, e) && Footprint(e) == {id}
    ensures StateAfter(now, acts + [Run(tid, e)] + [Commit(tid, true)]) == Some(Transacted(s, tid, e))
  {
    var s1 := Do(s, Run(tid, e));
    Refusals.More(now, acts, s, Run(tid, e));
    AfterRun(s, tid, e, id);
    forall x ensures Look(Overlay(s1, {tid}), x) == Look(Next(s.rows, e), x) {
      CommitsRow(s, tid, e, x);
    }
    SameTable(Overlay(s1, {tid}), Next(s.rows, e));
    assert Do(s1, Commit(tid, true)) == Transacted(s, tid, e);
    Refusals.More(now, acts + [Run(tid, e)], s1, Commit(tid, true));
  }

  // ----- One job -----

  predicate OneJob(s: Sys) {
    && Idle(s) && s.clock == 0 && s.rows == map[ID := NewRow(INSERT)] && s.log == [Exec(0, INSERT)] && s.committed == {0}
    && s.readers == map[] && s.replies == map[0 := Succeeds]
  }

  lemma Enqueued() returns (acts: seq<Action>, s: Sys)
    ensures acts == [Run(0, INSERT)] + [Commit(0, true)] && StateAfter(0, acts) == Some(s) && OneJob(s)
  {
    InputsAreValid();
    acts, s := [] + [Run(0, INSERT)] + [Commit(0, true)], Transacted(Start(0), 0, INSERT);
    RunAlone(0, [], Start(0), 0, INSERT, ID);
    assert acts == [Run(0, INSERT)] + [Commit(0, true)];
  }

  lemma OnlyJobIsPicked(rows: Table)
    requires rows == map[ID := NewRow(INSERT)]
    ensures ClaimPicks(rows, CLAIM)
  {
    assert EligibleKeys(rows, NAME, 0, {}) == map[ID := DueKey(ID, rows[ID])];
    assert ExhaustedKeys(rows, NAME, 0, {}) == map[];
  }

  lemma ClaimCanRun(s: Sys)
    requires OneJob(s)
    ensures CanRun(s, 1, CLAIM)
  {
    InputsAreValid();
    OnlyJobIsPicked(s.rows);
  }

  predicate ClaimedJob(s: Sys) {
    && Idle(s) && s.clock == 0 && s.rows == map[ID := Grant(NewRow(INSERT), CLAIM)] && s.log == [Exec(0, INSERT), Exec(1, CLAIM)]
    && s.committed == {0, 1} && s.readers == map[] && s.replies == map[0 := Succeeds, 1 := Succeeds]
  }

  lemma ClaimIsGranted(s: Sys)
    requires OneJob(s)
    ensures ClaimedJob(Transacted(s, 1, CLAIM))
  {
    assert s.log + [Exec(1, CLAIM)] == [Exec(0, INSERT), Exec(1, CLAIM)];
  }

  lemma Claimed() returns (acts: seq<Action>, s: Sys)
    ensures StateAfter(0, acts) == Some(s) && ClaimedJob(s)
  {
    var before, s0 := Enqueued();
    ClaimCanRun(s0);
    ClaimIsGranted(s0);
    RunAlone(0, before, s0, 1, CLAIM, ID);
    acts, s := before + [Run(1, CLAIM)] + [Commit(1, true)], Transacted(s0, 1, CLAIM);
  }

  // ----- Refusals that are not final -----

  /** From the empty table, after an enqueue and a claim: a slow heartbeat, a Complete that is answered with
      ErrLeaseLost, the heartbeat's commit, and the same Complete at the same clock reading, now accepted. */
  lemma SlowHeartbeatRun() returns (acts: seq<Action>)
    ensures StateAfter(0, acts).Some? && ClaimedJob(StateAfter(0, acts).value)
    ensures var e := Event.Complete(1_000_000, ID, TOKEN);
            var end := StateAfter(0, acts + [Run(2, Event.Heartbeat(0, ID, TOKEN, 2_000_000))] + [Tick(1_000_000)]
                                     + [Refuse(3, e)] + [Answer(3, true)] + [Commit(2, true)]);
            && end.Some? && end.value.clock == 1_000_000 && 3 in end.value.replies
            && end.value.replies[3] == Rejected(ID, ErrLeaseLost)
            && Refusals.Accepts(end.value, Run(4, e), ID, TOKEN)
  {
    var s;
    acts, s := Claimed();
    Refusals.RefusedThenAccepted(0, acts, s, ID, TOKEN, 2_000_000, 1_000_000, 2, 3, 4);
  }

  /** A claim of the one job. */
  predicate Claims(e: Event) {
    && e.Claim? && e.at == 0 && e.queue == NAME && e.worker == NAME && e.token == TOKEN && e.lease == 1_000_000
    && e.reaped == {} && e.got == Some(ID)
  }

  lemma SomeClaim(s: Sys) returns (claim: Event)
    requires OneJob(s)
    ensures CanRun(s, 1, claim) && Claims(claim)
  {
    claim := CLAIM;
    ClaimCanRun(s);
  }

  /** The claim has granted its lease on an uncommitted version. */
  predicate UnderWay(s: Sys, claim: Event, replies: map<nat, Reply>) {
    && Refusals.Slow(s, 1, ID, TOKEN, 1_000_000) && s.rows[ID].state == Pending
    && s.clock == 0 && s.log == [Exec(0, INSERT), Exec(1, claim)] && s.open == {1} && s.committed == {0}
    && s.readers == map[] && s.replies == replies
  }

  lemma ClaimRuns(acts: seq<Action>, s: Sys, claim: Event) returns (s': Sys)
    requires StateAfter(0, acts) == Some(s) && OneJob(s) && CanRun(s, 1, claim) && Claims(claim)
    ensures StateAfter(0, acts + [Run(1, claim)]) == Some(s') && UnderWay(s', claim, map[0 := Succeeds])
  {
    Reachable(0, acts);
    s' := Do(s, Run(1, claim));
    ClaimIsSlow(s, claim);
    ClaimIsUnderWay(s, s', claim);
    Refusals.More(0, acts, s, Run(1, claim));
  }

  lemma ClaimIsSlow(s: Sys, claim: Event)
    requires Shape(s) && OneJob(s) && CanRun(s, 1, claim) && Claims(claim)
    ensures Refusals.LeaseVersion(Do(s, Run(1, claim)), Exec(1, claim), ID, TOKEN)
  {
    Refusals.OwnVersion(s, 1, claim, ID, TOKEN);
  }

  lemma ClaimIsUnderWay(s: Sys, s': Sys, claim: Event)
    requires OneJob(s) && Claims(claim) && Refusals.LeaseVersion(s', Exec(1, claim), ID, TOKEN)
    requires s'.rows == s.rows && s'.clock == s.clock && s'.log == s.log + [Exec(1, claim)] && s'.open == s.open + {1}
    requires s'.committed == s.committed && s'.readers == s.readers && s'.replies == s.replies
    ensures UnderWay(s', claim, map[0 := Succeeds])
  {
  }

  lemma ClaimInDoubt(acts: seq<Action>, s: Sys, claim: Event) returns (s': Sys)
    requires StateAfter(0, acts) == Some(s) && UnderWay(s, claim, map[0 := Succeeds])
    ensures StateAfter(0, acts + [Doubt(1)]) == Some(s') && UnderWay(s', claim, map[0 := Succeeds, 1 := InDoubt])
  {
    Reachable(0, acts);
    Refusals.More(0, acts, s, Doubt(1));
    s' := Do(s, Doubt(1));
  }

  lemma RefusedInDoubt(acts: seq<Action>, s: Sys, claim: Event)
    requires StateAfter(0, acts) == Some(s) && UnderWay(s, claim, map[0 := Succeeds, 1 := InDoubt])
    ensures var e := Event.Complete(0, ID, TOKEN);
            var end := StateAfter(0, acts + [Refuse(2, e)] + [Answer(2, true)] + [Commit(1, true)]);
            && end.Some? && end.value.replies == map[0 := Succeeds, 1 := InDoubt, 2 := Rejected(ID, ErrLeaseLost)]
            && Refusals.Accepts(end.value, Run(3, e), ID, TOKEN)
  {
    Refusals.RefusedInBetween(0, acts, s, 1, ID, TOKEN, 1_000_000, 2, 3);
  }

  /** From the empty table, after an enqueue: a claim whose client is told that its outcome is unknown, a
      Complete with its token that is answered with ErrLeaseLost, the claim's commit, and the same Complete
      accepted. */
  lemma DoubtfulClaimRun() returns (acts: seq<Action>, claim: Event)
    ensures StateAfter(0, acts).Some? && OneJob(StateAfter(0, acts).value) && Claims(claim)
    ensures var e := Event.Complete(0, ID, TOKEN);
            var end := StateAfter(0, acts + [Run(1, claim)] + [Doubt(1)] + [Refuse(2, e)] + [Answer(2, true)] + [Commit(1, true)]);
            && end.Some? && end.value.replies == map[0 := Succeeds, 1 := InDoubt, 2 := Rejected(ID, ErrLeaseLost)]
            && Refusals.Accepts(end.value, Run(3, e), ID, TOKEN)
  {
    var s;
    acts, s := Enqueued();
    claim := SomeClaim(s);
    var s1 := ClaimRuns(acts, s, claim);
    var s2 := ClaimInDoubt(acts + [Run(1, claim)], s1, claim);
    RefusedInDoubt(acts + [Run(1, claim)] + [Doubt(1)], s2, claim);
  }

  // ----- A fallback that finds nothing -----

  const PURGE := Event.Purge(0, ID)
  const TAKEOVER := Event.Insert(0, OTHER_ID, REQUEST, ID)

  lemma LooksUp(now: int, acts: seq<Action>, s: Sys, tid: nat, request: EnqueueRequest, fingerprint: Bytes, id: Bytes)
    requires StateAfter(now, acts) == Some(s) && Idle(s) && Enabled(s, Conflict(tid, request, fingerprint))
    requires HoldsKey(s.rows, id, request.queue, request.key)
    ensures StateAfter(now, acts + [Conflict(tid, request, fingerprint)] + [Snapshot(tid, Some(id))])
            == Some(s.(readers := s.readers[tid := Looking(request, fingerprint, Some(id))]))
  {
    var s1 := s.(readers := s.readers[tid := Waiting(request, fingerprint)]);
    Refusals.More(now, acts, s, Conflict(tid, request, fingerprint));
    var s2 := s.(readers := s.readers[tid := Looking(request, fingerprint, Some(id))]);
    assert s1.readers[tid := Looking(request, fingerprint, Some(id))] == s2.readers;
    Refusals.More(now, acts + [Conflict(tid, request, fingerprint)], s1, Snapshot(tid, Some(id)));
  }

  /** The fallback of transaction 1 has seen the first job, which is then gone. */
  predicate Bereft(s: Sys, tids: set<nat>, log: seq<Exec>) {
    && Idle(s) && s.clock == 0 && s.log == log && s.committed == tids && s.replies.Keys == tids
    && s.readers == map[1 := Looking(REQUEST, ID, Some(ID))]
  }

  lemma Purged(acts: seq<Action>, s0: Sys) returns (s: Sys)
    requires StateAfter(0, acts) == Some(s0) && OneJob(s0)
    ensures StateAfter(0, acts + [Conflict(1, REQUEST, ID)] + [Snapshot(1, Some(ID))] + [Run(2, PURGE)] + [Commit(2, true)]) == Some(s)
    ensures Bereft(s, {0, 2}, [Exec(0, INSERT), Exec(2, PURGE)]) && s.rows == map[]
  {
    InputsAreValid();
    assert HoldsKey(s0.rows, ID, NAME, NAME);
    LooksUp(0, acts, s0, 1, REQUEST, ID, ID);
    var s1 := s0.(readers := map[1 := Looking(REQUEST, ID, Some(ID))]);
    RunAlone(0, acts + [Conflict(1, REQUEST, ID)] + [Snapshot(1, Some(ID))], s1, 2, PURGE, ID);
    s := Transacted(s1, 2, PURGE);
  }

  lemma TakenOver(acts: seq<Action>, s0: Sys) returns (s: Sys)
    requires StateAfter(0, acts) == Some(s0) && Bereft(s0, {0, 2}, [Exec(0, INSERT), Exec(2, PURGE)]) && s0.rows == map[]
    ensures StateAfter(0, acts + [Run(3, TAKEOVER)] + [Commit(3, true)]) == Some(s)
    ensures Bereft(s, {0, 2, 3}, [Exec(0, INSERT), Exec(2, PURGE), Exec(3, TAKEOVER)]) && s.rows == map[OTHER_ID := NewRow(TAKEOVER)]
  {
    InputsAreValid();
    RunAlone(0, acts, s0, 3, TAKEOVER, OTHER_ID);
    s := Transacted(s0, 3, TAKEOVER);
    assert s0.log + [Exec(3, TAKEOVER)] == [Exec(0, INSERT), Exec(2, PURGE), Exec(3, TAKEOVER)];
  }

  /** From the empty table, after an enqueue: another enqueue meets a conflict and its fallback takes its
      snapshot; the row is deleted, a third enqueue takes the key over, and the fallback fails although
      the key is taken. */
  lemma MissedTakeoverRun() returns (acts: seq<Action>)
    ensures StateAfter(0, acts).Some? && OneJob(StateAfter(0, acts).value)
    ensures var end := StateAfter(0, acts + [Conflict(1, REQUEST, ID)] + [Snapshot(1, Some(ID))] + [Run(2, PURGE)] + [Commit(2, true)]
                                     + [Run(3, TAKEOVER)] + [Commit(3, true)] + [Fallback(1)]);
            && end.Some? && KeyTaken(end.value.rows, NAME, NAME) && 1 in end.value.replies && end.value.replies[1] == Errs
  {
    var s;
    acts, s := Enqueued();
    var s1 := Purged(acts, s);
    var acts1 := acts + [Conflict(1, REQUEST, ID)] + [Snapshot(1, Some(ID))] + [Run(2, PURGE)] + [Commit(2, true)];
    var s2 := TakenOver(acts1, s1);
    InputsAreValid();
    Refusals.More(0, acts1 + [Run(3, TAKEOVER)] + [Commit(3, true)], s2, Fallback(1));
    assert HoldsKey(s2.rows, OTHER_ID, NAME, NAME);
  }
}
