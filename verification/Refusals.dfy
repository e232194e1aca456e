/** Refused lease operations among concurrent transactions. An update that finds its row's condition
    false does not wait for an uncommitted version of that row, so a refusal need not be the last word. */
module Refusals {
  import opened Base
  import opened Errors
  import opened Rows
  import opened Lifecycle
  import opened Transactions

  // ----- Undecided grants -----

  /** The statement grants the lease: the claim that drew the token, or a heartbeat with it. */
  predicate GrantsLease(e: Event, id: Bytes, token: Bytes) {
    || (e.Claim? && e.got == Some(id) && e.token == token)
    || (e.Heartbeat? && e.id == id && e.token == token)
  }

  /** The statement at k grants the lease, its transaction is still open, perhaps with its client in doubt,
      and the expiry that it granted has not passed. */
  predicate UndecidedAt(s: Sys, k: nat, id: Bytes, token: Bytes) {
    && k < |s.log| && s.log[k].tid in s.open && GrantsLease(s.log[k].event, id, token)
    && s.clock < s.log[k].event.at + s.log[k].event.lease
  }

  predicate Undecided(s: Sys, id: Bytes, token: Bytes) { exists k :: 0 <= k < |s.log| && UndecidedAt(s, k, id, token) }

  /** The version that the statement leaves on its row. */
  predicate LeaseVersion(s: Sys, x: Exec, id: Bytes, token: Bytes)
    requires GrantsLease(x.event, id, token)
  {
    && id in s.locks && s.locks[id] == x.tid && id in s.versions && s.versions[id].Some?
    && s.versions[id].value.state == Running && s.versions[id].value.token == Some(token)
    && s.versions[id].value.leaseUntil == Some(x.event.at + x.event.lease)
  }

  /** Open grants stand on the row versions, for every lease. */
  predicate GrantsStand(s: Sys, id: Bytes, token: Bytes) {
    forall k :: 0 <= k < |s.log| && s.log[k].tid in s.open && GrantsLease(s.log[k].event, id, token) ==>
      LeaseVersion(s, s.log[k], id, token)
  }

  /** A running version was made by an open grant. */
  predicate VersionGranted(s: Sys, id: Bytes, token: Bytes) {
    id in s.versions && s.versions[id].Some? && s.versions[id].value.state == Running && s.versions[id].value.token == Some(token) ==>
      exists k :: 0 <= k < |s.log| && GrantsLease(s.log[k].event, id, token) && LeaseVersion(s, s.log[k], id, token)
  }

  predicate GrantsKnown(s: Sys, id: Bytes, token: Bytes) { GrantsStand(s, id, token) && VersionGranted(s, id, token) }

  /** Only a grant makes a running version, with its own token and expiry. */
  lemma GrantedVersion(rows: Table, e: Event, id: Bytes, token: Bytes)
    requires Effective(rows, e) && id in Footprint(e) && (e.Claim? ==> Picked(rows, e))
    ensures GrantsLease(e, id, token) ==>
      (id in Next(rows, e) && Next(rows, e)[id].state == Running && Next(rows, e)[id].token == Some(token)
       && Next(rows, e)[id].leaseUntil == Some(e.at + e.lease))
    ensures id in Next(rows, e) && Next(rows, e)[id].state == Running && Next(rows, e)[id].token == Some(token) ==> GrantsLease(e, id, token)
  {
    RowStep(rows, e, id);
  }

  lemma GrantFootprint(e: Event, id: Bytes, token: Bytes)
    requires GrantsLease(e, id, token)
    ensures id in Footprint(e)
  {
  }

  lemma NewVersion(s: Sys, rows: Table, x: Exec, id: Bytes, token: Bytes)
    requires Effective(rows, x.event) && id in Footprint(x.event) && (x.event.Claim? ==> Picked(rows, x.event))
    requires s.log != [] && s.log[|s.log| - 1] == x && id in s.locks && s.locks[id] == x.tid
    requires id in s.versions && s.versions[id] == VersionAfter(rows, x.event, id)
    ensures GrantsLease(x.event, id, token) ==> LeaseVersion(s, x, id, token)
    ensures VersionGranted(s, id, token)
  {
    GrantedVersion(rows, x.event, id, token);
  }

  /** The statement's own version of a row. */
  lemma OwnVersion(s: Sys, tid: nat, e: Event, id: Bytes, token: Bytes)
    requires Shape(s) && CanRun(s, tid, e) && id in Footprint(e)
    ensures GrantsLease(e, id, token) ==> LeaseVersion(Do(s, Run(tid, e)), Exec(tid, e), id, token)
    ensures VersionGranted(Do(s, Run(tid, e)), id, token)
  {
    FootprintUnlocked(s, tid, e);
    AfterRun(s, tid, e, id);
    NewVersion(Do(s, Run(tid, e)), s.rows, Exec(tid, e), id, token);
  }

  lemma RunKeepsStand(s: Sys, tid: nat, e: Event, id: Bytes, token: Bytes)
    requires Shape(s) && CanRun(s, tid, e) && GrantsStand(s, id, token)
    ensures GrantsStand(Do(s, Run(tid, e)), id, token)
  {
    var s' := Do(s, Run(tid, e));
    FootprintUnlocked(s, tid, e);
    AfterRun(s, tid, e, id);
    forall k | 0 <= k < |s'.log| && s'.log[k].tid in s'.open && GrantsLease(s'.log[k].event, id, token)
      ensures LeaseVersion(s', s'.log[k], id, token)
    {
      if k == |s.log| {
        GrantFootprint(e, id, token);
        OwnVersion(s, tid, e, id, token);
      } else {
        assert s'.log[k] == s.log[k] && s.log[k].tid in s.open;
      }
    }
  }

  lemma RunKeepsGrants(s: Sys, tid: nat, e: Event, id: Bytes, token: Bytes)
    requires Shape(s) && CanRun(s, tid, e) && GrantsKnown(s, id, token)
    ensures GrantsKnown(Do(s, Run(tid, e)), id, token)
  {
    RunKeepsStand(s, tid, e, id, token);
    if id in Footprint(e) {
      OwnVersion(s, tid, e, id, token);
    } else {
      AfterRun(s, tid, e, id);
      assert forall k :: 0 <= k < |s.log| ==> Do(s, Run(tid, e)).log[k] == s.log[k];
    }
  }

  lemma EndKeepsGrants(s: Sys, a: Action, id: Bytes, token: Bytes)
    requires Shape(s) && Enabled(s, a) && (a.Commit? || a.Abort?) && GrantsKnown(s, id, token)
    ensures GrantsKnown(Do(s, a), id, token)
  {
    AfterRelease(s, a, id);
  }

  lemma {:induction false} AlwaysGrantsKnown(now: int, acts: seq<Action>, id: Bytes, token: Bytes)
    requires StateAfter(now, acts).Some?
    ensures GrantsKnown(StateAfter(now, acts).value, id, token)
  {
    if acts != [] {
      var before, a := acts[..|acts| - 1], acts[|acts| - 1];
      AlwaysGrantsKnown(now, before, id, token);
      Reachable(now, before);
      if a.Run? {
        RunKeepsGrants(StateAfter(now, before).value, a.tid, a.event, id, token);
      } else if a.Commit? || a.Abort? {
        EndKeepsGrants(StateAfter(now, before).value, a, id, token);
      }
    }
  }

  /** What uncommitted versions hold is what callers have under way: a lease is live on an uncommitted
      version exactly when a claim or heartbeat of it is undecided and its expiry still to come. */
  lemma InFlightIsUndecided(now: int, acts: seq<Action>, s: Sys, id: Bytes, token: Bytes)
    requires StateAfter(now, acts) == Some(s)
    ensures InFlight(s, id, token) <==> Undecided(s, id, token)
  {
    AlwaysGrantsKnown(now, acts, id, token);
    Reachable(now, acts);
    if InFlight(s, id, token) {
      var k :| 0 <= k < |s.log| && GrantsLease(s.log[k].event, id, token) && LeaseVersion(s, s.log[k], id, token);
      assert UndecidedAt(s, k, id, token);
    }
  }

  // ----- Refusals -----

  /** An uncommitted version of the row honours the lease. */
  predicate InFlight(s: Sys, id: Bytes, token: Bytes) {
    id in s.versions && s.versions[id].Some? && Live(s.versions[id].value, token, s.clock)
  }

  predicate LiveNow(s: Sys, id: Bytes, token: Bytes) { id in s.rows && Live(s.rows[id], token, s.clock) }

  /** A drawn token that no committed and no uncommitted version honours. */
  predicate Fenced(s: Sys, id: Bytes, token: Bytes) {
    token in Tokens(Events(s.log)) && !LiveNow(s, id, token) && !InFlight(s, id, token)
  }

  /** The action is a use of the lease that the table accepts. */
  predicate Accepts(s: Sys, a: Action, id: Bytes, token: Bytes) {
    Enabled(s, a) && a.Run? && LeaseUse(a.event) && a.event.id == id && a.event.token == token
  }

  /** No update brings a dead lease back to life, and a claim gives its row another token. */
  lemma ChangeStaysDead(rows: Table, e: Event, id: Bytes, token: Bytes)
    requires id in rows ==> !Live(rows[id], token, e.at)
    requires e.Claim? ==> e.token != token
    ensures id in Next(rows, e) ==> !Live(Next(rows, e)[id], token, e.at)
  {
    RowStep(rows, e, id);
  }

  lemma FencedStep(s: Sys, a: Action, id: Bytes, token: Bytes)
    requires Shape(s) && Enabled(s, a) && Fenced(s, id, token)
    ensures Fenced(Do(s, a), id, token)
  {
    if a.Run? {
      TokensGrow(s.log, Exec(a.tid, a.event));
      AfterRun(s, a.tid, a.event, id);
      ChangeStaysDead(s.rows, a.event, id, token);
    } else if a.Commit? || a.Abort? {
      AfterRelease(s, a, id);
      if a.Commit? {
        OverlayLook(s, {a.tid}, id);
      }
    }
  }

  lemma {:induction false} FencedStays(now: int, acts: seq<Action>, more: seq<Action>, id: Bytes, token: Bytes)
    requires StateAfter(now, acts).Some? && Fenced(StateAfter(now, acts).value, id, token)
    requires StateAfter(now, acts + more).Some?
    ensures Fenced(StateAfter(now, acts + more).value, id, token)
    decreases |more|
  {
    if more == [] {
      assert acts + more == acts;
    } else {
      var less := more[..|more| - 1];
      assert (acts + more)[..|acts + more| - 1] == acts + less;
      FencedStays(now, acts, less, id, token);
      Reachable(now, acts + less);
      FencedStep(StateAfter(now, acts + less).value, more[|more| - 1], id, token);
    }
  }

  /** Some continuation of the run accepts a use of the lease. */
  ghost predicate AcceptedLater(now: int, acts: seq<Action>, id: Bytes, token: Bytes) {
    exists more, a :: StateAfter(now, acts + more).Some? && Accepts(StateAfter(now, acts + more).value, a, id, token)
  }

  lemma {:induction false} Bound(tids: set<nat>) returns (b: nat)
    ensures forall t :: t in tids ==> t < b
  {
    if tids == {} {
      b := 0;
    } else {
      var t :| t in tids;
      var rest := Bound(tids - {t});
      b := if t < rest then rest else t + 1;
      assert forall u :: u in tids ==> u == t || u in tids - {t};
    }
  }

  lemma FreshTid(s: Sys) returns (t: nat)
    ensures NewTid(s, t)
  {
    var used := (set i | 0 <= i < |s.log| :: s.log[i].tid) + s.open + s.committed + s.readers.Keys + s.replies.Keys;
    t := Bound(used);
    forall i | 0 <= i < |s.log| ensures s.log[i].tid != t {
      assert s.log[i].tid in used;
    }
    assert t !in used;
  }

  lemma More(now: int, acts: seq<Action>, s: Sys, a: Action)
    requires StateAfter(now, acts) == Some(s) && s.versions.Keys == s.locks.Keys && Enabled(s, a)
    ensures StateAfter(now, acts + [a]) == Some(Do(s, a))
  {
    assert (acts + [a])[..|acts|] == acts;
  }

  /** With the other transaction's commit the lease is live again, and its next use is accepted. */
  lemma CommitRevives(now: int, acts: seq<Action>, s: Sys, id: Bytes, token: Bytes)
    requires StateAfter(now, acts) == Some(s) && InFlight(s, id, token) && ClockOk(s.clock)
    ensures AcceptedLater(now, acts, id, token)
  {
    Reachable(now, acts);
    var commit := Commit(s.locks[id], true);
    More(now, acts, s, commit);
    var s' := Do(s, commit);
    AfterRelease(s, commit, id);
    OverlayLook(s, {s.locks[id]}, id);
    var t := FreshTid(s');
    assert Accepts(s', Run(t, Event.Complete(s.clock, id, token)), id, token);
    assert acts + [commit] == acts + [commit];
  }

  /** Exactly when a refusal is not final: some continuation accepts the refused lease again if and only
      if, at the refusal, a heartbeat of that lease or the claim that drew it is undecided and the expiry
      that it grants has not passed. */
  lemma RefusalIsFinalIff(now: int, acts: seq<Action>, s: Sys, tid: nat, e: Event)
    requires StateAfter(now, acts) == Some(s) && LeaseUse(e) && Enabled(s, Refuse(tid, e))
    requires e.token in Tokens(Events(s.log))
    ensures AcceptedLater(now, acts + [Refuse(tid, e)], e.id, e.token) <==> Undecided(s, e.id, e.token)
  {
    Reachable(now, acts);
    InFlightIsUndecided(now, acts, s, e.id, e.token);
    var refused := acts + [Refuse(tid, e)];
    More(now, acts, s, Refuse(tid, e));
    if InFlight(s, e.id, e.token) {
      CommitRevives(now, refused, Do(s, Refuse(tid, e)), e.id, e.token);
    } else {
      forall more, a | StateAfter(now, refused + more).Some?
        ensures !Accepts(StateAfter(now, refused + more).value, a, e.id, e.token)
      {
        FencedStays(now, refused, more, e.id, e.token);
      }
    }
  }

  /** The call was answered, and not with an unknown outcome. */
  predicate Answered(s: Sys, tid: nat) { tid in s.replies && s.replies[tid] != InDoubt }

  /** A refusal is final once the claim and all earlier heartbeats of the lease have had definite answers. */
  lemma RefusalIsFinalOnceAnswered(now: int, acts: seq<Action>, s: Sys, tid: nat, e: Event)
    requires StateAfter(now, acts) == Some(s) && LeaseUse(e) && Enabled(s, Refuse(tid, e))
    requires e.token in Tokens(Events(s.log))
    requires forall k :: 0 <= k < |s.log| && GrantsLease(s.log[k].event, e.id, e.token) ==> Answered(s, s.log[k].tid)
    ensures !AcceptedLater(now, acts + [Refuse(tid, e)], e.id, e.token)
  {
    AlwaysTruthful(now, acts);
    RefusalIsFinalIff(now, acts, s, tid, e);
  }

  /** Transaction h has granted the lease until `until` and not committed. */
  predicate Slow(s: Sys, h: nat, id: Bytes, token: Bytes, until: int) {
    && id in s.rows && s.rows[id].state != Canceled && h in s.open
    && id in s.locks && s.locks[id] == h && id in s.versions && s.versions[id].Some?
    && s.versions[id].value.state == Running && s.versions[id].value.token == Some(token)
    && s.versions[id].value.leaseUntil == Some(until)
  }

  lemma SlowHeartbeat(s: Sys, h: nat, id: Bytes, token: Bytes, lease: int)
    requires Shape(s) && LiveNow(s, id, token) && id !in s.locks && LeaseOk(lease) && ClockOk(s.clock) && NewTid(s, h)
    ensures var beat := Event.Heartbeat(s.clock, id, token, lease);
            && Enabled(s, Run(h, beat)) && Slow(Do(s, Run(h, beat)), h, id, token, s.clock + lease)
  {
    var beat := Event.Heartbeat(s.clock, id, token, lease);
    AfterRun(s, h, beat, id);
    RowStep(s.rows, beat, id);
  }

  /** As long as the committed row does not honour it, Complete with that lease is refused. */
  lemma RefusedMeanwhile(s: Sys, h: nat, id: Bytes, token: Bytes, until: int, r: nat)
    requires Slow(s, h, id, token, until) && !LiveNow(s, id, token) && ClockOk(s.clock) && NewTid(s, r) && Shape(s)
    ensures var e := Event.Complete(s.clock, id, token);
            && Enabled(s, Refuse(r, e)) && Enabled(Do(s, Refuse(r, e)), Answer(r, true))
            && var s' := Do(Do(s, Refuse(r, e)), Answer(r, true));
               && s'.replies == s.replies[r := Rejected(id, ErrLeaseLost)] && s'.readers == s.readers - {r}
               && s'.(replies := s.replies, readers := s.readers) == s
  {
  }

  lemma AcceptedAfterwards(now: int, acts: seq<Action>, s: Sys, h: nat, id: Bytes, token: Bytes, until: int, c: nat)
    requires StateAfter(now, acts) == Some(s) && Slow(s, h, id, token, until) && s.clock < until && ClockOk(s.clock)
    requires NewTid(s, c)
    ensures var end := StateAfter(now, acts + [Commit(h, true)]);
            && end.Some? && end.value.clock == s.clock && end.value.replies == Tell(s, h, Succeeds)
            && Accepts(end.value, Run(c, Event.Complete(s.clock, id, token)), id, token)
  {
    Reachable(now, acts);
    More(now, acts, s, Commit(h, true));
    AfterRelease(s, Commit(h, true), id);
    OverlayLook(s, {h}, id);
  }

  lemma RefusedInBetween(now: int, acts: seq<Action>, s: Sys, h: nat, id: Bytes, token: Bytes, until: int, r: nat, c: nat)
    requires StateAfter(now, acts) == Some(s) && Slow(s, h, id, token, until) && ClockOk(s.clock)
    requires !LiveNow(s, id, token) && s.clock < until && NewTid(s, r) && NewTid(s, c) && r != c
    ensures var e := Event.Complete(s.clock, id, token);
            var end := StateAfter(now, acts + [Refuse(r, e)] + [Answer(r, true)] + [Commit(h, true)]);
            && end.Some? && end.value.clock == s.clock
            && (h !in s.replies ==> end.value.replies == s.replies[r := Rejected(id, ErrLeaseLost)][h := Succeeds])
            && (h in s.replies ==> end.value.replies == s.replies[r := Rejected(id, ErrLeaseLost)])
            && Accepts(end.value, Run(c, e), id, token)
  {
    var e := Event.Complete(s.clock, id, token);
    Reachable(now, acts);
    RefusedMeanwhile(s, h, id, token, until, r);
    var s1, acts1 := Do(s, Refuse(r, e)), acts + [Refuse(r, e)];
    More(now, acts, s, Refuse(r, e));
    More(now, acts1, s1, Answer(r, true));
    AcceptedAfterwards(now, acts1 + [Answer(r, true)], Do(s1, Answer(r, true)), h, id, token, until, c);
  }

  /** Such a refusal happens: a heartbeat extends a live lease and is slow to commit, the old expiry
      passes, Complete with the same lease is answered with ErrLeaseLost, the heartbeat commits, and at
      the same reading of the clock Complete with that lease is accepted. */
  lemma RefusedThenAccepted(now: int, acts: seq<Action>, s: Sys, id: Bytes, token: Bytes, lease: int, later: int,
                            h: nat, r: nat, c: nat)
    requires StateAfter(now, acts) == Some(s) && LiveNow(s, id, token) && id !in s.locks
    requires LeaseOk(lease) && ClockOk(s.clock) && ClockOk(later)
    requires s.clock < s.rows[id].leaseUntil.value <= later < s.clock + lease
    requires NewTid(s, h) && NewTid(s, r) && NewTid(s, c) && h != r && r != c && h != c
    ensures var e := Event.Complete(later, id, token);
            var end := StateAfter(now, acts + [Run(h, Event.Heartbeat(s.clock, id, token, lease))] + [Tick(later)]
                                       + [Refuse(r, e)] + [Answer(r, true)] + [Commit(h, true)]);
            && end.Some? && end.value.clock == later
            && end.value.replies == s.replies[r := Rejected(id, ErrLeaseLost)][h := Succeeds]
            && Accepts(end.value, Run(c, e), id, token)
  {
    Reachable(now, acts);
    SlowHeartbeat(s, h, id, token, lease);
    More(now, acts, s, Run(h, Event.Heartbeat(s.clock, id, token, lease)));
    var acts1 := acts + [Run(h, Event.Heartbeat(s.clock, id, token, lease))];
    ExpiredMeanwhile(now, acts1, StateAfter(now, acts1).value, h, id, token, s.clock + lease, later, r, c);
  }

  lemma ExpiredMeanwhile(now: int, acts: seq<Action>, s: Sys, h: nat, id: Bytes, token: Bytes, until: int, later: int,
                         r: nat, c: nat)
    requires StateAfter(now, acts) == Some(s) && Slow(s, h, id, token, until) && s.clock <= later && ClockOk(later)
    requires s.rows[id].leaseUntil.Some? && s.rows[id].leaseUntil.value <= later < until
    requires NewTid(s, r) && NewTid(s, c) && r != c && h !in s.replies
    ensures var e := Event.Complete(later, id, token);
            var end := StateAfter(now, acts + [Tick(later)] + [Refuse(r, e)] + [Answer(r, true)] + [Commit(h, true)]);
            && end.Some? && end.value.clock == later
            && end.value.replies == s.replies[r := Rejected(id, ErrLeaseLost)][h := Succeeds]
            && Accepts(end.value, Run(c, e), id, token)
  {
    Reachable(now, acts);
    More(now, acts, s, Tick(later));
    RefusedInBetween(now, acts + [Tick(later)], Do(s, Tick(later)), h, id, token, until, r, c);
  }

  // ----- Answers of the second statement -----

  /** What a refused operation is answered, by the row that its second statement sees. */
  lemma RefusedAnswers(s: Sys, tid: nat, told: bool)
    requires s.versions.Keys == s.locks.Keys && Enabled(s, Answer(tid, told)) && s.readers[tid].Refused?
    ensures var e := s.readers[tid].event; var reply := Do(s, Answer(tid, told)).replies[tid];
            && (e.id !in s.rows ==> reply == Rejected(e.id, ErrNotFound))
            && (e.id in s.rows && LeaseUse(e) ==> reply == Rejected(e.id, if s.rows[e.id].state == Canceled then ErrCanceled else ErrLeaseLost))
            && (e.id in s.rows && e.Cancel? && s.rows[e.id].state == Canceled ==>
                  reply == if told then Returned(JobOf(s.rows[e.id])) else InDoubt)
            && (e.id in s.rows && ((e.Cancel? && s.rows[e.id].state != Canceled) || e.Redrive?) ==> reply == Rejected(e.id, ErrStateConflict))
  {
  }

  // ----- ErrCanceled -----

  /** No version of a canceled row is pending except its deletion. */
  predicate CanceledVersions(s: Sys) {
    forall id :: id in s.versions && id in s.rows && s.rows[id].state == Canceled ==> s.versions[id].None?
  }

  predicate CanceledOrGone(s: Sys, id: Bytes) {
    && id in InsertedIds(Events(s.log))
    && (id in s.rows ==> s.rows[id].state == Canceled)
    && (id !in s.rows && id in s.versions ==> s.versions[id].None?)
  }

  predicate CanceledAnswers(s: Sys) {
    forall t :: t in s.replies && s.replies[t].Rejected? && s.replies[t].sentinel == ErrCanceled ==> CanceledOrGone(s, s.replies[t].id)
  }

  lemma CanceledVersionsStep(s: Sys, a: Action)
    requires Shape(s) && Enabled(s, a) && CanceledVersions(s)
    ensures CanceledVersions(Do(s, a))
  {
    var s' := Do(s, a);
    forall id | id in s'.versions && id in s'.rows && s'.rows[id].state == Canceled ensures s'.versions[id].None? {
      if a.Run? {
        FootprintUnlocked(s, a.tid, a.event);
        AfterRun(s, a.tid, a.event, id);
        RowStep(s.rows, a.event, id);
      } else if a.Commit? || a.Abort? {
        AfterRelease(s, a, id);
        if a.Commit? {
          OverlayLook(s, {a.tid}, id);
        }
      }
    }
  }

  lemma CanceledStays(s: Sys, a: Action, id: Bytes)
    requires Shape(s) && Enabled(s, a) && CanceledVersions(s) && CanceledOrGone(s, id)
    ensures CanceledOrGone(Do(s, a), id)
  {
    if a.Run? {
      InsertedIdsGrow(s.log, Exec(a.tid, a.event));
      FootprintUnlocked(s, a.tid, a.event);
      AfterRun(s, a.tid, a.event, id);
      RowStep(s.rows, a.event, id);
    } else if a.Commit? || a.Abort? {
      AfterRelease(s, a, id);
      if a.Commit? {
        OverlayLook(s, {a.tid}, id);
      }
    }
  }

  /** Replies that are in the new state were there before, or are the answer of this step. */
  lemma NewAnswer(s: Sys, a: Action, t: nat)
    requires s.versions.Keys == s.locks.Keys && Enabled(s, a) && t in Do(s, a).replies
    requires Do(s, a).replies[t].Rejected? && Do(s, a).replies[t].sentinel == ErrCanceled
    ensures (t in s.replies && s.replies[t] == Do(s, a).replies[t])
            || (Do(s, a).replies[t].id in s.rows && s.rows[Do(s, a).replies[t].id].state == Canceled)
  {
  }

  lemma {:induction false} AlwaysCanceled(now: int, acts: seq<Action>)
    requires StateAfter(now, acts).Some?
    ensures CanceledVersions(StateAfter(now, acts).value) && CanceledAnswers(StateAfter(now, acts).value)
  {
    if acts != [] {
      var before, a := acts[..|acts| - 1], acts[|acts| - 1];
      var s, s' := StateAfter(now, before).value, StateAfter(now, acts).value;
      AlwaysCanceled(now, before);
      Reachable(now, before);
      CanceledVersionsStep(s, a);
      forall t | t in s'.replies && s'.replies[t].Rejected? && s'.replies[t].sentinel == ErrCanceled
        ensures CanceledOrGone(s', s'.replies[t].id)
      {
        NewAnswer(s, a, t);
        var id := s'.replies[t].id;
        if id in s.rows {
          RowsWereInserted(now, before, id);
        }
        CanceledStays(s, a, id);
      }
    }
  }

  /** A refusal reported as ErrCanceled is true and final among all interleavings: whatever commits later,
      the row stays canceled as long as it exists, and no use of any lease on it is accepted. */
  lemma CanceledAnswerIsFinal(now: int, acts: seq<Action>, s: Sys, t: nat, id: Bytes, a: Action, token: Bytes)
    requires StateAfter(now, acts) == Some(s) && t in s.replies && s.replies[t] == Rejected(id, ErrCanceled)
    ensures id in s.rows ==> s.rows[id].state == Canceled
    ensures !Accepts(s, a, id, token)
  {
    AlwaysCanceled(now, acts);
    assert CanceledOrGone(s, id);
  }
}
