/** Claim order, drain, and bounded but complete reaping (claimSQL of pkg/jobs/lifecycle.go). */
module Queueing {
  import opened Base
  import opened Rows
  import opened Order
  import opened Lifecycle
  import opened Stored

  // ----- One claim -----

  lemma ReapedCount(rows: Table, e: Event)
    requires e.Claim? && ClaimPicks(rows, e)
    ensures |e.reaped| == Min(100, |ExhaustedKeys(rows, e.queue, e.at, e.skip)|)
  {
    FirstCount(ExhaustedKeys(rows, e.queue, e.at, e.skip), 100);
  }

  function ChangedRows(rows: Table, e: Event): set<Bytes> {
    set id | id in rows && id in Next(rows, e) && Next(rows, e)[id] != rows[id]
  }

  /** One claim changes at most 101 rows: at most 100 that it reaps and, apart from those, the one it picks. */
  lemma ClaimTouchesAtMost101(rows: Table, e: Event)
    requires e.Claim? && ClaimPicks(rows, e)
    ensures |ChangedRows(rows, e)| <= 101 && |e.reaped| <= 100
    ensures e.got.Some? ==> e.got.value !in e.reaped
    ensures forall id :: id in ChangedRows(rows, e) ==> id !in e.skip
  {
    ReapedCount(rows, e);
    PickedRows(rows, e);
    var touched := e.reaped + (if e.got.Some? then {e.got.value} else {});
    assert ChangedRows(rows, e) <= touched;
    SubsetCount(ChangedRows(rows, e), touched);
  }

  lemma {:induction false} SubsetCount(a: set<Bytes>, b: set<Bytes>)
    requires a <= b
    ensures |a| <= |b|
  {
    if a != {} {
      var x :| x in a;
      SubsetCount(a - {x}, b - {x});
    }
  }

  /** The claimed row sorts before every other eligible unlocked row by due time, creation and ID. */
  lemma ClaimIsLeast(rows: Table, e: Event, other: Bytes)
    requires e.Claim? && ClaimPicks(rows, e)
    requires other in rows && other !in e.skip && Eligible(rows[other], e.queue, e.at)
    ensures e.got.Some? && e.got.value in rows
    ensures e.got.value == other || Less(DueKey(e.got.value, rows[e.got.value]), DueKey(other, rows[other]))
  {
    assert other in EligibleKeys(rows, e.queue, e.at, e.skip);
  }

  // ----- Reaping -----

  /** Rows of the queue that were already expired and exhausted at the given time. */
  function Stuck(rows: Table, queue: Bytes, since: int): set<Bytes> {
    set id | id in rows && Exhausted(rows[id], queue, since)
  }

  /** Leases granted later expire later, so no event adds a stuck row. */
  lemma StuckShrinks(rows: Table, e: Event, queue: Bytes, since: int)
    requires since <= e.at && Admissible(e) && (e.Claim? ==> Picked(rows, e))
    ensures Stuck(Next(rows, e), queue, since) <= Stuck(rows, queue, since)
    ensures e.Claim? ==> Stuck(Next(rows, e), queue, since) !! e.reaped
  {
  }

  /** An unhindered claim reaps every stuck row or 100 of them: rows that expired earlier sort first. */
  lemma ReapsStuckFirst(rows: Table, e: Event, since: int)
    requires e.Claim? && ClaimPicks(rows, e) && since <= e.at
    requires Stuck(rows, e.queue, since) !! e.skip
    ensures Stuck(rows, e.queue, since) <= e.reaped || (e.reaped <= Stuck(rows, e.queue, since) && |e.reaped| == 100)
  {
    var keys := ExhaustedKeys(rows, e.queue, e.at, e.skip);
    if x :| x in Stuck(rows, e.queue, since) && x !in e.reaped {
      assert x in keys;
      FirstCount(keys, 100);
      LeftOut(keys, 100, x);
      forall y | y in e.reaped ensures y in Stuck(rows, e.queue, since) {
        DueFirst(rows, e.queue, e.at, since, y, x);
      }
    }
  }

  lemma DueFirst(rows: Table, queue: Bytes, at: int, since: int, y: Bytes, x: Bytes)
    requires y in rows && x in rows && Exhausted(rows[y], queue, at) && Exhausted(rows[x], queue, since)
    requires Less(DueKey(y, rows[y]), DueKey(x, rows[x]))
    ensures Exhausted(rows[y], queue, since)
  {
  }

  /** Claims on the queue between two points that found none of the stuck rows locked. */
  function FreeClaims(t: Trace, i: nat, j: nat, queue: Bytes, since: int): nat
    requires i <= j <= |t|
    decreases j
  {
    if i == j then 0
    else FreeClaims(t, i, j - 1, queue, since)
         + if t[j - 1].Claim? && t[j - 1].queue == queue && Stuck(Before(t, j - 1), queue, since) !! t[j - 1].skip then 1 else 0
  }

  lemma FewerStuck(before: set<Bytes>, after: set<Bytes>, reaped: set<Bytes>)
    requires after <= before && after !! reaped
    requires before <= reaped || (reaped <= before && |reaped| == 100)
    ensures after == {} || |after| <= |before| - 100
  {
    if !(before <= reaped) {
      SubsetCount(after, before - reaped);
      assert |before - reaped| == |before| - |reaped|;
    }
  }

  /** Reaping is complete: whatever else happens meanwhile, each unhindered claim removes 100 of the
      rows that were expired and exhausted at the start, so n of them are gone after ceil(n / 100)
      claims, whether or not those claims returned a job. */
  lemma {:induction false} ReapingProgress(t: Trace, i: nat, j: nat, queue: Bytes)
    requires Valid(t) && i <= j <= |t| && i < |t|
    ensures var left := Stuck(Before(t, j), queue, t[i].at);
            left == {} || |left| + 100 * FreeClaims(t, i, j, queue, t[i].at) <= |Stuck(Before(t, i), queue, t[i].at)|
    decreases j
  {
    if i < j {
      var since := t[i].at;
      ReapingProgress(t, i, j - 1, queue);
      StepAt(t, j - 1);
      PickedAt(t, j - 1);
      ClockMonotone(t, i, j - 1);
      AdmissibleAt(t, j - 1);
      var rows, e := Before(t, j - 1), t[j - 1];
      StuckShrinks(rows, e, queue, since);
      SubsetCount(Stuck(Next(rows, e), queue, since), Stuck(rows, queue, since));
      if e.Claim? && e.queue == queue && Stuck(rows, queue, since) !! e.skip {
        GuardAt(t, j - 1);
        ReapsStuckFirst(rows, e, since);
        FewerStuck(Stuck(rows, queue, since), Stuck(Next(rows, e), queue, since), e.reaped);
      }
    }
  }

  lemma AdmissibleAt(t: Trace, i: nat)
    requires Valid(t) && i < |t|
    ensures Admissible(t[i])
  {
    assert Step(t, i);
  }

  lemma GuardAt(t: Trace, i: nat)
    requires Valid(t) && i < |t|
    ensures Guard(Before(t, i), t[i])
  {
    assert Step(t, i);
  }

  lemma AllReaped(t: Trace, i: nat, j: nat, queue: Bytes)
    requires Valid(t) && i <= j <= |t| && i < |t|
    requires 100 * FreeClaims(t, i, j, queue, t[i].at) >= |Stuck(Before(t, i), queue, t[i].at)|
    ensures Stuck(Before(t, j), queue, t[i].at) == {}
  {
    ReapingProgress(t, i, j, queue);
  }

  /** What a reaped row looks like afterwards. */
  lemma ReapedRowsAreDead(rows: Table, e: Event, id: Bytes)
    requires e.Claim? && Picked(rows, e) && id in e.reaped
    ensures id in Next(rows, e) && Next(rows, e)[id].state == Dead && Next(rows, e)[id].finishedAt == Some(e.at)
    ensures Next(rows, e)[id].attempts == rows[id].attempts && Next(rows, e)[id].token == None
  {
  }

  lemma DeadStep(rows: Table, e: Event, id: Bytes)
    requires id in rows && rows[id].state == Dead && (e.Claim? ==> Picked(rows, e))
    requires !(e.Redrive? && e.id == id) && !(e.Insert? && e.id == id)
    ensures id in Next(rows, e) ==> Next(rows, e)[id] == rows[id]
    ensures !(e.Claim? && e.got == Some(id))
  {
    RowStep(rows, e, id);
  }

  lemma ReapedRow(t: Trace, i: nat, id: Bytes)
    requires Valid(t) && i < |t| && t[i].Claim? && id in t[i].reaped
    ensures id in Before(t, i) && Before(t, i)[id].attempts == Before(t, i)[id].maxAttempts
    ensures id in Before(t, i + 1) && Before(t, i + 1)[id].state == Dead
    ensures Before(t, i + 1)[id].attempts == Before(t, i)[id].attempts && Before(t, i + 1)[id].token == None
    ensures Before(t, i + 1)[id].finishedAt == Some(t[i].at) && Before(t, i + 1)[id].lastError == LEASE_EXPIRED_FINAL
  {
    PickedAt(t, i);
    StepAt(t, i);
    ValidPrefix(t, i);
    RowsReadable(t[..i], id);
    ReapedRowsAreDead(Before(t, i), t[i], id);
  }

  lemma ReapedStep(t: Trace, i: nat, j: nat, id: Bytes)
    requires Valid(t) && i < j < |t| && id in Before(t, i) && !(t[j].Redrive? && t[j].id == id)
    requires id in Before(t, j) ==> Before(t, j)[id].state == Dead
    ensures id in Before(t, j + 1) ==> id in Before(t, j) && Before(t, j + 1)[id] == Before(t, j)[id]
  {
    StepAt(t, j);
    PickedAt(t, j);
    NeverReinserted(t, i, j, id);
    RowStep(Before(t, j), t[j], id);
    if id in Before(t, j) {
      DeadStep(Before(t, j), t[j], id);
    }
  }

  lemma {:induction false} DeadStaysSame(t: Trace, i: nat, j: nat, id: Bytes)
    requires Valid(t) && i < j <= |t| && id in Before(t, i) && id in Before(t, i + 1) && Before(t, i + 1)[id].state == Dead
    requires forall m :: i < m < j ==> !(t[m].Redrive? && t[m].id == id)
    ensures id in Before(t, j) ==> Before(t, j)[id] == Before(t, i + 1)[id]
    decreases j
  {
    if j > i + 1 {
      DeadStaysSame(t, i, j - 1, id);
      ReapedStep(t, i, j - 1, id);
    }
  }

  /** A reaped job had used up its attempts and its lease, and until someone redrives it, it stays dead in
      every column and is never claimed again. */
  lemma ReapedStaysDead(t: Trace, i: nat, j: nat, id: Bytes)
    requires Valid(t) && i < j < |t| && t[i].Claim? && id in t[i].reaped
    requires forall m :: i < m < j ==> !(t[m].Redrive? && t[m].id == id)
    ensures id in Before(t, i) && Before(t, i)[id].attempts == Before(t, i)[id].maxAttempts
    ensures id in Before(t, j) ==>
      && Before(t, j)[id].state == Dead && Before(t, j)[id].attempts == Before(t, i)[id].attempts
      && Before(t, j)[id].token == None && Before(t, j)[id].finishedAt == Some(t[i].at)
      && Before(t, j)[id].lastError == LEASE_EXPIRED_FINAL
    ensures !(t[j].Claim? && t[j].got == Some(id))
  {
    ReapedRow(t, i, id);
    DeadStaysSame(t, i, j, id);
    PickedAt(t, j);
  }

  // ----- Draining -----

  /** No row of the queue becomes eligible between the two times: jobs scheduled for later, retries that
      still wait and leases of other holders are all right as long as they do not fall due meanwhile. */
  predicate NothingFallsDue(rows: Table, queue: Bytes, at: int, until: int) {
    forall id :: id in rows && Eligible(rows[id], queue, until) ==> Eligible(rows[id], queue, at)
  }

  /** One row of the queue after the jobs before `todo` have been claimed and completed. */
  predicate DrainedRow(rows: Table, start: Table, todo: seq<Bytes>, queue: Bytes, at: int, until: int, id: Bytes) {
    && (id in todo ==> id in rows && id in start && rows[id] == start[id] && Eligible(start[id], queue, at))
    && (id in rows && id !in todo ==> !Eligible(rows[id], queue, until))
  }

  ghost predicate Drained(rows: Table, start: Table, todo: seq<Bytes>, queue: Bytes, at: int, until: int) {
    forall id :: DrainedRow(rows, start, todo, queue, at, until, id)
  }

  lemma DrainedKeys(rows: Table, start: Table, todo: seq<Bytes>, queue: Bytes, at: int, until: int, now: int)
    requires Drained(rows, start, todo, queue, at, until) && at <= now <= until
    ensures forall id :: id in EligibleKeys(rows, queue, now, {}) <==> id in todo
    ensures forall id :: id in todo ==> id in start && EligibleKeys(rows, queue, now, {})[id] == DueKey(id, start[id])
  {
    var keys := EligibleKeys(rows, queue, now, {});
    forall id ensures (id in keys <==> id in todo) && (id in todo ==> id in start && keys[id] == DueKey(id, start[id])) {
      assert DrainedRow(rows, start, todo, queue, at, until, id);
    }
  }

  lemma HeadIsPicked(start: Table, keys: Keys, todo: seq<Bytes>, queue: Bytes, at: int, until: int, c: Event, rows: Table)
    requires c.Claim? && c.queue == queue && c.skip == {} && at <= c.at <= until && ClaimPicks(rows, c)
    requires Drained(rows, start, todo, queue, at, until)
    requires Ascending(keys, todo) && forall id :: id in todo ==> id in start && keys[id] == DueKey(id, start[id])
    ensures c.got == if todo == [] then None else Some(todo[0])
  {
    DrainedKeys(rows, start, todo, queue, at, until, c.at);
    var now := EligibleKeys(rows, queue, c.at, {});
    if todo != [] {
      assert todo[0] in now;
      assert IsLeast(now, todo[0]) by {
        forall x | x in now && x != todo[0] ensures Less(now[todo[0]], now[x]) {
          var i :| 0 <= i < |todo| && todo[i] == x;
        }
      }
      LeastUnique(now, todo[0], Least(now));
    }
  }

  lemma ClaimAndComplete(rows: Table, start: Table, todo: seq<Bytes>, queue: Bytes, at: int, until: int, c: Event, f: Event)
    requires c.Claim? && c.queue == queue && at <= c.at && Picked(rows, c)
    requires todo != [] && c.got == Some(todo[0]) && todo[0] !in todo[1..]
    requires Drained(rows, start, todo, queue, at, until)
    requires f == Complete(f.at, todo[0], c.token) && f.at < c.at + c.lease
    ensures Drained(Next(Next(rows, c), f), start, todo[1..], queue, at, until)
  {
    forall id ensures DrainedRow(Next(Next(rows, c), f), start, todo[1..], queue, at, until, id) {
      assert DrainedRow(rows, start, todo, queue, at, until, id);
      assert id in todo <==> id == todo[0] || id in todo[1..];
      RowStep(rows, c, id);
      RowStep(Next(rows, c), f, id);
    }
  }

  /** One round of a claim-then-complete loop that is alone on the queue and finishes each job
      within its lease. */
  predicate Round(t: Trace, c: nat, queue: Bytes) {
    && c + 1 < |t| && LoneClaim(t[c], queue)
    && (t[c].got.Some? ==> t[c + 1] == Complete(t[c + 1].at, t[c].got.value, t[c].token) && t[c + 1].at < t[c].at + t[c].lease)
  }

  predicate LoneClaim(e: Event, queue: Bytes) { e.Claim? && e.queue == queue && e.skip == {} }

  lemma ClaimsHead(t: Trace, i: nat, c: nat, todo: seq<Bytes>, queue: Bytes, until: int)
    requires Valid(t) && i <= c < |t| && LoneClaim(t[c], queue) && t[c].at <= until
    requires Drained(Before(t, c), Before(t, i), todo, queue, t[i].at, until)
    requires Ascending(EligibleKeys(Before(t, i), queue, t[i].at, {}), todo)
    ensures t[c].got == if todo == [] then None else Some(todo[0])
  {
    ClockMonotone(t, i, c);
    GuardAt(t, c);
    HeadIsPicked(Before(t, i), EligibleKeys(Before(t, i), queue, t[i].at, {}), todo, queue, t[i].at, until, t[c], Before(t, c));
  }

  lemma RoundDrains(t: Trace, i: nat, c: nat, todo: seq<Bytes>, queue: Bytes, until: int)
    requires Valid(t) && i <= c && Round(t, c, queue) && todo != [] && t[c].at <= until
    requires Drained(Before(t, c), Before(t, i), todo, queue, t[i].at, until)
    requires Ascending(EligibleKeys(Before(t, i), queue, t[i].at, {}), todo)
    ensures Drained(Before(t, c + 2), Before(t, i), todo[1..], queue, t[i].at, until)
  {
    ClaimsHead(t, i, c, todo, queue, until);
    StepAt(t, c);
    StepAt(t, c + 1);
    PickedAt(t, c);
    ClockMonotone(t, i, c);
    AscendingIsDistinct(EligibleKeys(Before(t, i), queue, t[i].at, {}), todo);
    ClaimAndComplete(Before(t, c), Before(t, i), todo, queue, t[i].at, until, t[c], t[c + 1]);
  }

  /** So many rounds, one after the other. */
  predicate Loop(t: Trace, c: nat, rounds: nat, queue: Bytes)
    decreases rounds
  {
    rounds > 0 ==> Round(t, c, queue) && Loop(t, c + 2, rounds - 1, queue)
  }

  lemma LoopHead(t: Trace, c: nat, rounds: nat, queue: Bytes)
    requires Valid(t) && Loop(t, c, rounds, queue) && c + 2 * rounds < |t| && LoneClaim(t[c + 2 * rounds], queue)
    ensures LoneClaim(t[c], queue) && t[c].at <= t[c + 2 * rounds].at
  {
    ClockMonotone(t, c, c + 2 * rounds);
  }

  /** The claim returns the given job, or reports that there is none. */
  predicate Returns(e: Event, queue: Bytes, job: Option<Bytes>) { LoneClaim(e, queue) && e.got == job }

  /** The jobs of `todo`, in order, are what is left to drain. */
  ghost predicate Draining(t: Trace, i: nat, c: nat, todo: seq<Bytes>, queue: Bytes, until: int)
    requires i < |t| && c <= |t|
  {
    && Drained(Before(t, c), Before(t, i), todo, queue, t[i].at, until)
    && Ascending(EligibleKeys(Before(t, i), queue, t[i].at, {}), todo)
  }

  lemma DrainingRound(t: Trace, i: nat, c: nat, todo: seq<Bytes>, queue: Bytes, until: int)
    requires Valid(t) && i <= c && Round(t, c, queue) && todo != [] && t[c].at <= until && Draining(t, i, c, todo, queue, until)
    ensures Draining(t, i, c + 2, todo[1..], queue, until)
  {
    RoundDrains(t, i, c, todo, queue, until);
    AscendingTail(EligibleKeys(Before(t, i), queue, t[i].at, {}), todo);
  }

  lemma DrainingHead(t: Trace, i: nat, c: nat, todo: seq<Bytes>, queue: Bytes, until: int)
    requires Valid(t) && i <= c < |t| && LoneClaim(t[c], queue) && t[c].at <= until && Draining(t, i, c, todo, queue, until)
    ensures Returns(t[c], queue, if todo == [] then None else Some(todo[0]))
  {
    ClaimsHead(t, i, c, todo, queue, until);
  }

  lemma {:induction false} RoundReturns(t: Trace, i: nat, c: nat, todo: seq<Bytes>, queue: Bytes, until: int, k: nat)
    requires Valid(t) && i <= c && c + 2 * |todo| < |t| && k <= |todo| && t[c + 2 * |todo|].at <= until
    requires Draining(t, i, c, todo, queue, until)
    requires Loop(t, c, |todo|, queue) && LoneClaim(t[c + 2 * |todo|], queue)
    ensures Returns(t[c + 2 * k], queue, if k < |todo| then Some(todo[k]) else None)
    decreases k
  {
    LoopHead(t, c, |todo|, queue);
    if k == 0 {
      DrainingHead(t, i, c, todo, queue, until);
    } else {
      DrainingRound(t, i, c, todo, queue, until);
      assert c + 2 + 2 * |todo[1..]| == c + 2 * |todo| && c + 2 + 2 * (k - 1) == c + 2 * k;
      RoundReturns(t, i, c + 2, todo[1..], queue, until, k - 1);
    }
  }

  lemma StartsDrained(rows: Table, queue: Bytes, at: int, until: int, order: seq<Bytes>)
    requires NothingFallsDue(rows, queue, at, until) && order == OrderBy(EligibleKeys(rows, queue, at, {}))
    ensures Drained(rows, rows, order, queue, at, until)
  {
  }

  /** A lone claim-then-complete loop during which nothing more falls due: its k-th claim returns the
      k-th eligible job in ORDER BY order, and the one after the last reports ErrNoJob. */
  lemma DrainQueue(t: Trace, i: nat, queue: Bytes, order: seq<Bytes>, k: nat)
    requires Valid(t) && i + 2 * |order| < |t| && k <= |order|
    requires NothingFallsDue(Before(t, i), queue, t[i].at, t[i + 2 * |order|].at)
    requires order == OrderBy(EligibleKeys(Before(t, i), queue, t[i].at, {}))
    requires Loop(t, i, |order|, queue) && LoneClaim(t[i + 2 * |order|], queue)
    ensures Returns(t[i + 2 * k], queue, if k < |order| then Some(order[k]) else None)
  {
    var until := t[i + 2 * |order|].at;
    OrderByAscending(EligibleKeys(Before(t, i), queue, t[i].at, {}));
    StartsDrained(Before(t, i), queue, t[i].at, until, order);
    RoundReturns(t, i, i, order, queue, until, k);
  }

  /** That order lists exactly the eligible jobs, each once, by due time, creation and ID. */
  lemma DueOrder(rows: Table, queue: Bytes, at: int, order: seq<Bytes>)
    requires order == OrderBy(EligibleKeys(rows, queue, at, {}))
    ensures forall id :: id in order <==> id in rows && Eligible(rows[id], queue, at)
    ensures forall a, b :: 0 <= a < b < |order| ==>
      order[a] in rows && order[b] in rows && Less(DueKey(order[a], rows[order[a]]), DueKey(order[b], rows[order[b]]))
  {
    OrderByAscending(EligibleKeys(rows, queue, at, {}));
  }
}
