/** Idempotent enqueue (pkg/jobs/enqueue.go) over whole runs, with other transactions free to run
    between the INSERT that meets a conflict and the fallback SELECT. */
module Idempotency {
  import opened Base
  import opened Errors
  import opened Values
  import opened Rows
  import opened Fingerprint
  import opened Lifecycle
  import opened Stored
  import opened Transactions

  // ----- Row identity under locks -----

  predicate SameIdentity(r: Row, v: Row) {
    && r.id == v.id && r.queue == v.queue && r.key == v.key && r.kind == v.kind && r.payload == v.payload
    && r.maxAttempts == v.maxAttempts && r.fingerprint == v.fingerprint
  }

  predicate Keeps(rows: Table, version: Option<Row>, id: Bytes) {
    id in rows && version.Some? ==> SameIdentity(rows[id], version.value)
  }

  /** Uncommitted versions keep the identity of the rows they replace. */
  predicate FaithfulVersions(s: Sys) { forall id :: id in s.versions ==> Keeps(s.rows, s.versions[id], id) }

  /** The ID is used up and stands for this queue and key wherever a row of it is left. */
  predicate Tracks(s: Sys, id: Bytes, queue: Bytes, key: Bytes) {
    && id in InsertedIds(Events(s.log))
    && (id in s.rows ==> HasQueueKey(s.rows[id], queue, key))
    && (id in s.versions && s.versions[id].Some? ==> HasQueueKey(s.versions[id].value, queue, key))
  }

  predicate Asks(request: EnqueueRequest) { ValidEnqueue(request) && request.key != [] }

  /** What an enqueue transaction knows: its snapshot's row is the row of its key or gone, and the row
      that it has locked FOR KEY SHARE is there, unchanged in identity and not being deleted. */
  predicate ReaderOk(s: Sys, r: Reader) {
    match r
    case Waiting(request, _) => Asks(request)
    case Looking(request, _, seen) => Asks(request) && (seen.Some? ==> Tracks(s, seen.value, request.queue, request.key))
    case Sharing(request, _, id, row) =>
      && Asks(request) && id in s.rows && SameIdentity(s.rows[id], row) && HasQueueKey(row, request.queue, request.key)
      && (id in s.versions ==> s.versions[id].Some?)
    case Refused(_) => true
  }

  predicate Faithful(s: Sys) { FaithfulVersions(s) && forall t :: t in s.readers ==> ReaderOk(s, s.readers[t]) }

  lemma VersionKeeps(rows: Table, e: Event, id: Bytes)
    requires Effective(rows, e) && id in Footprint(e) && (e.Insert? ==> id !in rows) && (e.Claim? ==> Picked(rows, e))
    ensures Keeps(rows, VersionAfter(rows, e, id), id)
    ensures VersionAfter(rows, e, id).None? ==> e.Purge? && e.id == id
  {
    RowStep(rows, e, id);
  }

  /** One new or kept version after a statement. */
  lemma VersionAfterRun(s: Sys, tid: nat, e: Event, id: Bytes)
    requires Shape(s) && FaithfulVersions(s) && CanRun(s, tid, e) && id in Do(s, Run(tid, e)).versions
    ensures var s' := Do(s, Run(tid, e));
            && Keeps(s.rows, s'.versions[id], id)
            && (s'.versions[id].None? ==> (id in s.versions && s.versions[id].None?) || (e.Purge? && e.id == id))
  {
    FootprintUnlocked(s, tid, e);
    AfterRun(s, tid, e, id);
    if id in Footprint(e) {
      VersionKeeps(s.rows, e, id);
    }
  }

  /** What a commit does to one row. */
  lemma CommittedRow(s: Sys, tid: nat, told: bool, id: Bytes)
    requires Shape(s) && tid in s.open
    ensures Look(Do(s, Commit(tid, told)).rows, id) == if Owned(s, {tid}, id) then s.versions[id] else Look(s.rows, id)
  {
    OverlayLook(s, {tid}, id);
  }

  lemma VersionsStep(s: Sys, a: Action)
    requires Shape(s) && FaithfulVersions(s) && Enabled(s, a)
    ensures FaithfulVersions(Do(s, a))
  {
    var s' := Do(s, a);
    if a.Run? {
      forall id | id in s'.versions ensures Keeps(s'.rows, s'.versions[id], id) {
        VersionAfterRun(s, a.tid, a.event, id);
      }
    } else if a.Commit? || a.Abort? {
      forall id | id in s'.versions ensures Keeps(s'.rows, s'.versions[id], id) {
        AfterRelease(s, a, id);
        if a.Commit? {
          CommittedRow(s, a.tid, a.told, id);
        }
      }
    }
  }

  lemma TracksStep(s: Sys, a: Action, id: Bytes, queue: Bytes, key: Bytes)
    requires Shape(s) && Enabled(s, a) && Tracks(s, id, queue, key)
    ensures Tracks(Do(s, a), id, queue, key)
  {
    if a.Run? {
      InsertedIdsGrow(s.log, Exec(a.tid, a.event));
      AfterRun(s, a.tid, a.event, id);
      RowStep(s.rows, a.event, id);
      if id in s.rows {
        IdentityKept(id, s.rows[id], a.event);
      }
    } else if a.Commit? || a.Abort? {
      AfterRelease(s, a, id);
      if a.Commit? {
        CommittedRow(s, a.tid, a.told, id);
      }
    }
  }

  /** The row that a fallback has locked stays what it is to the end of the transaction. */
  lemma SharingStep(s: Sys, a: Action, tid: nat)
    requires Shape(s) && Faithful(s) && Enabled(s, a) && tid in s.readers && s.readers[tid].Sharing?
    ensures ReaderOk(Do(s, a), s.readers[tid])
  {
    var id := s.readers[tid].id;
    assert ReaderOk(s, s.readers[tid]) && id in Shared(s);
    if a.Run? {
      AfterRun(s, a.tid, a.event, id);
      if id in Do(s, a).versions {
        VersionAfterRun(s, a.tid, a.event, id);
      }
    } else if a.Commit? || a.Abort? {
      AfterRelease(s, a, id);
      if a.Commit? {
        CommittedRow(s, a.tid, a.told, id);
      }
    }
  }

  /** A reader that the step does not move on stays right. */
  lemma ReaderStep(s: Sys, a: Action, tid: nat)
    requires Shape(s) && Faithful(s) && Enabled(s, a) && tid in s.readers
    ensures ReaderOk(Do(s, a), s.readers[tid])
  {
    var r := s.readers[tid];
    assert ReaderOk(s, r);
    if r.Sharing? {
      SharingStep(s, a, tid);
    } else if r.Looking? && r.seen.Some? {
      TracksStep(s, a, r.seen.value, r.request.queue, r.request.key);
    }
  }

  /** The reader that the step does move on. */
  lemma MovedReader(s: Sys, a: Action)
    requires Shape(s) && Faithful(s) && Enabled(s, a) && (a.Conflict? || a.Snapshot? || a.Fallback? || a.Refuse?)
    requires a.Snapshot? && a.seen.Some? ==> a.seen.value in InsertedIds(Events(s.log))
    ensures a.tid in Do(s, a).readers ==> ReaderOk(Do(s, a), Do(s, a).readers[a.tid])
  {
    assert a.tid in s.readers ==> ReaderOk(s, s.readers[a.tid]);
    if a.Snapshot? && a.seen.Some? {
      assert a.seen.value in s.versions ==> Keeps(s.rows, s.versions[a.seen.value], a.seen.value);
    }
  }

  lemma FaithfulStep(s: Sys, a: Action)
    requires Shape(s) && Faithful(s) && Enabled(s, a)
    requires a.Snapshot? && a.seen.Some? ==> a.seen.value in InsertedIds(Events(s.log))
    ensures Faithful(Do(s, a))
  {
    VersionsStep(s, a);
    forall t | t in Do(s, a).readers ensures ReaderOk(Do(s, a), Do(s, a).readers[t]) {
      if (a.Conflict? || a.Snapshot? || a.Fallback? || a.Refuse?) && a.tid == t {
        MovedReader(s, a);
      } else {
        ReaderStep(s, a, t);
      }
    }
  }

  lemma {:induction false} AlwaysFaithful(now: int, acts: seq<Action>)
    requires StateAfter(now, acts).Some?
    ensures Faithful(StateAfter(now, acts).value)
  {
    if acts != [] {
      var before, a := acts[..|acts| - 1], acts[|acts| - 1];
      AlwaysFaithful(now, before);
      Reachable(now, before);
      if a.Snapshot? && a.seen.Some? {
        RowsWereInserted(now, before, a.seen.value);
      }
      FaithfulStep(StateAfter(now, before).value, a);
    }
  }

  /** From the fallback to the end of the enqueue transaction, the row it read stays in the committed
      table, with the same queue, key, kind, payload, budget and fingerprint, whatever else runs. */
  lemma SharedRowStays(now: int, acts: seq<Action>, tid: nat)
    requires StateAfter(now, acts).Some? && tid in StateAfter(now, acts).value.readers
    requires StateAfter(now, acts).value.readers[tid].Sharing?
    ensures var s := StateAfter(now, acts).value; var r := s.readers[tid];
            && HoldsKey(s.rows, r.id, r.request.queue, r.request.key) && SameIdentity(s.rows[r.id], r.row)
  {
    AlwaysFaithful(now, acts);
    assert ReaderOk(StateAfter(now, acts).value, StateAfter(now, acts).value.readers[tid]);
  }

  // ----- Exactly when the fallback finds the row of the conflict -----

  /** The ID was inserted by a committed statement, and no new row can take it. */
  predicate Spent(s: Sys, id: Bytes) {
    && id in InsertedIds(Events(s.log)) && InsertCommitted(s, id)
    && (id !in s.rows && id in s.versions ==> s.versions[id].None?)
  }

  predicate InsertCommitted(s: Sys, id: Bytes) {
    exists k :: 0 <= k < |s.log| && s.log[k].event.Insert? && s.log[k].event.id == id && s.log[k].tid in s.committed
  }

  predicate PurgeCommitted(s: Sys, id: Bytes) {
    exists k :: 0 <= k < |s.log| && s.log[k].event.Purge? && s.log[k].event.id == id && s.log[k].tid in s.committed
  }

  lemma PresentIsSpent(now: int, acts: seq<Action>, id: Bytes)
    requires StateAfter(now, acts).Some? && id in StateAfter(now, acts).value.rows
    ensures Spent(StateAfter(now, acts).value, id)
  {
    var s := StateAfter(now, acts).value;
    RowsWereInserted(now, acts, id);
    InterleavingsAreAtomicRuns(now, acts, {});
    var t := Pick(s.log, s.committed);
    PresentWasInserted(t, id);
    var i :| 0 <= i < |t| && t[i].Insert? && t[i].id == id;
    var k := PickedEvents(s.log, s.committed, i);
  }

  lemma SpentStep(s: Sys, a: Action, id: Bytes)
    requires Shape(s) && Enabled(s, a) && Spent(s, id)
    ensures Spent(Do(s, a), id)
    ensures id in Do(s, a).rows ==> id in s.rows
  {
    var k :| 0 <= k < |s.log| && s.log[k].event.Insert? && s.log[k].event.id == id && s.log[k].tid in s.committed;
    assert Do(s, a).log[k] == s.log[k];
    if a.Run? {
      InsertedIdsGrow(s.log, Exec(a.tid, a.event));
      FootprintUnlocked(s, a.tid, a.event);
      AfterRun(s, a.tid, a.event, id);
      RowStep(s.rows, a.event, id);
    } else if a.Commit? || a.Abort? {
      AfterRelease(s, a, id);
      if a.Commit? {
        CommittedRow(s, a.tid, a.told, id);
      }
    }
  }

  /** A job that is gone was deleted by a transaction that committed. */
  lemma GoneWasPurged(now: int, acts: seq<Action>, id: Bytes)
    requires StateAfter(now, acts).Some? && Spent(StateAfter(now, acts).value, id) && id !in StateAfter(now, acts).value.rows
    ensures PurgeCommitted(StateAfter(now, acts).value, id)
  {
    var s := StateAfter(now, acts).value;
    InterleavingsAreAtomicRuns(now, acts, {});
    var t := Pick(s.log, s.committed);
    var k :| 0 <= k < |s.log| && s.log[k].event.Insert? && s.log[k].event.id == id && s.log[k].tid in s.committed;
    var i := ChosenIsPicked(s.log, s.committed, k);
    assert t[i].id in InsertedIds(t);
    PresentUnlessPurged(t, id);
    var j :| 0 <= j < |t| && t[j].Purge? && t[j].id == id;
    var n := PickedEvents(s.log, s.committed, j);
  }

  /** Transaction tid is an enqueue that conflicted with row h: as long as h exists, that is the row its
      snapshot shows. */
  predicate Conflicted(s: Sys, tid: nat, request: EnqueueRequest, h: Bytes) {
    || tid in s.replies
    || (tid in s.readers && match s.readers[tid]
          case Waiting(r, _) => r == request
          case Looking(r, _, seen) => r == request && (h in s.rows ==> seen == Some(h))
          case Sharing(r, _, _, _) => r == request
          case Refused(_) => false)
  }

  lemma SnapshotShows(s: Sys, tid: nat, seen: Option<Bytes>, h: Bytes)
    requires Enabled(s, Snapshot(tid, seen)) && UniqueKeys(s.rows)
    requires HoldsKey(s.rows, h, s.readers[tid].request.queue, s.readers[tid].request.key)
    ensures seen == Some(h)
  {
  }

  lemma ForeignStep(s: Sys, a: Action, tid: nat)
    requires s.versions.Keys == s.locks.Keys && Enabled(s, a) && (a.Tick? || a.tid != tid)
    ensures tid in s.replies ==> tid in Do(s, a).replies
    ensures tid in s.readers ==> tid in Do(s, a).readers && Do(s, a).readers[tid] == s.readers[tid]
  {
  }

  lemma OwnStep(s: Sys, a: Action, tid: nat, request: EnqueueRequest, h: Bytes)
    requires s.versions.Keys == s.locks.Keys && Enabled(s, a) && !a.Tick? && a.tid == tid
    requires UniqueKeys(s.rows) && Tracks(s, h, request.queue, request.key) && Conflicted(s, tid, request, h)
    ensures Conflicted(Do(s, a), tid, request, h)
  {
    if a.Snapshot? && h in s.rows && tid !in s.replies {
      SnapshotShows(s, tid, a.seen, h);
    }
  }

  lemma ConflictedStep(s: Sys, a: Action, tid: nat, request: EnqueueRequest, h: Bytes)
    requires Shape(s) && Enabled(s, a) && UniqueKeys(s.rows) && Spent(s, h) && Tracks(s, h, request.queue, request.key)
    requires Conflicted(s, tid, request, h)
    ensures Conflicted(Do(s, a), tid, request, h)
  {
    if a.Tick? || a.tid != tid {
      SpentStep(s, a, h);
      ForeignStep(s, a, tid);
    } else {
      OwnStep(s, a, tid, request, h);
    }
  }

  lemma {:induction false} ConflictedAlong(now: int, acts: seq<Action>, post: seq<Action>, tid: nat, request: EnqueueRequest, h: Bytes)
    requires StateAfter(now, acts).Some? && StateAfter(now, acts + post).Some?
    requires var s := StateAfter(now, acts).value;
             Spent(s, h) && Tracks(s, h, request.queue, request.key) && Conflicted(s, tid, request, h)
    ensures var e := StateAfter(now, acts + post).value;
            Spent(e, h) && Tracks(e, h, request.queue, request.key) && Conflicted(e, tid, request, h)
    decreases |post|
  {
    if post == [] {
      assert acts + post == acts;
    } else {
      var less := post[..|post| - 1];
      assert (acts + post)[..|acts + post| - 1] == acts + less;
      ConflictedAlong(now, acts, less, tid, request, h);
      Reachable(now, acts + less);
      CommittedKeysUnique(now, acts + less);
      var s := StateAfter(now, acts + less).value;
      SpentStep(s, post[|post| - 1], h);
      TracksStep(s, post[|post| - 1], h, request.queue, request.key);
      ConflictedStep(s, post[|post| - 1], tid, request, h);
    }
  }

  lemma ConflictStarts(now: int, pre: seq<Action>, s: Sys, tid: nat, request: EnqueueRequest, fingerprint: Bytes, h: Bytes)
    requires StateAfter(now, pre) == Some(s) && Enabled(s, Conflict(tid, request, fingerprint))
    requires HoldsKey(s.rows, h, request.queue, request.key)
    ensures StateAfter(now, pre + [Conflict(tid, request, fingerprint)]) == Some(Do(s, Conflict(tid, request, fingerprint)))
    ensures var s' := Do(s, Conflict(tid, request, fingerprint));
            Spent(s', h) && Tracks(s', h, request.queue, request.key) && Conflicted(s', tid, request, h)
  {
    var a := Conflict(tid, request, fingerprint);
    assert (pre + [a])[..|pre|] == pre;
    Reachable(now, pre);
    AlwaysFaithful(now, pre);
    PresentIsSpent(now, pre, h);
    assert h in s.versions ==> Keeps(s.rows, s.versions[h], h);
    SpentStep(s, a, h);
    TracksStep(s, a, h, request.queue, request.key);
  }

  /** Exactly when the fallback of an enqueue answers from the row that its INSERT conflicted with,
      whatever ran in between: if and only if that row still exists. If it does not, a committed deletion
      removed it; the fallback may then find a row that took the key over before its snapshot, or nothing. */
  lemma FallbackFindsIff(now: int, pre: seq<Action>, post: seq<Action>, s: Sys, e: Sys, tid: nat, request: EnqueueRequest,
                         fingerprint: Bytes, h: Bytes)
    requires StateAfter(now, pre) == Some(s) && Enabled(s, Conflict(tid, request, fingerprint))
    requires HoldsKey(s.rows, h, request.queue, request.key)
    requires StateAfter(now, pre + [Conflict(tid, request, fingerprint)] + post) == Some(e) && Enabled(e, Fallback(tid))
    ensures Found(e, e.readers[tid].seen).Some? && e.readers[tid].seen == Some(h) <==> h in e.rows
    ensures h !in e.rows ==> PurgeCommitted(e, h)
  {
    var acts := pre + [Conflict(tid, request, fingerprint)];
    ConflictStarts(now, pre, s, tid, request, fingerprint, h);
    ConflictedAlong(now, acts, post, tid, request, h);
    AlwaysTruthful(now, acts + post);
    if h !in e.rows {
      GoneWasPurged(now, acts + post, h);
    }
  }

  lemma {:induction false} PrefixReached(now: int, acts: seq<Action>, n: nat)
    requires StateAfter(now, acts).Some? && n <= |acts|
    ensures StateAfter(now, acts[..n]).Some?
    ensures n < |acts| ==> Enabled(StateAfter(now, acts[..n]).value, acts[n])
    decreases |acts|
  {
    if n == |acts| {
      assert acts[..n] == acts;
    } else if n == |acts| - 1 {
    } else {
      PrefixReached(now, acts[..|acts| - 1], n);
      assert acts[..|acts| - 1][..n] == acts[..n];
    }
  }

  /** Every enqueue transaction that is looking began with a conflict. */
  lemma {:induction false} ConflictOf(now: int, acts: seq<Action>, tid: nat) returns (n: nat)
    requires StateAfter(now, acts).Some? && tid in StateAfter(now, acts).value.readers
    requires !StateAfter(now, acts).value.readers[tid].Refused?
    ensures n < |acts| && acts[n].Conflict? && acts[n].tid == tid
  {
    var before, a := acts[..|acts| - 1], acts[|acts| - 1];
    if a.Conflict? && a.tid == tid {
      n := |acts| - 1;
    } else {
      n := ConflictOf(now, before, tid);
    }
  }

  /** As long as no deletion commits, the fallback SELECT of a conflicting enqueue can only find its row,
      however many transactions ran since the INSERT and since its snapshot. */
  lemma FallbackFinds(now: int, acts: seq<Action>, e: Sys, tid: nat)
    requires StateAfter(now, acts) == Some(e) && Enabled(e, Fallback(tid))
    requires forall h :: !PurgeCommitted(e, h)
    ensures Found(e, e.readers[tid].seen).Some?
  {
    var n := ConflictOf(now, acts, tid);
    PrefixReached(now, acts, n);
    var s, a := StateAfter(now, acts[..n]).value, acts[n];
    var h :| h in s.rows && s.rows[h].queue == a.request.queue && s.rows[h].key == Some(a.request.key);
    assert acts[..n] + [a] + acts[n + 1..] == acts;
    assert !PurgeCommitted(e, h);
    FallbackFindsIff(now, acts[..n], acts[n + 1..], s, e, tid, a.request, a.fingerprint, h);
  }

  // ----- What a duplicate gets -----

  /** Every stored fingerprint was computed from its request. */
  predicate Fingerprinted(t: Trace, sha256: Bytes -> Bytes) {
    forall i :: 0 <= i < |t| && t[i].Insert? ==> t[i].fingerprint == sha256(Preimage(t[i].request))
  }

  predicate InsertedFrom(r: Row, request: EnqueueRequest, fingerprint: Bytes) {
    && r.queue == request.queue && r.key == OptionalText(request.key) && r.kind == request.kind
    && r.payload == request.payload && r.maxAttempts == request.maxAttempts && r.fingerprint == fingerprint
  }

  lemma {:induction false} RowOrigin(t: Trace, id: Bytes) returns (i: nat)
    requires Lifecycle.Valid(t) && id in After(t)
    ensures i < |t| && t[i].Insert? && t[i].id == id && Admissible(t[i])
    ensures InsertedFrom(After(t)[id], t[i].request, t[i].fingerprint)
  {
    var p, e := t[..|t| - 1], t[|t| - 1];
    ValidPrefix(t, |t| - 1);
    RowStep(After(p), e, id);
    if e.Insert? && e.id == id {
      i := |t| - 1;
      assert Step(t, i);
    } else {
      i := RowOrigin(p, id);
      IdentityKept(id, After(p)[id], e);
    }
  }

  /** Up to a collision of SHA-256 on these two requests, the fingerprint comparison recognises exactly
      the requests that ask for the same thing as the one that created the row, and then the returned
      job has the queue, kind, payload and attempt budget that the repeated request asks for. */
  lemma DuplicateIsRecognised(t: Trace, id: Bytes, request: EnqueueRequest, sha256: Bytes -> Bytes) returns (i: nat)
    requires Lifecycle.Valid(t) && id in After(t) && ValidEnqueue(request) && Fingerprinted(t, sha256)
    requires NoCollision(t, id, request, sha256)
    ensures i < |t| && t[i].Insert? && t[i].id == id
    ensures After(t)[id].fingerprint == sha256(Preimage(request)) <==> SameRequest(t[i].request, request)
    ensures After(t)[id].fingerprint == sha256(Preimage(request)) ==>
      && JobOf(After(t)[id]).queue == request.queue && JobOf(After(t)[id]).kind == request.kind
      && JobOf(After(t)[id]).payload == Some(request.payload) && JobOf(After(t)[id]).maxAttempts == request.maxAttempts
  {
    i := RowOrigin(t, id);
    ValidIsRepresentable(request);
    ValidIsRepresentable(t[i].request);
    PreimageInjective(t[i].request, request);
  }

  /** The statement of the log that a chosen event comes from. */
  lemma CreatorInLog(s: Sys, chosen: set<nat>, i: nat) returns (k: nat)
    requires i < |Pick(s.log, chosen)|
    ensures k < |s.log| && s.log[k].event == Pick(s.log, chosen)[i] && Events(s.log)[k] == s.log[k].event
  {
    k := PickedEvents(s.log, chosen, i);
  }

  lemma PickIsFingerprinted(s: Sys, chosen: set<nat>, sha256: Bytes -> Bytes)
    requires Fingerprinted(Events(s.log), sha256)
    ensures Fingerprinted(Pick(s.log, chosen), sha256)
  {
    var t := Pick(s.log, chosen);
    forall i | 0 <= i < |t| && t[i].Insert? ensures t[i].fingerprint == sha256(Preimage(t[i].request)) {
      var k := CreatorInLog(s, chosen, i);
    }
  }

  /** SHA-256 does not collide on the request and one that created a row with this ID. */
  predicate NoCollision(t: Trace, id: Bytes, request: EnqueueRequest, sha256: Bytes -> Bytes) {
    forall k :: 0 <= k < |t| && t[k].Insert? && t[k].id == id ==>
      (sha256(Preimage(t[k].request)) == sha256(Preimage(request)) ==> Preimage(t[k].request) == Preimage(request))
  }

  lemma PickHasNoCollision(s: Sys, chosen: set<nat>, id: Bytes, request: EnqueueRequest, sha256: Bytes -> Bytes)
    requires NoCollision(Events(s.log), id, request, sha256)
    ensures NoCollision(Pick(s.log, chosen), id, request, sha256)
  {
    var t := Pick(s.log, chosen);
    forall i | 0 <= i < |t| && t[i].Insert? && t[i].id == id
      ensures sha256(Preimage(t[i].request)) == sha256(Preimage(request)) ==> Preimage(t[i].request) == Preimage(request)
    {
      var k := CreatorInLog(s, chosen, i);
    }
  }

  /** The answer of an enqueue whose key was taken, in every interleaving: the job of the row that it
      found, with the row's ID and the queue, kind, payload and budget of the request, if and only if
      the request asks for the same thing as the one that created the row; otherwise the conflict. */
  lemma DuplicateAnswer(now: int, acts: seq<Action>, s: Sys, tid: nat, sha256: Bytes -> Bytes) returns (k: nat)
    requires StateAfter(now, acts) == Some(s) && tid in s.readers && s.readers[tid].Sharing?
    requires Fingerprinted(Events(s.log), sha256) && s.readers[tid].fingerprint == sha256(Preimage(s.readers[tid].request))
    requires NoCollision(Events(s.log), s.readers[tid].id, s.readers[tid].request, sha256)
    ensures k < |s.log| && s.log[k].event.Insert? && s.log[k].event.id == s.readers[tid].id
    ensures var r := s.readers[tid]; var same := SameRequest(s.log[k].event.request, r.request);
            && AnswerOf(s.rows, r) == (if same then Returned(JobOf(r.row)) else Rejected(r.id, ErrIdempotencyConflict))
            && (same ==> JobOf(r.row).id == r.id && JobOf(r.row).queue == r.request.queue && JobOf(r.row).key == r.request.key
                         && JobOf(r.row).kind == r.request.kind && JobOf(r.row).payload == Some(r.request.payload)
                         && JobOf(r.row).maxAttempts == r.request.maxAttempts)
  {
    var r := s.readers[tid];
    AlwaysFaithful(now, acts);
    assert ReaderOk(s, r);
    InterleavingsAreAtomicRuns(now, acts, {});
    var t := Pick(s.log, s.committed);
    PickIsFingerprinted(s, s.committed, sha256);
    PickHasNoCollision(s, s.committed, r.id, r.request, sha256);
    RowsReadable(t, r.id);
    var i := DuplicateIsRecognised(t, r.id, r.request, sha256);
    k := CreatorInLog(s, s.committed, i);
  }

  // ----- One ID per key -----

  lemma {:induction false} TracksAlong(now: int, acts: seq<Action>, more: seq<Action>, id: Bytes, queue: Bytes, key: Bytes)
    requires StateAfter(now, acts).Some? && Tracks(StateAfter(now, acts).value, id, queue, key)
    requires StateAfter(now, acts + more).Some?
    ensures Tracks(StateAfter(now, acts + more).value, id, queue, key)
    decreases |more|
  {
    if more == [] {
      assert acts + more == acts;
    } else {
      var less := more[..|more| - 1];
      assert (acts + more)[..|acts + more| - 1] == acts + less;
      TracksAlong(now, acts, less, id, queue, key);
      Reachable(now, acts + less);
      TracksStep(StateAfter(now, acts + less).value, more[|more| - 1], id, queue, key);
    }
  }

  /** As long as a committed job exists, every later enqueue under its queue and key, in every
      interleaving, finds exactly that job: created is false and the ID is the same. */
  lemma SameKeySameId(now: int, acts: seq<Action>, more: seq<Action>, id: Bytes, tid: nat)
    requires StateAfter(now, acts).Some? && StateAfter(now, acts + more).Some?
    requires id in StateAfter(now, acts).value.rows && id in StateAfter(now, acts + more).value.rows
    requires tid in StateAfter(now, acts + more).value.readers && StateAfter(now, acts + more).value.readers[tid].Sharing?
    requires var r := StateAfter(now, acts + more).value.readers[tid];
             HoldsKey(StateAfter(now, acts).value.rows, id, r.request.queue, r.request.key)
    ensures StateAfter(now, acts + more).value.readers[tid].id == id
  {
    var s, s' := StateAfter(now, acts).value, StateAfter(now, acts + more).value;
    var r := s'.readers[tid];
    AlwaysFaithful(now, acts);
    RowsWereInserted(now, acts, id);
    assert id in s.versions ==> Keeps(s.rows, s.versions[id], id);
    TracksAlong(now, acts, more, id, r.request.queue, r.request.key);
    SharedRowStays(now, acts + more, tid);
    CommittedKeysUnique(now, acts + more);
  }

  /** In the committed table of every interleaving, no two rows share a queue and key. */
  lemma CommittedKeysUnique(now: int, acts: seq<Action>)
    requires StateAfter(now, acts).Some?
    ensures UniqueKeys(StateAfter(now, acts).value.rows)
  {
    InterleavingsAreAtomicRuns(now, acts, {});
    var s := StateAfter(now, acts).value;
    KeysStayUnique(Pick(s.log, s.committed));
  }
}
