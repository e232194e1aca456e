/** ListDead of pkg/jobs/operations.go: bounded pages of dead jobs after an exclusive cursor. */
module DeadLetters {
  import opened Base
  import opened Values
  import opened Rows
  import opened Order
  import opened Paging
  import opened Lifecycle
  import Stored

  datatype DeadCursor = DeadCursor(finishedAt: Time, id: Bytes)

  datatype ListResult = Invalid | Corrupt | Page(jobs: seq<Job>)

  predicate DeadIn(r: Row, queue: Bytes) { r.queue == queue && r.state == Dead && r.finishedAt.Some? }

  function DeadKey(id: Bytes, r: Row): seq<int>
    requires r.finishedAt.Some?
  {
    [r.finishedAt.value] + id
  }

  /** The dead rows of the queue that sort after the given (finished_at, id) pair. */
  function DeadKeys(rows: Table, queue: Bytes, after: Option<seq<int>>): (keys: Keys)
    ensures Distinct(keys)
  {
    var keys := map id | id in rows && DeadIn(rows[id], queue) && (after.Some? ==> Less(after.value, DeadKey(id, rows[id])))
                  :: DeadKey(id, rows[id]);
    assert Distinct(keys) by {
      forall x, y ensures Apart(keys, x, y) {
        assert x in keys ==> x == keys[x][1..];
        assert y in keys ==> y == keys[y][1..];
      }
    }
    keys
  }

  predicate ValidCursor(cursor: Option<DeadCursor>) {
    cursor.Some? ==> PgTime(cursor.value.finishedAt) && ValidID(cursor.value.id)
  }

  function CursorKey(cursor: Option<DeadCursor>): Option<seq<int>> {
    if cursor.None? then None else Some([cursor.value.finishedAt.ns / MICROSECOND] + cursor.value.id)
  }

  /** The IDs that listDeadSQL returns. */
  function PageIds(rows: Table, queue: Bytes, cursor: Option<DeadCursor>, limit: nat): (ids: seq<Bytes>)
    ensures |ids| <= limit
    ensures forall id :: id in ids ==> id in DeadKeys(rows, queue, CursorKey(cursor))
    ensures forall id :: id in ids ==> id in rows && DeadIn(rows[id], queue)
  {
    var keys := DeadKeys(rows, queue, CursorKey(cursor));
    assert forall id :: id in First(keys, limit) ==> id in OrderBy(keys);
    First(keys, limit)
  }

  function JobsOf(rows: Table, ids: seq<Bytes>): seq<Job>
    requires forall id :: id in ids ==> id in rows
  {
    seq(|ids|, i requires 0 <= i < |ids| => JobOf(rows[ids[i]]))
  }

  predicate AllScan(rows: Table, ids: seq<Bytes>)
    requires forall id :: id in ids ==> id in rows
  {
    forall i {:trigger Scans(rows, ids[i])} :: 0 <= i < |ids| ==> Scans(rows, ids[i])
  }

  predicate Scans(rows: Table, id: Bytes)
    requires id in rows
  {
    Scanned(Encode(rows[id])) == Some(JobOf(rows[id]))
  }

  function RawPage(rows: Table, ids: seq<Bytes>): seq<RawRow>
    requires forall id :: id in ids ==> id in rows
  {
    seq(|ids|, i requires 0 <= i < |ids| => Encode(rows[ids[i]]))
  }

  predicate IsDeadJob(job: Option<Job>) { job.Some? && job.value.state == Dead }

  predicate ValidListing(queue: Bytes, cursor: Option<DeadCursor>, limit: int) {
    ValidName(queue, MAX_QUEUE_BYTES) && 1 <= limit <= MAX_DEAD_PAGE && ValidCursor(cursor)
  }

  /** Scans and appends the returned rows one by one; the first bad row ends the listing. */
  method ScanPage(raws: seq<RawRow>) returns (jobs: Option<seq<Job>>)
    ensures jobs.Some? <==> forall i :: 0 <= i < |raws| ==> IsDeadJob(Scanned(raws[i]))
    ensures jobs.Some? ==> |jobs.value| == |raws|
    ensures jobs.Some? ==> forall i :: 0 <= i < |raws| ==> Scanned(raws[i]) == Some(jobs.value[i])
  {
    var list: seq<Job> := [];
    var i := 0;
    while i < |raws|
      invariant 0 <= i == |list| <= |raws|
      invariant forall k :: 0 <= k < i ==> IsDeadJob(Scanned(raws[k])) && Scanned(raws[k]) == Some(list[k])
    {
      var job := ScanJobRow(raws[i]);
      if job.None? || job.value.state != Dead {
        return None;
      }
      list := list + [job.value];
      i := i + 1;
    }
    return Some(list);
  }

  /** Checks its inputs, queries, and returns the page or reports a corrupt row. */
  method ListDead(rows: Table, queue: Bytes, cursor: Option<DeadCursor>, limit: int) returns (result: ListResult)
    ensures result == Invalid <==> !ValidListing(queue, cursor, limit)
    ensures result.Page? ==> |result.jobs| <= limit
    ensures ValidListing(queue, cursor, limit) && AllScan(rows, PageIds(rows, queue, cursor, limit)) ==>
              result == Page(JobsOf(rows, PageIds(rows, queue, cursor, limit)))
  {
    if !ValidName(queue, MAX_QUEUE_BYTES) {
      return Invalid;
    }
    if limit < 1 || limit > MAX_DEAD_PAGE {
      return Invalid;
    }
    if cursor.Some? {
      if !PgTime(cursor.value.finishedAt) {
        return Invalid;
      }
      if !ValidID(cursor.value.id) {
        return Invalid;
      }
    }
    result := ReadPage(rows, PageIds(rows, queue, cursor, limit));
  }

  method ReadPage(rows: Table, ids: seq<Bytes>) returns (result: ListResult)
    requires forall id :: id in ids ==> id in rows && rows[id].state == Dead
    ensures !result.Invalid?
    ensures result.Page? ==> |result.jobs| == |ids|
    ensures AllScan(rows, ids) ==> result == Page(JobsOf(rows, ids))
  {
    var jobs := ScanPage(RawPage(rows, ids));
    PageScans(rows, ids, jobs);
    result := if jobs.None? then Corrupt else Page(jobs.value);
  }

  lemma PageScans(rows: Table, ids: seq<Bytes>, jobs: Option<seq<Job>>)
    requires forall id :: id in ids ==> id in rows && rows[id].state == Dead
    requires jobs.Some? <==> forall i :: 0 <= i < |ids| ==> IsDeadJob(Scanned(RawPage(rows, ids)[i]))
    requires jobs.Some? ==> |jobs.value| == |ids|
    requires jobs.Some? ==> forall i :: 0 <= i < |ids| ==> Scanned(RawPage(rows, ids)[i]) == Some(jobs.value[i])
    ensures AllScan(rows, ids) ==> jobs == Some(JobsOf(rows, ids))
  {
    if AllScan(rows, ids) {
      forall i | 0 <= i < |ids| ensures IsDeadJob(Scanned(RawPage(rows, ids)[i])) {
        assert Scans(rows, ids[i]);
      }
      forall i | 0 <= i < |ids| ensures jobs.value[i] == JobsOf(rows, ids)[i] {
        assert Scans(rows, ids[i]);
      }
      assert jobs.value == JobsOf(rows, ids);
    }
  }

  // ----- The page by its columns -----

  /** (finished_at, id) in the order of the listing. */
  predicate FinishedBefore(at: int, id: Bytes, at': int, id': Bytes) { at < at' || (at == at' && TextBefore(id, id')) }

  lemma KeysByFinish(at: int, id: Bytes, at': int, id': Bytes)
    ensures Less([at] + id, [at'] + id') <==> FinishedBefore(at, id, at', id')
  {
    assert ([at] + id)[1..] == id && ([at'] + id')[1..] == id';
    LessIsTextOrder(id, id');
    TextOrderIsLess(id, id');
  }

  /** The row belongs to the listing that follows the cursor. */
  predicate Listed(rows: Table, id: Bytes, queue: Bytes, cursor: Option<DeadCursor>) {
    && id in rows && rows[id].queue == queue && rows[id].state == Dead && rows[id].finishedAt.Some?
    && (cursor.Some? ==> FinishedBefore(cursor.value.finishedAt.ns / MICROSECOND, cursor.value.id, rows[id].finishedAt.value, id))
  }

  lemma ListedAreKeys(rows: Table, id: Bytes, queue: Bytes, cursor: Option<DeadCursor>)
    ensures Listed(rows, id, queue, cursor) <==> id in DeadKeys(rows, queue, CursorKey(cursor))
  {
    if id in rows && cursor.Some? && rows[id].finishedAt.Some? {
      KeysByFinish(cursor.value.finishedAt.ns / MICROSECOND, cursor.value.id, rows[id].finishedAt.value, id);
    }
  }

  lemma PageAscends(rows: Table, queue: Bytes, cursor: Option<DeadCursor>, limit: nat, i: nat, j: nat)
    requires i < j < |PageIds(rows, queue, cursor, limit)|
    ensures var ids := PageIds(rows, queue, cursor, limit);
            && Listed(rows, ids[i], queue, cursor) && Listed(rows, ids[j], queue, cursor)
            && FinishedBefore(rows[ids[i]].finishedAt.value, ids[i], rows[ids[j]].finishedAt.value, ids[j])
  {
    var ids, keys := PageIds(rows, queue, cursor, limit), DeadKeys(rows, queue, CursorKey(cursor));
    OrderByAscending(keys);
    AscendingPrefix(keys, OrderBy(keys), |ids|);
    assert ids[i] in ids && ids[j] in ids;
    ListedAreKeys(rows, ids[i], queue, cursor);
    ListedAreKeys(rows, ids[j], queue, cursor);
    KeysByFinish(rows[ids[i]].finishedAt.value, ids[i], rows[ids[j]].finishedAt.value, ids[j]);
  }

  /** A dead row of the queue after the cursor is on the page, or the page is full of rows before it. */
  lemma PageIsFirst(rows: Table, queue: Bytes, cursor: Option<DeadCursor>, limit: nat, id: Bytes)
    requires Listed(rows, id, queue, cursor) && id !in PageIds(rows, queue, cursor, limit)
    ensures var ids := PageIds(rows, queue, cursor, limit);
            && |ids| == limit
            && forall x :: x in ids ==> Listed(rows, x, queue, cursor) && FinishedBefore(rows[x].finishedAt.value, x, rows[id].finishedAt.value, id)
  {
    var ids, keys := PageIds(rows, queue, cursor, limit), DeadKeys(rows, queue, CursorKey(cursor));
    ListedAreKeys(rows, id, queue, cursor);
    assert id !in Ids(First(keys, limit));
    LeftOut(keys, limit, id);
    forall x | x in ids ensures Listed(rows, x, queue, cursor) && FinishedBefore(rows[x].finishedAt.value, x, rows[id].finishedAt.value, id) {
      assert x in Ids(First(keys, limit));
      ListedAreKeys(rows, x, queue, cursor);
      KeysByFinish(rows[x].finishedAt.value, x, rows[id].finishedAt.value, id);
    }
  }

  /** The listed jobs by their own columns: dead jobs of the queue, in the order of (finished_at, id). */
  lemma PageJobs(rows: Table, queue: Bytes, cursor: Option<DeadCursor>, limit: nat, i: nat)
    requires Sound(rows) && i < |PageIds(rows, queue, cursor, limit)|
    ensures var jobs := JobsOf(rows, PageIds(rows, queue, cursor, limit));
            && jobs[i].state == Dead && jobs[i].queue == queue && jobs[i].id == PageIds(rows, queue, cursor, limit)[i]
            && forall j :: i < j < |jobs| ==> FinishedBefore(jobs[i].finishedAt.ns, jobs[i].id, jobs[j].finishedAt.ns, jobs[j].id)
  {
    var ids := PageIds(rows, queue, cursor, limit);
    assert ids[i] in ids && SoundRow(ids[i], rows[ids[i]]);
    var jobs := JobsOf(rows, ids);
    forall j | i < j < |jobs| ensures FinishedBefore(jobs[i].finishedAt.ns, jobs[i].id, jobs[j].finishedAt.ns, jobs[j].id) {
      PageAscends(rows, queue, cursor, limit, i, j);
      assert SoundRow(ids[j], rows[ids[j]]);
    }
  }

  // ----- Following the cursor -----

  /** A table as the library leaves it: every row under its own ID and readable. */
  predicate Sound(rows: Table) { forall id {:trigger SoundRow(id, rows[id])} :: id in rows ==> SoundRow(id, rows[id]) }

  predicate SoundRow(id: Bytes, r: Row) { r.id == id && Readable(r) }

  function CursorAfter(job: Job): DeadCursor { DeadCursor(job.finishedAt, job.id) }

  /** The cursor made from a listed job is always accepted, and stands exactly at that job's row. */
  lemma CursorRoundTrip(rows: Table, queue: Bytes, id: Bytes)
    requires Sound(rows) && id in rows && DeadIn(rows[id], queue)
    ensures ValidCursor(Some(CursorAfter(JobOf(rows[id]))))
    ensures CursorKey(Some(CursorAfter(JobOf(rows[id])))) == Some(DeadKey(id, rows[id]))
  {
    assert SoundRow(id, rows[id]);
    StoredTimeIsPgTime(rows[id].finishedAt.value);
  }

  /** Every table that a run leaves is one. */
  lemma ReachableIsSound(t: Trace)
    requires Lifecycle.Valid(t)
    ensures Sound(After(t))
  {
    forall id | id in After(t) ensures SoundRow(id, After(t)[id]) {
      Stored.RowsReadable(t, id);
    }
  }

  lemma SoundTablesScan(rows: Table, ids: seq<Bytes>)
    requires Sound(rows) && forall id :: id in ids ==> id in rows
    ensures AllScan(rows, ids)
  {
    forall i | 0 <= i < |ids| ensures Scans(rows, ids[i]) {
      assert SoundRow(ids[i], rows[ids[i]]);
      ReadableRowsScan(rows[ids[i]]);
    }
  }

  /** What a client collects that asks for pages of the given sizes, each after the last job of the
      page before, until a page comes back short; None if a call fails or the sizes run out first. */
  function ReadAll(rows: Table, queue: Bytes, cursor: Option<DeadCursor>, limits: seq<nat>): Option<seq<Job>>
    decreases |limits|
  {
    if limits == [] || !ValidListing(queue, cursor, limits[0]) then None
    else
      var ids := PageIds(rows, queue, cursor, limits[0]);
      if !AllScan(rows, ids) then None
      else if |ids| < limits[0] then Some(JobsOf(rows, ids))
      else
        var rest := ReadAll(rows, queue, Some(CursorAfter(JobOf(rows[LastOf(ids)]))), limits[1..]);
        if rest.None? then None else Some(JobsOf(rows, ids) + rest.value)
  }

  function LastOf(ids: seq<Bytes>): (id: Bytes)
    requires ids != []
    ensures id in ids
  {
    ids[|ids| - 1]
  }

  /** Narrowing the listing to what follows one of its own rows. */
  lemma NarrowedKeys(rows: Table, queue: Bytes, after: Option<seq<int>>, id: Bytes)
    requires id in DeadKeys(rows, queue, after)
    ensures DeadKeys(rows, queue, Some(DeadKey(id, rows[id])))
            == Following(DeadKeys(rows, queue, after), DeadKeys(rows, queue, after)[id])
  {
    var bound := DeadKey(id, rows[id]);
    var keys, rest := DeadKeys(rows, queue, after), DeadKeys(rows, queue, Some(bound));
    forall x | x in rest ensures x in keys {
      if after.Some? {
        LessTransitive(after.value, bound, DeadKey(x, rows[x]));
      }
    }
  }

  predicate ListSizes(limits: seq<nat>) { forall i :: 0 <= i < |limits| ==> 1 <= limits[i] <= MAX_DEAD_PAGE }

  /** The same pages as jobs and as row IDs. */
  predicate SamePages(rows: Table, jobs: Option<seq<Job>>, ids: Option<seq<Bytes>>) {
    match ids
    case None => jobs == None
    case Some(s) => (forall id :: id in s ==> id in rows) && jobs == Some(JobsOf(rows, s))
  }

  lemma LastPage(rows: Table, queue: Bytes, cursor: Option<DeadCursor>, limits: seq<nat>)
    requires Sound(rows) && limits != [] && ValidListing(queue, cursor, limits[0]) && PageSizes(limits)
    requires |PageIds(rows, queue, cursor, limits[0])| < limits[0]
    ensures SamePages(rows, ReadAll(rows, queue, cursor, limits), ReadPages(DeadKeys(rows, queue, CursorKey(cursor)), limits))
  {
    SoundTablesScan(rows, PageIds(rows, queue, cursor, limits[0]));
    var s := OrderBy(DeadKeys(rows, queue, CursorKey(cursor)));
    assert s[..|s|] == s;
  }

  lemma FullReadAll(rows: Table, queue: Bytes, cursor: Option<DeadCursor>, limits: seq<nat>, last: Bytes)
    requires limits != [] && ValidListing(queue, cursor, limits[0]) && limits[0] == |PageIds(rows, queue, cursor, limits[0])|
    requires AllScan(rows, PageIds(rows, queue, cursor, limits[0])) && last == LastOf(PageIds(rows, queue, cursor, limits[0]))
    ensures ReadAll(rows, queue, cursor, limits)
            == var rest := ReadAll(rows, queue, Some(CursorAfter(JobOf(rows[last]))), limits[1..]);
               if rest.None? then None else Some(JobsOf(rows, PageIds(rows, queue, cursor, limits[0])) + rest.value)
  {
  }

  lemma FullReadPages(rows: Table, queue: Bytes, cursor: Option<DeadCursor>, limits: seq<nat>, last: Bytes)
    requires limits != [] && PageSizes(limits) && limits[0] == |PageIds(rows, queue, cursor, limits[0])|
    requires last == LastOf(PageIds(rows, queue, cursor, limits[0]))
    ensures ReadPages(DeadKeys(rows, queue, CursorKey(cursor)), limits)
            == var rest := ReadPages(DeadKeys(rows, queue, Some(DeadKey(last, rows[last]))), limits[1..]);
               if rest.None? then None else Some(PageIds(rows, queue, cursor, limits[0]) + rest.value)
  {
    NarrowedKeys(rows, queue, CursorKey(cursor), last);
    FullPage(DeadKeys(rows, queue, CursorKey(cursor)), limits, last);
  }

  /** A page in front of the pages that follow it, as jobs and as row IDs. */
  lemma JoinSame(rows: Table, page: seq<Bytes>, jobs: Option<seq<Job>>, ids: Option<seq<Bytes>>)
    requires (forall id :: id in page ==> id in rows) && SamePages(rows, jobs, ids)
    ensures SamePages(rows, if jobs.None? then None else Some(JobsOf(rows, page) + jobs.value),
                      if ids.None? then None else Some(page + ids.value))
  {
    if ids.Some? {
      JobsOfJoin(rows, page, ids.value);
    }
  }

  lemma NextPage(rows: Table, queue: Bytes, cursor: Option<DeadCursor>, limits: seq<nat>, last: Bytes, next: DeadCursor)
    requires Sound(rows) && limits != [] && ValidListing(queue, cursor, limits[0]) && PageSizes(limits) && PageSizes(limits[1..])
    requires limits[0] == |PageIds(rows, queue, cursor, limits[0])|
    requires last == LastOf(PageIds(rows, queue, cursor, limits[0])) && next == CursorAfter(JobOf(rows[last]))
    requires CursorKey(Some(next)) == Some(DeadKey(last, rows[last]))
    requires SamePages(rows, ReadAll(rows, queue, Some(next), limits[1..]), ReadPages(DeadKeys(rows, queue, CursorKey(Some(next))), limits[1..]))
    ensures SamePages(rows, ReadAll(rows, queue, cursor, limits), ReadPages(DeadKeys(rows, queue, CursorKey(cursor)), limits))
  {
    var page := PageIds(rows, queue, cursor, limits[0]);
    SoundTablesScan(rows, page);
    FullReadAll(rows, queue, cursor, limits, last);
    FullReadPages(rows, queue, cursor, limits, last);
    JoinSame(rows, page, ReadAll(rows, queue, Some(next), limits[1..]), ReadPages(DeadKeys(rows, queue, CursorKey(Some(next))), limits[1..]));
  }

  lemma JobsOfJoin(rows: Table, a: seq<Bytes>, b: seq<Bytes>)
    requires (forall id :: id in a ==> id in rows) && forall id :: id in b ==> id in rows
    ensures forall id :: id in a + b ==> id in rows
    ensures JobsOf(rows, a + b) == JobsOf(rows, a) + JobsOf(rows, b)
  {
  }

  lemma {:induction false} JobPagesFollowKeys(rows: Table, queue: Bytes, cursor: Option<DeadCursor>, limits: seq<nat>)
    requires Sound(rows) && ValidName(queue, MAX_QUEUE_BYTES) && ValidCursor(cursor) && ListSizes(limits) && PageSizes(limits)
    ensures SamePages(rows, ReadAll(rows, queue, cursor, limits), ReadPages(DeadKeys(rows, queue, CursorKey(cursor)), limits))
    decreases |limits|
  {
    if limits != [] {
      var page := PageIds(rows, queue, cursor, limits[0]);
      if |page| < limits[0] {
        LastPage(rows, queue, cursor, limits);
      } else {
        var last := LastOf(page);
        var next := CursorAfter(JobOf(rows[last]));
        CursorRoundTrip(rows, queue, last);
        JobPagesFollowKeys(rows, queue, Some(next), limits[1..]);
        NextPage(rows, queue, cursor, limits, last, next);
      }
    }
  }

  /** Pagination is exact: whatever page sizes from 1 to 100 a client uses, the pages of a fixed table
      join up to the sorted list of the queue's dead jobs, without gaps or repeats, and end. */
  lemma PagesJoinUp(rows: Table, queue: Bytes, limits: seq<nat>)
    requires Sound(rows) && ValidName(queue, MAX_QUEUE_BYTES) && ListSizes(limits)
    requires |limits| > |DeadKeys(rows, queue, None)|
    ensures forall id :: id in OrderBy(DeadKeys(rows, queue, None)) <==> id in rows && DeadIn(rows[id], queue)
    ensures ReadAll(rows, queue, None, limits) == Some(JobsOf(rows, OrderBy(DeadKeys(rows, queue, None))))
  {
    assert PageSizes(limits);
    JobPagesFollowKeys(rows, queue, None, limits);
    ReadPagesExact(DeadKeys(rows, queue, None), limits);
  }
}
