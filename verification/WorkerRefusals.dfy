/** A Worker's calls as transactions: why a refusal that a Worker gets is final. */
module WorkerRefusals {
  import opened Base
  import opened Errors
  import L = Lifecycle
  import W = Workers
  import P = WorkerProtocol
  import T = Transactions
  import R = Refusals
  import Fleet

  /** The reply to the call at i. */
  predicate RepliedAt(log: seq<W.Event>, i: nat, k: nat) {
    i < k < |log| && P.Reply(log[k]) && forall m :: i < m < k ==> !P.Reply(log[m])
  }

  lemma {:induction false} FirstReply(log: seq<W.Event>, i: nat, n: nat) returns (k: nat)
    requires i < n < |log| && P.Reply(log[n])
    ensures RepliedAt(log, i, k) && k <= n
    decreases n
  {
    if m :| i < m < n && P.Reply(log[m]) {
      k := FirstReply(log, i, m);
    } else {
      k := n;
    }
  }

  /** When a Worker calls the store, each of its earlier calls has had its reply, and no unknown outcome. */
  lemma EarlierCallsAreSettled(c: W.Config, log: seq<W.Event>, i: nat, j: nat) returns (k: nat)
    requires P.Obeys(c, log) && i < j < |log| && P.Call(log[i]) && P.Call(log[j])
    ensures k < j && RepliedAt(log, i, k) && !Is(log[k].err, ErrCommitOutcomeUnknown)
  {
    P.CallsNeverOverlap(c, log, i, j);
    var n :| i < n < j && P.Reply(log[n]);
    k := FirstReply(log, i, n);
    if P.UnknownReply(log[k]) {
      P.UnknownEndsTheRun(c, log, k, j);
    }
  }

  /** `tids` names the transactions of the Worker's calls, by the call's position in its log. What a
      transaction answered is what the Worker was told: a definite reply came from a definite answer. */
  predicate Tells(log: seq<W.Event>, s: T.Sys, tids: map<nat, nat>) {
    forall i, k :: i in tids && 0 <= k < |log| && RepliedAt(log, i, k) && !P.UnknownReply(log[k]) ==> R.Answered(s, tids[i])
  }

  /** The lease was claimed and extended only by the Worker's own calls before position j. */
  predicate OwnLease(log: seq<W.Event>, j: nat, s: T.Sys, tids: map<nat, nat>, id: Bytes, token: Bytes)
    requires j <= |log|
  {
    forall n :: 0 <= n < |s.log| && R.GrantsLease(s.log[n].event, id, token) ==> OwnCall(log, j, tids, s.log[n].tid)
  }

  predicate OwnCall(log: seq<W.Event>, j: nat, tids: map<nat, nat>, tid: nat)
    requires j <= |log|
  {
    exists i :: 0 <= i < j && i in tids && tids[i] == tid && P.Call(log[i])
  }

  /** In every interleaving, a refused heartbeat or acknowledgement of a Worker, which has the lease for
      itself, is final: no continuation accepts that lease again. */
  lemma WorkerRefusalIsFinal(c: W.Config, log: seq<W.Event>, j: nat, now: int, acts: seq<T.Action>, s: T.Sys,
                             tids: map<nat, nat>, tid: nat, e: L.Event)
    requires P.Obeys(c, log) && j < |log| && P.Call(log[j]) && Fleet.Fits(log[j], e) && L.LeaseUse(e)
    requires T.StateAfter(now, acts) == Some(s) && T.Enabled(s, T.Refuse(tid, e)) && e.token in L.Tokens(T.Events(s.log))
    requires Tells(log, s, tids) && OwnLease(log, j, s, tids, e.id, e.token)
    ensures !R.AcceptedLater(now, acts + [T.Refuse(tid, e)], e.id, e.token)
  {
    forall n | 0 <= n < |s.log| && R.GrantsLease(s.log[n].event, e.id, e.token) ensures R.Answered(s, s.log[n].tid) {
      assert OwnCall(log, j, tids, s.log[n].tid);
      var i :| 0 <= i < j && i in tids && tids[i] == s.log[n].tid && P.Call(log[i]);
      var k := EarlierCallsAreSettled(c, log, i, j);
    }
    R.RefusalIsFinalOnceAnswered(now, acts, s, tid, e);
  }
}
