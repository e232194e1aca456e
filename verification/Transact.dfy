/** transact of pkg/jobs/postgres.go: one transaction, never retried, whose failed commit is reported as
    an unknown outcome. */
module Transact {
  import opened Base
  import opened Errors
  import Transactions

  datatype Call = BeginTx | Body | Commit | Rollback

  /** What one database session answers, in any combination. `applied` says whether the server made an
      attempted commit durable; it did if it said so. */
  datatype Replies<T> = Replies(begin: Option<Err>, value: T, body: Option<Err>, commit: Option<Err>, applied: bool,
                                rollback: Option<Err>)
  {
    predicate Honest() { commit.None? ==> applied }
  }

  class Session<T> {
    const replies: Replies<T>
    var calls: seq<Call>
    var durable: bool

    constructor (replies: Replies<T>)
      ensures this.replies == replies && calls == [] && !durable
    {
      this.replies := replies;
      calls, durable := [], false;
    }

    method Begin() returns (err: Option<Err>)
      modifies this`calls
      ensures calls == old(calls) + [BeginTx] && err == replies.begin
    {
      calls, err := calls + [BeginTx], replies.begin;
    }

    method Operation() returns (value: T, err: Option<Err>)
      modifies this`calls
      ensures calls == old(calls) + [Body] && value == replies.value && err == replies.body
    {
      calls, value, err := calls + [Body], replies.value, replies.body;
    }

    method CommitTx() returns (err: Option<Err>)
      modifies this
      ensures calls == old(calls) + [Commit] && durable == replies.applied && err == replies.commit
    {
      calls, durable, err := calls + [Commit], replies.applied, replies.commit;
    }

    /** A rollback after an attempted commit changes nothing. */
    method RollbackTx() returns (err: Option<Err>)
      modifies this`calls
      ensures calls == old(calls) + [Rollback] && err == replies.rollback
    {
      calls, err := calls + [Rollback], replies.rollback;
    }
  }

  /** The calls that a session sees: at most one commit, and none after a failed body. */
  function CallsMade<T>(r: Replies<T>): seq<Call> {
    if r.begin.Some? then [BeginTx]
    else if r.body.Some? then [BeginTx, Body, Rollback]
    else [BeginTx, Body, Commit, Rollback]
  }

  function Durable<T>(r: Replies<T>): bool { Commit in CallsMade(r) && r.applied }

  /** A failing deferred rollback is reported beside an earlier error, never instead of one and never
      after a success. */
  function WithRollback(err: Err, rollback: Option<Err>): Err {
    if rollback.Some? && TxClosed !in rollback.value then err + rollback.value else err
  }

  function Reported<T>(r: Replies<T>): Option<Err> {
    if r.begin.Some? then r.begin
    else if r.body.Some? then Some(WithRollback(r.body.value, r.rollback))
    else if r.commit.Some? then Some(WithRollback({ErrCommitOutcomeUnknown} + r.commit.value, r.rollback))
    else None
  }

  method Transact<T>(database: Session<T>, zero: T) returns (value: T, err: Option<Err>)
    requires database.calls == [] && !database.durable
    modifies database
    ensures err == Reported(database.replies)
    ensures value == if database.replies.begin.Some? then zero else database.replies.value
    ensures database.calls == CallsMade(database.replies) && database.durable == Durable(database.replies)
  {
    value := zero;
    err := database.Begin();
    if err.Some? {
      return;
    }
    value, err := database.Operation();
    if err == None {
      var commitErr := database.CommitTx();
      if commitErr.Some? {
        err := Some({ErrCommitOutcomeUnknown} + commitErr.value);
      }
    }
    // The deferred function.
    var rollbackErr := database.RollbackTx();
    if err.Some? && rollbackErr.Some? && TxClosed !in rollbackErr.value {
      err := Some(err.value + rollbackErr.value);
    }
  }

  function Commits(calls: seq<Call>): nat {
    if calls == [] then 0 else Commits(calls[..|calls| - 1]) + if calls[|calls| - 1] == Commit then 1 else 0
  }

  /** One transaction, never retried: at most one commit, after a body without an error, and a transaction
      that was begun ends with its one rollback call. */
  lemma OneTransaction<T>(r: Replies<T>)
    ensures var calls := CallsMade(r);
            && Commits(calls) == (if r.begin.None? && r.body.None? then 1 else 0)
            && calls[0] == BeginTx && (forall i :: 0 < i < |calls| ==> calls[i] != BeginTx)
            && (r.begin.None? <==> calls[|calls| - 1] == Rollback)
            && (forall i :: 0 <= i < |calls| - 1 ==> calls[i] != Rollback)
            && (Body in calls <==> r.begin.None?)
  {
    if r.begin.Some? {
      assert CallsMade(r)[..0] == [];
    } else if r.body.Some? {
      assert [BeginTx, Body, Rollback][..2] == [BeginTx, Body] && [BeginTx, Body][..1] == [BeginTx] && [BeginTx][..0] == [];
    } else {
      assert [BeginTx, Body, Commit, Rollback][..3] == [BeginTx, Body, Commit];
      assert [BeginTx, Body, Commit][..2] == [BeginTx, Body] && [BeginTx, Body][..1] == [BeginTx] && [BeginTx][..0] == [];
    }
  }

  /** The error that ended the transaction is always among what is reported; a failed rollback is reported
      beside it, except that a transaction which was closed already adds nothing. */
  lemma NothingIsHidden<T>(r: Replies<T>)
    ensures r.begin.Some? ==> Reported(r) == r.begin
    ensures r.begin.None? && r.body.Some? ==> Reported(r).Some? && r.body.value <= Reported(r).value
    ensures r.begin.None? && r.body.None? && r.commit.Some? ==>
      Reported(r).Some? && r.commit.value + {ErrCommitOutcomeUnknown} <= Reported(r).value
    ensures r.begin.None? && Reported(r).Some? && r.rollback.Some? && TxClosed !in r.rollback.value ==> r.rollback.value <= Reported(r).value
    ensures r.begin.None? && r.body.Some? && (r.rollback.None? || TxClosed in r.rollback.value) ==> Reported(r) == r.body
    ensures r.begin.None? && r.body.None? && r.commit.None? ==> Reported(r).None?
  {
  }

  predicate Doubtful(err: Option<Err>) { Is(err, ErrCommitOutcomeUnknown) }

  /** The answer can be trusted: no error means that the statements are durable, and an error without the
      unknown-outcome identity means that they are not. */
  lemma AnswerIsTrue<T>(r: Replies<T>)
    requires r.Honest()
    ensures Reported(r).None? ==> Durable(r)
    ensures Reported(r).Some? && !Doubtful(Reported(r)) ==> !Durable(r)
  {
  }

  /** As long as the driver and the body do not use the identity themselves, the outcome is unknown
      exactly when the one commit was attempted and returned an error. */
  lemma DoubtIsAFailedCommit<T>(r: Replies<T>)
    requires !Doubtful(r.begin) && !Doubtful(r.body) && !Doubtful(r.rollback)
    ensures Doubtful(Reported(r)) <==> Commit in CallsMade(r) && r.commit.Some?
  {
  }

  function ReplyOf(err: Option<Err>): Transactions.Reply {
    if err.None? then Transactions.Succeeds else if Doubtful(err) then Transactions.InDoubt else Transactions.Errs
  }

  /** Every ending of a session in which the body's statement was executed is an ending that the
      interleaving model has, with the same effect and the same answer. */
  lemma EndingsAreModelled<T>(s: Transactions.Sys, tid: nat, r: Replies<T>) returns (a: Transactions.Action)
    requires Transactions.Shape(s) && tid in s.open && r.Honest() && r.begin.None?
    ensures Transactions.Enabled(s, a) && (a.Commit? || a.Abort?) && a.tid == tid && (a.Commit? <==> Durable(r))
    ensures tid in s.replies ==> Transactions.Do(s, a).replies == s.replies
    ensures tid !in s.replies ==> Transactions.Do(s, a).replies == s.replies[tid := ReplyOf(Reported(r))]
  {
    AnswerIsTrue(r);
    if Durable(r) {
      a := Transactions.Action.Commit(tid, Reported(r).None?);
    } else {
      a := Transactions.Action.Abort(tid, !Doubtful(Reported(r)));
    }
  }

  /** claimWithToken after its transaction: no row is ErrNoJob, but only once the commit is certain. */
  function ClaimError<T>(r: Replies<Option<T>>): Option<Err> {
    if Reported(r).Some? then Reported(r) else if r.value.None? then Some({ErrNoJob}) else None
  }

  /** ErrNoJob is an error whose transaction, with its reaping, did commit. */
  lemma NoJobIsDurable<T>(r: Replies<Option<T>>)
    requires r.Honest()
    requires !Is(r.begin, ErrNoJob) && !Is(r.body, ErrNoJob) && !Is(r.commit, ErrNoJob) && !Is(r.rollback, ErrNoJob)
    ensures Is(ClaimError(r), ErrNoJob) ==> Durable(r) && r.value.None?
    ensures ClaimError(r).None? ==> Durable(r) && r.value.Some?
  {
  }
}
