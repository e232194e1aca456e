/** The identities that errors.Is can find: pkg/jobs/errors.go, and those of the context package, the
    database driver and the worker. A non-nil Go error is the set of identities it matches, so joined
    errors match several. */
module Errors {
  import opened Base

  datatype Sentinel =
    | ErrInvalid | ErrNotFound | ErrNoJob | ErrLeaseLost | ErrCanceled | ErrStateConflict
    | ErrIdempotencyConflict | ErrCommitOutcomeUnknown
    | CtxCanceled | CtxDeadlineExceeded | TxClosed
    | HandlerFinished | HandlerPanicked | PermanentFailure
    | Undocumented

  type Err = set<Sentinel>

  /** errors.Is, on an error that may be nil. */
  predicate Is(err: Option<Err>, s: Sentinel) { err.Some? && s in err.value }
}
