/**
 Errors as the callers of internal/remote and internal/control see them: a set of
 marks that errors.Is can find, and the categories that cross the control socket.
 */
module Failures {

  datatype Option<+T> = None | Some(value: T)

  /** The sentinel errors that decide behaviour. Any other text is the empty set of marks. */
  datatype Mark =
    | ErrRemoteStateUnknown
    | ErrNotStarted
    | ErrCleanupFailed
    | ErrUnsent
    | ErrDeadlineExceeded
    | ErrCanceled

  datatype Error = NoError | Failure(marks: set<Mark>) {
    predicate Is(mark: Mark) {
      Failure? && mark in marks
    }
  }

  /** errors.Join: nil arguments disappear, the marks of the others accumulate. */
  function Join(a: Error, b: Error): (r: Error)
    ensures r.NoError? <==> a.NoError? && b.NoError?
    ensures forall m: Mark :: r.Is(m) <==> a.Is(m) || b.Is(m)
  {
    match (a, b)
    case (NoError, _) => b
    case (_, NoError) => a
    case (Failure(x), Failure(y)) => Failure(x + y)
  }

  datatype Category =
    | Success
    | NotStarted
    | IdentityMismatch
    | QueueFull
    | Timeout
    | Canceled
    | CleanupFailed
    | RemoteStateUnknown
    | Unavailable

  /** The marks are tried in the order of the source's switch. */
  function CategoryFromError(err: Error): Category {
    if err.Is(ErrRemoteStateUnknown) then RemoteStateUnknown
    else if err.Is(ErrNotStarted) then NotStarted
    else if err.Is(ErrCleanupFailed) then CleanupFailed
    else if err.Is(ErrDeadlineExceeded) then Timeout
    else if err.Is(ErrCanceled) then Canceled
    else Unavailable
  }
}
