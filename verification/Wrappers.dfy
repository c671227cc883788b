/** The success/failure and present/absent values every other module returns. */
module Wrappers {
  datatype Option<+T> = None | Some(value: T)

  datatype Result<+T, +E> = Ok(value: T) | Err(error: E)

  /** The part of a connector error that recovery's outcome depends on:
      a rollback failure keeps the error it was rolling back. */
  datatype Failure =
    | Plain(code: string)
    | RollbackFailed(original: Failure, rollback: Failure)

  /** A failed rollback is never the error it was rolling back. */
  lemma {:induction false} RollbackIsNew(original: Failure, rollback: Failure)
    ensures RollbackFailed(original, rollback) != original
  {
    if original.RollbackFailed? {
      RollbackIsNew(original.original, original.rollback);
    }
  }
}
