/** Option, Result and the error value that the server's `anyhow::Result`s carry. */
module Wrappers {

  datatype Option<+T> = None | Some(value: T)

  /** A failure-compatible result, so that `:-` propagates failures like Rust's `?`. */
  datatype Result<+R, +E> = Success(value: R) | Failure(error: E) {

    predicate IsFailure() {
      Failure?
    }

    function PropagateFailure<U>(): Result<U, E>
      requires Failure?
    {
      Failure(error)
    }

    function Extract(): R
      requires Success?
    {
      value
    }
  }

  /** An `anyhow::Error`. `Failed` is an error returned through `Err` (and `?`);
      `Panicked` stands for an `unwrap` on a missing value, which unwinds through
      every caller instead of being returned, so no handler may turn it into a value. */
  datatype Error = Failed(message: string) | Panicked(reason: string)
}
