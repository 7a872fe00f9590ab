/** Optional values and the outcome of a remote call.
    `Option` stands for a JavaScript value that may be `null`/`undefined`;
    `Result` and `Outcome` stand for what a call to the remote store (or a
    caller-supplied callback) answered: the rows it returned, or the error
    message it raised. */
module Wrappers {

  datatype Option<+T> = None | Some(value: T) {
    /** The wrapped value, or `default` when there is none. */
    function GetOr(default: T): T {
      match this
      case Some(v) => v
      case None => default
    }
  }

  /** A remote call that returns data: its rows, or an error message. */
  datatype Result<+T, +E> = Success(value: T) | Failure(error: E) {
    function ToOption(): Option<T> {
      match this
      case Success(v) => Some(v)
      case Failure(_) => None
    }
  }

  /** A remote call that returns only success or an error message,
      like the `{ success, error? }` objects the hooks hand back. */
  datatype Outcome<+E> = Pass | Fail(error: E)
}
