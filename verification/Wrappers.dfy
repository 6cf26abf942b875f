/** Optional values and the error returns of the Go code. */
module Wrappers {

  datatype Option<+T> = None | Some(value: T)

  /** `(value, nil)` or `(nil, err)` of a Go function. */
  datatype Result<+T> = Success(value: T) | Failure(msg: string) {
    predicate IsFailure() { Failure? }

    function PropagateFailure<U>(): Result<U>
      requires Failure?
    {
      Failure(msg)
    }

    function Extract(): T
      requires Success?
    {
      value
    }
  }
}
