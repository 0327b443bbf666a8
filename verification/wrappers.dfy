// Rust's `Option` and `Result`, shaped so that `:-` propagates `None` and `Err`
// the way `?` does in the source.
module Wrappers {

  datatype Result<+T, +E> = Success(value: T) | Failure(error: E) {
    // `Failure` stops a `:-` chain ...
    predicate IsFailure() {
      Failure?
    }

    // ... and is passed on unchanged, whatever success type the caller has ...
    function PropagateFailure<U>(): Result<U, E>
      requires Failure?
    {
      Failure(error)
    }

    // ... while `Success` yields its payload.
    function Extract(): T
      requires Success?
    {
      value
    }
  }

  datatype Option<+T> = None | Some(value: T) {
    predicate IsFailure() {
      None?
    }

    function PropagateFailure<U>(): Option<U>
      requires None?
    {
      None
    }

    function Extract(): T
      requires Some?
    {
      value
    }
  }
}
