/** Failure-compatible wrappers used throughout the model. */
module Wrappers {

  /** A value that may be absent (Python's `None`). */
  datatype Option<+T> = None | Some(value: T)

  /** The outcome of an operation that may raise. */
  datatype Result<+R, +E> = Success(value: R) | Failure(error: E) {

    predicate IsFailure() {
      Failure?
    }

    function PropagateFailure<U>(): Result<U, E>
      requires Failure?
    {
      Failure(error)
    }

    function Extract(): R
      requires Success?
    {
      value
    }
  }
}

/** The exceptions the attachment renderer can raise. */
module Failures {

  datatype Error =
      /** `None.strip()`: a data URI was requested for an attachment without a content type. */
    | NoneHasNoStrip
      /** `size_name[i]` with `i` past the three size units (sizes of 1 GiB and more). */
    | SizeUnitOutOfRange(index: nat)
}
