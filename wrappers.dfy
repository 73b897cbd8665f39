/** Option and Result, for the nullable slots and the thrown-or-returned
    outcomes of the pages modelled here. */
module Wrappers {

  /** A nullable value: `None` stands for JavaScript's `null`. */
  datatype Option<+T> = None | Some(value: T)

  /** A computation that either completes with a value or throws an
      `Error` carrying a message. */
  datatype Result<+R, +E> = Success(value: R) | Failure(error: E)
}
