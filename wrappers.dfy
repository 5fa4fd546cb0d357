/** The optional-value and outcome datatypes shared by the modules of the workout logger model. */
module Wrappers {

  /** An optional value: `None` stands for JavaScript's `null`, `NaN` or a missing key. */
  datatype Option<+T> = None | Some(value: T)

  /** The outcome of an operation that may be refused with a message. */
  datatype Result<+R, +E> = Success(value: R) | Failure(error: E)
}
