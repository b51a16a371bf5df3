/** The failure-carrying result shared by the rate formulas and the projection. */
module Wrappers {

  /** The outcome of an operation that either produces a value or raises. */
  datatype Result<+T, +E> = Ok(value: T) | Err(error: E)
}
