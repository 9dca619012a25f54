/** Failure-carrying values used throughout the model: an optional value for
    the record's nullable columns, and a result for operations that can raise. */
module Wrappers {

  /** A nullable column or attribute: `None` plays the part of Ruby's `nil`. */
  datatype Option<+T> = None | Some(value: T)

  /** The outcome of an operation that either yields a value or signals an error. */
  datatype Result<+R, +E> = Success(value: R) | Failure(error: E)
}
