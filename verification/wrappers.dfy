/** Failure-carrying datatypes shared by the crawler model. */
module Wrappers {

  /** A value that may be absent: a lookup that found nothing, a page that failed to load. */
  datatype Option<+T> = None | Some(value: T)

  /** The outcome of an operation that can raise: `Err` stands for the exception. */
  datatype Result<+T, +E> = Ok(value: T) | Err(error: E)
}
