/** Failure-carrying datatypes shared by the model.
    `Option` stands for a Java reference that may be `null`;
    `Result` stands for a value that may instead be a thrown exception. */
module Wrappers {

  /** A nullable reference: `None` is Java's `null`. */
  datatype Option<+T> = None | Some(value: T)

  /** Either a computed value or the exception the computation raised. */
  datatype Result<+R, +E> = Success(value: R) | Failure(error: E)
}
