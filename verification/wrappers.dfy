/** Failure-carrying datatypes shared by the model: `Option` for values that may be
    absent (a failed parse, an uncovered reference coordinate) and `Result` for the
    operations that return an error to their caller instead of panicking. */
module Wrappers {

  datatype Option<+T> = None | Some(value: T)

  datatype Result<+T, +E> = Ok(value: T) | Err(error: E)
}
