/** The two wrappers the model uses: `Option` for a row or a value that may be
    absent (a nullable foreign key, a missing lookup), and `Result` for an
    operation that either succeeds or is refused with an error. */
module Wrappers {

  datatype Option<+T> = None | Some(value: T)

  datatype Result<+T, +E> = Ok(value: T) | Err(error: E)
}
