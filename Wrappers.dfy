/** Option and Result types used throughout the model.
    A Python exception that the source lets propagate (or catches around one
    whole operation) is modelled as an Err value. */
module Wrappers {

  datatype Option<T> = None | Some(value: T)

  datatype Result<T> = Ok(value: T) | Err(msg: string) {
    predicate IsOk() { Ok? }
  }
}
