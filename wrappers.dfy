/** Outcomes of operations that can fail. */
module Wrappers {

  datatype Option<T> = None | Some(value: T)

  /** Success with a value, or failure with a message. */
  datatype Result<T> = Ok(value: T) | Err(msg: string) {
    predicate IsOk() {
      Ok?
    }
  }
}
