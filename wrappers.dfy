/** Option and Result: the values the model returns where JavaScript returns
    `null`/`undefined` or throws. */
module Wrappers {

  datatype Option<+T> = None | Some(value: T)

  /** `Err` stands for a thrown exception; it carries what the catch block reads. */
  datatype Result<+T, +E> = Ok(value: T) | Err(error: E)
}
