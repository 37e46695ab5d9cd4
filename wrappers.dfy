/** Option and Result, used wherever the modelled code returns `undefined`
    or throws instead of producing a value. */
module Wrappers {

  datatype Option<+T> = None | Some(value: T)

  /** `Err` stands for a JavaScript exception escaping the modelled call. */
  datatype Result<+T> = Ok(value: T) | Err(error: Exception)

  /** The exceptions the modelled code can raise: a `TypeError` from the
      engine (reading a property of `undefined`, calling a non-function) or
      an `Error` the code throws itself. */
  datatype Exception = TypeError(what: string) | Error(message: string)
}
