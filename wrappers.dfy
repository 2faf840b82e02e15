/** Value-or-failure wrappers for the operations that can throw or block in the source. */
module Wrappers {

  /** `Ok` carries a value; `Error` carries what the thrown exception reports. */
  datatype Outcome<+T> = Ok(value: T) | Error(what: string)

  datatype Option<+T> = None | Some(value: T)
}
