/** Failure-free result shapes shared by the models of the individual files. */
module Wrappers {

  datatype Option<+T> = None | Some(value: T)

  datatype Result<+T> = Ok(value: T) | Bad
}
