/** Option and Result: the outcomes of lookups and of steps that can abort the run. */
module Wrappers {

  datatype Option<+T> = None | Some(value: T)

  datatype Result<+T, +E> = Ok(value: T) | Err(error: E)
}
