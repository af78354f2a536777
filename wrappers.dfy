/** Optional values and results with an error, for the Java nulls and
    exceptions and the Python `None` of the modelled code. */
module Wrappers {

  datatype Option<+T> = None | Some(value: T)

  datatype Result<+T, +E> = Ok(value: T) | Err(error: E)
}
