/** Option and Result, the two failure-carrying shapes the container's API returns. */
module Wrappers {

  /** An optional value: `Some` holds it, `None` says there is none. */
  datatype Option<T> = None | Some(value: T)

  /** The outcome of a fallible call: `Ok` carries the value, `Err` the error. */
  datatype Result<T, E> = Ok(value: T) | Err(error: E)
}
