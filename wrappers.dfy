/** The reducer either returns a new state or throws; `Result` carries the two outcomes. */
module Wrappers {

  datatype Result<+T> = Ok(value: T) | Err(message: string)
}
