/** Result shapes shared by the models. */
module Wrappers {
  datatype Option<+T> = None | Some(value: T)

  /** A Python call that returns a value or raises. */
  datatype Result<+T> = Ok(value: T) | Err(message: string)
}
