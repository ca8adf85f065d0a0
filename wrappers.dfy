/** Plain optional and result datatypes used throughout the model: Swift optionals and
    the nil returns of failable initialisers become Option, rejected
    identifiers become Result. */
module Wrappers {

  datatype Option<+T> = None | Some(value: T)

  datatype Result<+T, +E> = Ok(value: T) | Err(error: E) {
    function ToOption(): Option<T> {
      match this
      case Ok(v) => Some(v)
      case Err(_) => None
    }
  }
}
