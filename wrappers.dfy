/** Optional values and failing results, the model's stand-ins for Python's
    `None` and for the exceptions the learner raises. */
module Wrappers {

  datatype Option<+T> = None | Some(value: T)

  /** The two exceptions the modelled code can raise: a dictionary lookup of a
      missing key, and `max()` applied to an empty dictionary. */
  datatype Failure = KeyError(key: string) | EmptyMax

  datatype Result<+T> = Ok(value: T) | Err(error: Failure) {
    function ToOption(): Option<T>
    {
      match this
      case Ok(v) => Some(v)
      case Err(_) => None
    }
  }
}
