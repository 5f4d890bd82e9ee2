/** Optional values and results, for JavaScript's `undefined` properties and
    for the TypeErrors the form code throws on malformed configuration. */
module Wrappers {

  datatype Option<+T> = None | Some(value: T) {
    function GetOr(default: T): T {
      match this
      case Some(v) => v
      case None => default
    }
  }

  datatype Result<+T> = Ok(value: T) | Err(error: string)
}
