/** Values that may be absent or an error, and small facts about collections. */
module Wrappers {
  datatype Option<+T> = None | Some(value: T)

  datatype Result<+T, +E> = Ok(value: T) | Err(error: E)

  function Elements<T>(xs: seq<T>): set<T> {
    set x | x in xs
  }
}
