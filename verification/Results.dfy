/** Optional values and outcomes that carry either a value or an error. */
module Results {
  datatype Option<+T> = None | Some(value: T)
  datatype Result<+T, +E> = Ok(value: T) | Err(error: E)

  /** What is left of a list when the error of computing it is thrown away. */
  function Kept<T>(r: Result<seq<T>, seq<T>>): seq<T>
  {
    if r.Ok? then r.value else []
  }
}
