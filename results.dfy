/** Failure-carrying values used across the model: an absent value (a missing
    key, a string that does not parse) and an operation that either produces a
    value or raises one of Python's exceptions. */
module Results {

  datatype Option<+T> = None | Some(value: T)

  datatype Result<+T, +E> = Ok(value: T) | Err(error: E)
}
