/** Optional values and results, used where the overlay's code works with
    `None`, an absent dictionary key, or an exception. */
module Wrappers {

  /** `None` stands for Python's `None` or for a key missing from a dict. */
  datatype Option<T> = None | Some(value: T)

  /** The value of an operation, or the error it raises. */
  datatype Result<T, E> = Ok(value: T) | Err(error: E)
}
