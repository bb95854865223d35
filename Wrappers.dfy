/** Optional values (SQL NULL) and results with a typed error (Python exceptions). */
module Wrappers {

  /** A nullable column value: `None` stands for SQL NULL. */
  datatype Option<+T> = None | Some(value: T)

  /** The outcome of an operation that the source lets raise an exception. */
  datatype Result<+T, +E> = Ok(value: T) | Err(error: E)
}
