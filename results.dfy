/** Outcome types shared by the loader, the writer and the engine. */
module Results {

  /** A computation that either yields a value or raises an error described by `error`. */
  datatype Result<+T, +E> = Ok(value: T) | Err(error: E)

  datatype Option<+T> = None | Some(value: T)
}
