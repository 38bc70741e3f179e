/** Failure-carrying return types used in place of the exceptions the game raises. */
module Results {

  /** An optional value: the index of a ship, or a board that could be built. */
  datatype Option<+T> = None | Some(value: T)

  /** Either the value an operation computed or the error it raised. */
  datatype Result<+T, +E> = Ok(value: T) | Err(error: E)
}
