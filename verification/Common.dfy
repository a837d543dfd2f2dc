/** Datatypes shared by every module of the project. */
module Common {

  datatype Option<+T> = None | Some(value: T)

  /** The source's `Result`: a value or an error, never both. */
  datatype Result<+T, +E> = Ok(result: T) | Err(error: E)

  function Min(a: int, b: int): int { if a <= b then a else b }

  function Max(a: int, b: int): int { if a >= b then a else b }
}
