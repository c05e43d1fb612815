/** Failure-carrying values shared by every puzzle: Rust's `Option` and `Result`. */
module Common {

  datatype Option<+T> = None | Some(value: T)

  /** `Ok(value)` or `Err(error)`, as Rust's `Result<T, E>`. */
  datatype Result<+T, +E> = Ok(value: T) | Err(error: E)

  function Min(a: int, b: int): int { if a <= b then a else b }

  function Max(a: int, b: int): int { if a <= b then b else a }

  /** The product of two counts, kept apart so that its sign is settled once. */
  function Times(a: nat, b: nat): nat { a * b }

  lemma Distribute(n: int, a: int, b: int)
    ensures n * (a + b) == n * a + n * b
  {
  }
}
