/** Values shared by every module: optional values, results and whole-second time. */
module Base {

  datatype Option<+T> = None | Some(value: T)

  datatype Result<+T, +E> = Ok(value: T) | Err(error: E)

  /** Time is counted in nanoseconds since the epoch. */
  const SECOND: int := 1_000_000_000

  /** The whole second an instant falls in, rounded towards minus infinity. */
  function Unix(t: int): int {
    t / SECOND
  }
}
