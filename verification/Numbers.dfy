/** Constants and operations on numbers used throughout. */
module Numbers {

  /** Nanoseconds in a microsecond. */
  const MICROSECOND: int := 1000

  function Max(a: int, b: int): int {
    if a < b then b else a
  }

  function Min(a: int, b: int): int {
    if a < b then a else b
  }
}
