/** Small shared vocabulary: an optional value and the time units.
    Every timestamp in the model is a whole number of seconds. */
module Common {
  datatype Option<+T> = None | Some(value: T)

  const MINUTE := 60
  const HOUR := 3600
  const DAY := 24 * HOUR

  function Min(a: int, b: int): int {
    if a <= b then a else b
  }

  function Max(a: int, b: int): int {
    if a >= b then a else b
  }
}
