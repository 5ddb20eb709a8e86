/** Names shared by every module: optional values, instants and durations. */
module Base {
  datatype Option<+T> = None | Some(value: T)

  /** A point in time, in seconds; which clock it is on is part of each column's meaning. */
  type Instant = real

  /** A length of time. */
  type Seconds = real

  function Max(a: real, b: real): real {
    if a < b then b else a
  }

  function Min(a: real, b: real): real {
    if b < a then b else a
  }
}
