/** Go's `(value, error)` return pairs, as values. */
module Results {

  datatype Option<+T> = None | Some(value: T)

  /** A Go result: a value with a nil error, or a non-nil error carrying its message. */
  datatype Result<+T> = Ok(value: T) | Err(error: string)

  /** The message of a Go `error`, or None for nil. */
  type Error = Option<string>
}
