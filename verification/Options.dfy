/** Absent-or-present values and success-or-failure values, as the modelled code returns them. */
module Options {
  datatype Option<+T> = None | Some(value: T)

  datatype Result<+T, +E> = Ok(value: T) | Err(error: E)
}
