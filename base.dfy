/** Shared value wrappers: an optional value (a field or cookie that may be
    absent) and a result that is either a value or an error. */
module Base {
  datatype Option<T> = None | Some(value: T)

  datatype Result<T, E> = Ok(value: T) | Err(error: E)
}
