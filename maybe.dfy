/** Optional values and error-carrying results shared by the builders. */
module Maybe {
  datatype Option<T> = None | Some(value: T)

  datatype Result<T, E> = Ok(value: T) | Err(error: E)
}
