/** The optional and fallible values shared by the modules. */
module Optional {
  datatype Option<T> = None | Some(value: T)

  datatype Result<T, E> = Ok(value: T) | Err(error: E)
}
