/** Small failure-carrying datatypes shared by the other modules. */
module Base {

  datatype Option<T> = None | Some(value: T)

  datatype Result<T, E> = Ok(value: T) | Err(error: E)

  /** The outcome of an operation whose only result is a side effect. */
  datatype Outcome<E> = Pass | Fail(error: E)

  /** The exceptions the core raises: a `KeyError` for an environment
      variable that is not set, a `FileNotFoundError` for a file opened for
      reading that does not exist, and the `UnboundLocalError` the env-file
      reader raises on a plain line before any header (`decoded_value` and
      `name` are both unbound then). */
  datatype Fault = KeyMissing(key: string) | FileMissing(path: string) | Unbound
}
