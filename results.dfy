/** Optional values and success-or-error values, used where the Go code
    returns "nothing here" or an `error` alongside a result. */
module Results {

  datatype Option<+T> = None | Some(value: T)

  datatype Result<+R, +E> = Ok(value: R) | Err(error: E)
}
