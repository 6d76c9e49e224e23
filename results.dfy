/** Optional values and success/failure results, standing in for JavaScript's
    `undefined` and for a settled promise (resolved or rejected). */
module Results {

  datatype Option<+T> = None | Some(value: T)

  datatype Result<+T, +E> = Ok(value: T) | Err(error: E)
}
