/** The error values of the generator and the Option/Result wrappers that carry them. */
module Results {

  /** The errors the generator and its machine-ID resolution can report. */
  datatype Error =
    | OverTheTimeLimit          // the 39-bit time field is exhausted
    | NoPrivateIPAddress        // no interface carries a private IPv4 address
    | Failure(message: string)  // any other error, e.g. from a caller-supplied provider

  datatype Option<+T> = None | Some(value: T)

  datatype Result<+T> = Ok(value: T) | Err(error: Error)
}
