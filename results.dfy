/** The error kinds of the caption adjuster and the result types that carry them.
    The original program stops the whole run on each of these errors; here they are
    returned to the caller instead. */
module Results {

  datatype Error =
    | PreambleError        // a caption's first commands are not ENM, RCL and a position code
    | OverflowError        // a carry would push the hours field past 99
    | TimecodeSyntaxError  // a timecode field is not a decimal number

  datatype Result<T> = Ok(value: T) | Err(error: Error)

  /** A result without a value, for the methods that only change state. */
  datatype Outcome = Pass | Fail(error: Error)

  datatype Option<T> = None | Some(value: T)
}
