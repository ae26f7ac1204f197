/** Optional values and failure-carrying results for the pipeline's error paths. */
module Errors {

  /** Python's `None` versus a present value (a missing dictionary key, an absent argument). */
  datatype Option<+T> = None | Some(value: T) {
    /** `dict.get(key, default)`: the value when present, the default otherwise. */
    function GetOr(default: T): T {
      match this
      case Some(v) => v
      case None => default
    }
  }

  /** The exceptions the pipeline raises, one constructor per raise site. */
  datatype Error =
    | SourceUnreadable    // the container could not be opened (ValueError)
    | RateIndeterminate   // the native frame rate read back as exactly 0 (RuntimeError)
    | ZeroTargetRate      // a requested sampling rate of exactly 0 divides by zero
    | NoFramesExtracted   // decoding finished with nothing kept (RuntimeError)
    | EmptyInput          // best-frame selection over an empty list (ValueError)
    | EmptyInterestMap    // `.max()` of a zero-size composition interest map (ValueError)

  /** Either the value a call returns or the exception it raises. */
  datatype Result<+T> = Ok(value: T) | Err(error: Error)
}
