/** Error values and result wrappers shared by the payload codecs. */
module Outcomes {

  /** The decode errors of the codecs, and the envelope's refusal of an oversized payload. */
  datatype Error =
    | MissingBytes      // fewer bytes than the fixed-size fields of the frame kind
    | OutOfRange        // the pad length does not fit the declared length
    | PayloadTooLarge   // the envelope refuses the payload (its size limit is not modelled)

  /** Go's `error` result: `None` stands for `nil`. */
  datatype Option<+T> = None | Some(value: T)

  /** A value, or the error that replaced it. */
  datatype Result<+T> = Ok(value: T) | Err(error: Error)

  /** What a piece of Go code does as written: return a value, return an error, or index past the
      length of a slice (a run-time panic, or a read of stale bytes from the slice's spare capacity). */
  datatype GoOutcome<+T> = Returns(value: T) | Fails(error: Error) | OutOfBounds
}
