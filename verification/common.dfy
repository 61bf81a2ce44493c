/** Value types shared by every part of the gateway model. */
module Common {

  /** Present or absent, the model's stand-in for the source's `T | null`. */
  datatype Option<+T> = None | Some(value: T)

  /** A computation that either produces a value or throws. */
  datatype Result<+T, +E> = Success(value: T) | Failure(error: E)

  /** An octet, as produced by Base64 decoding and carried by request bodies. */
  type byte = x: int | 0 <= x < 256

  /** The exceptions the handlers can raise without catching them. */
  datatype Fault =
    | InvalidCharacter    // `atob` rejects its input (a DOMException)
    | InvalidHeaderValue  // `Headers.set` rejects a value (a TypeError)
}
