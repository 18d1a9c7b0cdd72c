/** Error values and result wrappers shared by every driver model.
 *
 * The drivers report failures by throwing an exception that carries a
 * `std::errc` code; the model returns a `Result` whose error case names that
 * code instead. */
module Wrappers {
  /** The `std::errc` codes the modelled drivers raise. */
  datatype Errc =
    | InvalidArgument
    | NotSupported
    | IoError
    | NotEnoughMemory
    | OperationNotPermitted
    | BadAlloc
    | NoSuchDeviceOrAddress
    | TimedOut

  /** An 8-bit unsigned value (`uint8_t`). */
  type Byte = b: nat | b < 256

  datatype Option<T> = None | Some(value: T)

  datatype Result<T> = Ok(value: T) | Err(error: Errc)

  /** The outcome of a call that returns nothing but may throw. */
  datatype Outcome = Pass | Fail(error: Errc)
}
