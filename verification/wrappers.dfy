/**
  Option and Result types shared by every decoder of the gateway.

  The Python sources signal failure in three ways: by raising (`struct.error`,
  `IndexError`, `ValueError`), by returning `None`, or by returning a dict that
  carries an `"error"` key. All three become a `Failure` carrying an `Error`
  that says which check the input did not pass.
 */
module Wrappers {

  datatype Option<+T> = None | Some(value: T)

  /** Why a decoder refused its input. */
  datatype Error =
    | IndexOutOfRange                     // `data[i]` past the end (IndexError)
    | BufferSize(need: nat, got: nat)     // `struct.unpack` given the wrong number of bytes
    | WrongLength(need: nat, got: nat)    // an exact-length check failed
    | TooShort(least: nat, got: nat)      // a minimum-length check failed
    | NotHex                              // `bytes.fromhex` rejected the text
    | PackRange(value: int)               // `struct.pack("<I")` given a value outside [0, 2^32)
    | NoSuchCharacteristic                // a read of a UUID the device does not offer

  datatype Result<+T> = Success(value: T) | Failure(error: Error)
}
