/** Failure-carrying datatypes shared by the whole model.

    The Python code signals failure with exceptions; the model returns them as values.
    `Exception` lists the exception classes the modelled code can raise or catch. */
module Wrappers {

  datatype Option<+T> = None | Some(value: T)

  /** The Python exception classes that the modelled code raises. */
  datatype Exception =
    | ValueError          // bad AES key/IV length, unaligned ECB/CBC data, bad padding, bad key import, OAEP message too long
    | IndexError          // indexing the last byte of an empty bytes object
    | OverflowError       // int.to_bytes(4, ...) of a value that does not fit in four bytes
    | FileNotFoundError   // opening a key file that does not exist
    | AttributeError      // calling a method on None (no peer key, no progress bar)
    | TypeError           // adding None (the result of `send` without a connection) to an int
    | NoSuchMode          // the BaseException raised for an unknown mode string

  datatype Result<+T> = Ok(value: T) | Err(error: Exception)

  /** The outcome of a step that produces no value: it completed, or it raised. */
  datatype Outcome = Pass | Fail(error: Exception)
}
