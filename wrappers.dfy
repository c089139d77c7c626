/** Option and Result, with the Python exceptions the keystone manager can raise. */
module Wrappers {

  datatype Option<+T> = None | Some(value: T)

  /** The exceptions that leave the modelled code. */
  datatype Exception =
    | KeyError(key: string)          // a dictionary lookup on a missing key
    | TypeError(message: string)     // e.g. a hex codec given an odd-length or non-hex string
    | AttributeError(name: string)   // getattr on the keystone client with an unknown name
    | NotFound(id: nat)              // the directory has no record with that id

  datatype Result<+T> = Ok(value: T) | Err(error: Exception)
}
