/** Failure-carrying datatypes shared by the ledger store and the wallet engine. */
module Wrappers {

  /** A value that may be absent: the store's answer when asked for the last entry. */
  datatype Option<+T> = None | Some(value: T)

  /** Either a computed value or the error an operation failed with. */
  datatype Result<+R, +E> = Success(value: R) | Failure(error: E)
}
