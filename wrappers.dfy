/**
 * Option and Result, the two ways the mapping engine reports an absent value
 * (Kotlin `null`) and a thrown exception.
 */
module Wrappers {
  datatype Option<+T> = None | Some(value: T)

  /** `Err` carries the message of the exception the source throws. */
  datatype Result<+T> = Ok(value: T) | Err(msg: string)
  {
    predicate IsOk() { Ok? }
  }
}
