/** The exceptions a Domain operation can raise, and a result type carrying them. */
module Errors {

  /** DomainSpecificationError, DomainNotIterableError and the ValueError of a non-disjoint sum. */
  datatype Error = SpecificationError | NotIterableError | ValueError

  datatype Option<+T> = None | Some(value: T)

  datatype Result<+T> = Ok(value: T) | Err(error: Error)
}
