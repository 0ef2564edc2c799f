/** Results that may be absent, and results that may be an error. */
module Wrappers {

  datatype Option<+T> = None | Some(value: T)

  datatype Result<+T, +E> = Success(value: T) | Failure(error: E)
}

/**
 Identifiers. A UUID is a 128-bit number; its canonical text is fixed-width
 lower-case hexadecimal, so ordering by text is ordering by number.
 */
module Identifiers {

  type Uuid = nat
}
