module Wrappers {

  /** A value that may be absent: JavaScript's `undefined` result. */
  datatype Option<+T> = None | Some(value: T)

  /** `Number(value)` of an arbitrary value: a finite number, or NaN and the infinities. */
  datatype Numeric = Finite(value: real) | NotFinite
}
