/** Small value types shared by the models. */
module Base {

  /** A value that may be missing (a NULL pointer, a failed lookup). */
  datatype Option<+T> = None | Some(value: T)

  /** How a piece of library code ends: it returns a value, or it panics. */
  datatype Outcome<+T> = Returned(value: T) | Panicked
}
