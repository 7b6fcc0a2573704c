/** Small failure-carrying datatypes shared by the other modules. */
module Wrappers {

  /** Python's `None` or a present value. */
  datatype Option<+T> = None | Some(value: T)

  /** What a Python call does: it raises an exception or it returns a value.
      The exception's type and message are not modelled. */
  datatype Outcome<+T> = Raised | Returned(value: T)
}
