/** The Java run-time behaviour the modelled controller can exhibit besides
    returning normally: an unchecked exception, or a reference that is null. */
module Outcomes {

  /** The unchecked exceptions the controller code can raise. */
  datatype Fault = StringIndexOutOfBounds | NullPointer

  /** The result of a Java call: it returns a value or it throws. */
  datatype Outcome<+T> = Returned(value: T) | Thrown(fault: Fault)

  /** A reference that may be null, as the data store's lookups return. */
  datatype Option<+T> = None | Some(value: T)
}
