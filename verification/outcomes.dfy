/** Failure-carrying values shared by every module of the model.
    Java `null` becomes `None`, and the unchecked exceptions the modelled
    code can raise become `Err` values, so that no operation needs a
    precondition that the Java code itself does not impose. */
module Outcomes {

  /** A possibly absent value: `None` plays the role of a Java `null`. */
  datatype Option<+T> = None | Some(value: T)

  /** The Java exceptions that the modelled code can throw. */
  datatype Exception =
    | NullPointer            // a null element handed to a list mutator
    | IndexOutOfBounds       // a list index outside the range the list accepts
    | ArrayIndexOutOfBounds  // a raw store past the end of a backing array
    | NegativeArraySize      // a list constructed with a negative capacity
    | IllegalArgument        // the defensive branch of the binary search
    | MalformedTimeStamp     // a substring or parseInt failure inside TimeStamp

  /** The outcome of a Java call: its value, or the exception it threw. */
  datatype Result<+T> = Ok(value: T) | Err(exc: Exception)
}
