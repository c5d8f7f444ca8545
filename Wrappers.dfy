/** Option and Result, and the Python exceptions that end a run of the scripts. */
module Wrappers {

  datatype Option<+T> = None | Some(value: T)

  /** The exceptions the modelled code lets escape (each one ends the program). */
  datatype Error =
    | IndexError            // a list index past the end
    | ValueError            // tuple unpacking of the wrong length, or int() of a non-number
    | KeyError              // a dict lookup of a missing key
    | ZeroDivisionError     // integer division by zero
    | Raised(message: string)  // an explicit `raise Exception(message)`

  datatype Result<+T> = Ok(value: T) | Err(error: Error)
}
