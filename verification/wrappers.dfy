/**
 * Optional values and the outcome of an operation that can raise.  The
 * scripts signal failure by letting a Python exception escape; the model
 * returns the kind of exception instead.
 */
module Wrappers {

  datatype Option<T> = None | Some(value: T)

  /** The Python exceptions the modelled code can let escape. */
  datatype Fault =
    | IndexError        // subscript past the end of a list or string
    | ValueError        // `int()` or `bytes.fromhex()` on malformed text, a negative shift
    | NameError         // a reference to a name that is never bound
    | CannotParse(text: string)   // the script's own exception for an unreadable field value

  datatype Result<T> = Ok(value: T) | Err(fault: Fault)
}
