/** Small shared datatypes: an optional value and the Python exceptions the widgets can raise. */
module Wrappers {

  datatype Option<T> = None | Some(value: T)

  /** The Python exceptions that escape (or are swallowed by) the modelled slots. */
  datatype PyError = IndexError | ValueError | KeyError | ZeroDivisionError | TypeError

  /** What a slot did: it ran to the end, or it raised part-way through. */
  datatype Outcome = Done | Raised(error: PyError)
}
