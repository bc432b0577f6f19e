/** Failure-compatible wrappers shared by every module of the model. */
module Results {

  datatype Option<T> = None | Some(value: T)

  /** The Python exceptions the modelled code can raise, by their Python names. */
  datatype Error =
    | KeyError(key: string)                  // missing dictionary key, or popitem() on an empty dict
    | UnpackError(expected: nat, got: nat)   // ValueError raised by `a, b = t` when len(t) != 2
    | ValueError(message: string)            // list.index() of a missing item
    | IndexError                             // subscript past the end of a list
    | AttributeError(message: string)        // `.get` on a value that is not a dict
    | FileNotFound(path: string)             // open() of a missing file
    | TypeError(message: string)             // subscript of a value that is not a sequence

  datatype Result<T> = Ok(value: T) | Err(error: Error)

  /** The result of an operation that returns None in Python but may raise. */
  datatype Outcome = Pass | Fail(error: Error)
}
