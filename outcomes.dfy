/** Success/failure values shared by the whole model.  Every exception the
    Python code raises (or that the host raises through it) becomes an
    `Error` value; an operation that can fail returns a `Result` or an
    `Outcome` instead of raising. */
module Outcomes {

  datatype Option<+T> = None | Some(value: T)

  /** The failures the modelled code can surface. */
  datatype Error =
    | Unbound        // GadgetUnboundError: the gadget has no GadgetSpace
    | AlreadyBound   // GadgetAlreadyBoundError: bind_to_space without force on a bound gadget
    | BindError      // GadgetBindError: no controller is available
    | FileExists     // FileExistsError from makedirs or symlink
    | FormatError    // a hex display transform applied to a value that is not an integer
    | HostError      // any other failure of the host: missing parent, not a directory, ...
    | LookupError    // a character that the keyboard layout does not map

  datatype Result<+T> = Ok(value: T) | Err(error: Error)

  /** The result of an operation that returns nothing. */
  datatype Outcome = Pass | Fail(error: Error)
}
