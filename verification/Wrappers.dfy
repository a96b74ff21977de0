/** Shared result types. */
module Wrappers {

  datatype Option<+T> = None | Some(value: T) {
    function GetOr(default: T): T {
      if Some? then value else default
    }
  }

  /** The reasons for which the controller's helpers raise ValueError. */
  datatype Failure =
    | BadEntry
    | MissingName
    | BadPort
    | UnnamedPort
    | UnknownName
    | BadRange
    | BadLimit
    | NoRange
    | Exhausted
    | ForeignOwner
    | WriteRejected

  datatype Result<+T> = Ok(value: T) | Err(error: Failure)
}
