/** The error values that the store and the commands return, and the two
    result shapes that carry them. */
module Errors {

  /** The kinds of error the tool reports. Only the kind and the offending
      value are kept; the text of the Go error messages is not modelled. */
  datatype Error =
    | NotFound(id: nat)              // no row has this id (sql.ErrNoRows)
    | InvalidStatus(ordinal: int)    // status ordinal above `done`
    | InvalidArgument(arg: string)   // an id argument that strconv.Atoi refuses

  /** A value, or the error that replaced it. */
  datatype Result<+T> = Ok(value: T) | Err(error: Error)

  /** The outcome of an operation that returns only an error. */
  datatype Outcome = Pass | Fail(error: Error)
}
