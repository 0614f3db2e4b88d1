/** Option and Result types, and the error kinds the database reports. */
module Wrappers {

  datatype Option<+T> = None | Some(value: T)

  /** The failures the database, its builder, the query parser and the loader report. */
  datatype Error =
    | KeyNotFound        // indexed lookup of a key the database does not hold
    | InvalidState       // using a builder after it was finalized
    | QuerySyntaxError   // a malformed query string
    | SerializationError // a corrupt or truncated image given to the loader

  datatype Result<+T> = Ok(value: T) | Err(error: Error)
}
