/** Small result types shared by the model. */
module Outcomes {

  /** A value that may be missing (Python's `None`). */
  datatype Option<+T> = None | Some(value: T)

  /** The outcome of an operation that talks to the database: a value, the
      module's own `DatabaseError` (raised when no pooled connection can be
      had, and by the write transactions after rolling back), or a driver
      error (`mysql.connector.Error`) that a read query lets through unwrapped. */
  datatype DbResult<+T> = Ok(value: T) | DatabaseError | DriverError

  /** How a read query fails: getting a pooled connection fails, or the
      query itself fails. */
  datatype ReadFailure = ConnectFails | QueryFails

  /** The error a read query raises: a connection failure is wrapped in
      `DatabaseError`, a failing query is not. */
  function Raised<T>(f: ReadFailure): (r: DbResult<T>)
    ensures f.ConnectFails? <==> r.DatabaseError?
    ensures f.QueryFails? <==> r.DriverError?
  {
    match f
    case ConnectFails => DatabaseError
    case QueryFails => DriverError
  }
}
