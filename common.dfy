/** Small shared vocabulary: optional values, results with an error message,
    and the closed set of storage backends the adapter can bind. */
module Common {

  datatype Option<+T> = None | Some(value: T) {
    function GetOr(default: T): T {
      match this
      case Some(v) => v
      case None => default
    }
  }

  /** A value or the message of the error a driver threw. */
  datatype Result<+T> = Ok(value: T) | Err(message: string)

  /** A bound parameter or a column value as the drivers see it. */
  datatype Value = Null | Int(i: int) | Str(s: string)

  /** The backend bound for the lifetime of the process. */
  datatype Backend = Postgres | MySql | Sqlite
}
