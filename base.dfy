/** Shared result types of the collector: Go's `(value, error)` pairs and the error kinds that travel
    through them. A Go panic (nil dereference, failed type assertion) is modelled as the error
    `Panic`, which ends the current pass like any other error. */
module Base {

  datatype Option<+T> = None | Some(value: T)

  /** The error kinds the core distinguishes. */
  datatype Error =
    | BadRequest                 // HTTP status 400 from the platform
    | Transport(reason: string)  // any other failure of a request, of reading or of decoding its body
    | BodyNotOk                  // a decoded envelope whose `ok` field is not 1
    | StoreUnavailable           // the database refused or could not run a statement
    | DuplicateKey               // an INSERT whose (UID, ID, MblogID) is already present
    | Panic(reason: string)      // a run-time panic of the Go program

  /** A value or the error that replaced it. */
  datatype Result<+T> = Ok(value: T) | Err(error: Error)

  /** The outcome of an operation that only reports an error (a Go function returning `error`). */
  datatype Outcome = Pass | Fail(error: Error)
}
