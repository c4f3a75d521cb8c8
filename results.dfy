/** Failure-carrying values shared by every module: Python's `None`, raised
    exceptions and Flask aborts become data instead of control flow. */
module Results {

  datatype Option<+T> = None | Some(value: T)

  /** What interrupts a Python call: an HTTP abort (`flask.abort(code, msg)`)
      or an uncaught exception, named by its class. */
  datatype Error =
    | Abort(code: int, message: string)
    | Raised(exception: string)

  datatype Result<+T> = Ok(value: T) | Err(error: Error)
}
