/** Optional values, results, and the error conditions the request surface reports. */
module Common {

  /** A nullable column or an omitted request field. */
  datatype Option<T> = None | Some(value: T) {

    /** The value, or `default` when absent (Python's `x or default` on a nullable integer column). */
    function GetOr(default: T): T {
      match this
      case Some(v) => v
      case None => default
    }
  }

  /** The errors a request can fail with. Nothing is persisted on a failure. */
  datatype Error =
    | ValidationError(fields: seq<string>)  // a 400 answer naming every offending field
    | NotFound                              // a 404 answer: no row under the requested id

  datatype Result<T> = Success(value: T) | Failure(error: Error)
}
