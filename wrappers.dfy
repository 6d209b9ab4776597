/** Optional values and results with an error message, standing for the source's
    `null`/`undefined` and for exceptions caught at an operation boundary. */
module Wrappers {

  datatype Option<+T> = None | Some(value: T)

  datatype Result<+T> = Success(value: T) | Failure(error: string)

  /** JavaScript truthiness of an optional string: neither null/undefined nor "". */
  predicate Truthy(o: Option<string>)
  {
    o.Some? && o.value != ""
  }
}
