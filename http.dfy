/**
 * What the analysers see of `http.Get`: either a transport error or a
 * response with a status code and a body that `io.ReadAll` either reads in
 * full or fails to read. The network itself is not modelled; a call of
 * `http.Get` becomes a parameter holding its outcome.
 */
module Http {
  import opened Wrappers

  /** A response: `None` as the body stands for an `io.ReadAll` error. */
  datatype Response = Response(statusCode: int, body: Option<string>)

  /** `http.StatusOK`. */
  const StatusOK: int := 200
}
