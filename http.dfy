/** The error a route reports: an HTTP status code and a detail message. */
module Http {

  /**
   * `detail` is the message the route builds.  Where the source ends it
   * with text the model does not determine (`str(e)` of a library
   * exception, or a Python set joined in hash order), `detail` holds the
   * constant part before that text.
   */
  datatype HttpError = HttpError(status: nat, detail: string)

  const BadRequest: nat := 400
  const NotFound: nat := 404
  const ServerError: nat := 500
}
