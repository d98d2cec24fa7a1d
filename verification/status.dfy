/** The HTTP status codes the handlers answer with. */
module HttpStatus {
  const BadRequest: nat := 400
  const Forbidden: nat := 403
  const NotFound: nat := 404
  const RequestTimeout: nat := 408
  const Conflict: nat := 409
  const InternalServerError: nat := 500

  /** A 4xx status: the request, not the server, is at fault. */
  predicate ClientError(code: nat)
  {
    400 <= code < 500
  }
}
