/** The HTTP status codes the handlers and the AI client use (section 15 of RFC 9110). */
module HttpStatus {
  const OK: nat := 200
  const Created: nat := 201
  const BadRequest: nat := 400
  const NotFound: nat := 404
  const InternalServerError: nat := 500
  const ServiceUnavailable: nat := 503
}
