/** The HTTP status codes the handlers answer with. */
module Http {
  const OK: nat := 200
  const BAD_REQUEST: nat := 400
  const SERVER_ERROR: nat := 500
}
