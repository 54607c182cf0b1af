/** How a `ServiceError` becomes an HTTP response: a status code and a fixed message. */
module ErrorResponses {
  import opened Errors
  import Argon2

  datatype ErrorResponse = ErrorResponse(statusCode: nat, message: string)

  /** The HTTP response `into_response` builds. */
  datatype Response = Response(status: nat, body: string)

  function Unauthorized(): (r: ErrorResponse)
    ensures r.statusCode == 401 && r.message == "unauthorized access requested"
  {
    ErrorResponse(401, "unauthorized access requested")
  }

  function NotFound(): (r: ErrorResponse)
    ensures r.statusCode == 404 && r.message == "the requested resource was not found"
  {
    ErrorResponse(404, "the requested resource was not found")
  }

  function MethodNotAllowed(): (r: ErrorResponse)
    ensures r.statusCode == 405
    ensures r.message == "used http method is not allowed for the requested resource"
  {
    ErrorResponse(405, "used http method is not allowed for the requested resource")
  }

  function InternalServerError(): (r: ErrorResponse)
    ensures r.statusCode == 500 && r.message == "an unexpected error occured"
  {
    ErrorResponse(500, "an unexpected error occured")
  }

  /**
   * `From<ServiceError> for ErrorResponse`: a missing row is 404, a password
   * mismatch is 401, everything else is 500. The `Auth` variant has no arm
   * in that revision; it is answered like a password mismatch.
   */
  function FromServiceError(e: ServiceError): (r: ErrorResponse)
    ensures r.statusCode in {401, 404, 500}
    ensures r.statusCode == 404 <==> e == Database(RowNotFound)
    ensures r.statusCode == 401 <==> e == Hash(Argon2.Password) || e == Auth
    ensures r == Unauthorized() || r == NotFound() || r == InternalServerError()
    ensures r != MethodNotAllowed()
  {
    var r := match e
      case Database(db) => if db == RowNotFound then NotFound() else InternalServerError()
      case Hash(h) => if h == Argon2.Password then Unauthorized() else InternalServerError()
      case Token(_) => InternalServerError()
      case Uuid(_) => InternalServerError()
      case Auth => Unauthorized();
    assert r.statusCode != MethodNotAllowed().statusCode;
    r
  }

  /** `into_response`: the status kept, the message as the body. */
  function IntoResponse(r: ErrorResponse): (resp: Response)
    ensures resp.status == r.statusCode && resp.body == r.message
  {
    Response(r.statusCode, r.message)
  }

  /** Every error answer carries the message that belongs to its status. */
  lemma BodyDeterminedByStatus(e: ServiceError, f: ServiceError)
    requires IntoResponse(FromServiceError(e)).status == IntoResponse(FromServiceError(f)).status
    ensures IntoResponse(FromServiceError(e)) == IntoResponse(FromServiceError(f))
  {
  }
}
