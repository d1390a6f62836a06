/**
 * The validation failure raised for a bad request parameter. It carries its
 * reason verbatim as its message and is answered with a client-error status.
 */
module IllegalParameter {

  /** The HTTP status "400 Bad Request". */
  const BadRequest: int := 400

  /** An HTTP status of the 4xx class: the client's request was at fault. */
  predicate IsClientError(status: int) {
    400 <= status < 500
  }

  /** An HTTP status of the 5xx class: the server was at fault. */
  predicate IsServerError(status: int) {
    500 <= status < 600
  }

  datatype IllegalParameterException = IllegalParameterException(reason: string) {

    /** The message the failure reports. */
    function Message(): string {
      reason
    }

    /** The HTTP status the failure is answered with. */
    function ResponseStatus(): int {
      BadRequest
    }
  }

  /** The message of a failure is exactly the reason it was built with. */
  lemma MessageIsReason(reason: string)
    ensures IllegalParameterException(reason).Message() == reason
  {
  }

  /** Every such failure is the client's fault, never the server's. */
  lemma IsClassifiedAsClientError(e: IllegalParameterException)
    ensures IsClientError(e.ResponseStatus())
    ensures !IsServerError(e.ResponseStatus())
  {
  }
}
