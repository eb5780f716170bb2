/** The outbound HTTP calls are not performed by the model: their outcome is
    an input. This module names the outcomes and the one rule of the HTTP
    client library that the service depends on. */
module Http {

  datatype HttpResponse = HttpResponse(status: int, body: string)

  /** What one POST produced: a response, or a transport failure such as a
      refused connection or the 10-second timeout. */
  datatype Transport = Responded(response: HttpResponse) | TransportError

  /** `response.raise_for_status()` raises for client (4xx) and server (5xx)
      errors and for nothing else. */
  predicate RaisesForStatus(status: int) {
    400 <= status < 600
  }
}
