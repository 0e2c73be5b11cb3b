/**
 * The authentication middleware (`middlewares/auth.rs`): it verifies the bearer token of every request
 * and forwards the request, with the verified claims attached, to the service it wraps; a request that
 * fails verification is answered "Unauthorized" and never reaches that service.
 */
module AuthMiddleware {
  import opened Wrappers
  import opened Text
  import opened Jwt

  /** The parts of an HTTP request the gate looks at; everything else travels in `payload`. */
  datatype HttpRequest = HttpRequest(authorization: Option<seq<byte>>, payload: seq<byte>)

  datatype ActixError = Unauthorized(message: string) | ServiceError(message: string)

  datatype ServiceResponse = ServiceResponse(status: nat, body: seq<byte>)

  /** `Poll<Result<(), Error>>`. */
  datatype Readiness = Pending | Ready(result: Result<(), ActixError>)

  /** A request on its way through the service chain, with the `Arc<Claims>` slot of its extension map. */
  class ServiceRequest {
    const http: HttpRequest
    var claims: Option<Claims>

    constructor (http: HttpRequest)
      ensures this.http == http && claims == None
    {
      this.http := http;
      claims := None;
    }
  }

  /** One call the wrapped service received: the request and the claims it carried. */
  datatype Forwarded = Forwarded(http: HttpRequest, claims: Option<Claims>)

  type Service = (HttpRequest, Option<Claims>) -> Result<ServiceResponse, ActixError>

  /** `JwtAuthMiddlewareInner`: the wrapped service, its readiness, and the calls it has received so far. */
  class JwtAuthMiddlewareInner {
    const secretKey: string
    const decode: Decoder
    const service: Service
    var serviceReadiness: Readiness
    var forwarded: seq<Forwarded>

    /** `new_transform`: wraps `service`, which has received nothing yet. */
    constructor (service: Service, serviceReadiness: Readiness, secretKey: string, decode: Decoder)
      ensures this.service == service && this.serviceReadiness == serviceReadiness
      ensures this.secretKey == secretKey && this.decode == decode && forwarded == []
    {
      this.service := service;
      this.serviceReadiness := serviceReadiness;
      this.secretKey := secretKey;
      this.decode := decode;
      forwarded := [];
    }

    /** `poll_ready`: the wrapped service's readiness, unchanged. */
    method PollReady() returns (r: Readiness)
      ensures r == serviceReadiness
    {
      r := serviceReadiness;
    }

    /** `call`: on a verified token the claims are put in the request's extensions and then the wrapped service
        is called; otherwise the answer is "Unauthorized", the reason is dropped and nothing is forwarded. */
    method Call(req: ServiceRequest, now: int) returns (r: Result<ServiceResponse, ActixError>)
      requires HeaderReadable(req.http.authorization)
      modifies this`forwarded, req`claims
      ensures match VerifyJwt(req.http.authorization, secretKey, decode, now)
        case Ok(c) =>
          && req.claims == Some(c)
          && forwarded == old(forwarded) + [Forwarded(req.http, Some(c))]
          && r == service(req.http, Some(c))
        case Err(_) =>
          && req.claims == old(req.claims)
          && forwarded == old(forwarded)
          && r == Err(Unauthorized("Unauthorized"))
    {
      var verified := VerifyJwt(req.http.authorization, secretKey, decode, now);
      match verified {
        case Ok(claims) =>
          req.claims := Some(claims);
          forwarded := forwarded + [Forwarded(req.http, req.claims)];
          r := service(req.http, req.claims);
        case Err(_) =>
          r := Err(Unauthorized("Unauthorized"));
      }
    }
  }

  /** `Authorization: short` (six bytes) and `Authorization: Basic ...` are both refused before any decoding. */
  lemma ShortAndBasicHeadersRejected(rest: seq<byte>, secretKey: string, decode: Decoder, now: int)
    requires IsVisibleAscii(rest)
    ensures VerifyJwt(Some(AsciiBytes("short")), secretKey, decode, now).Err?
    ensures var basic := AsciiBytes("Basic ") + rest;
      VerifyJwt(Some(basic), secretKey, decode, now) == Err(AppError.AuthenticationFailure)
  {
    var basic := AsciiBytes("Basic ") + rest;
    if |basic| > 6 {
      assert IsVisibleAscii(basic) by {
        forall i | 0 <= i < |basic| ensures IsVisibleAsciiByte(basic[i]) {
          if i >= 6 { assert basic[i] == rest[i - 6]; }
        }
      }
      assert AsciiText(basic)[1] == 'a';
      assert BearerPrefix[1] == 'e';
    }
  }
}
