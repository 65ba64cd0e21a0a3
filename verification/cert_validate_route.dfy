/** `POST /api/auth/certificate/validate`, stage one of the login: checks the
    client certificate and opens a ten-minute stage-one session under a
    temporary token. The certificate check and the rate limiter are taken in
    the form this handler calls them. */
module CertValidateRoute {
  import opened Wrappers
  import opened RateLimit
  import opened StagedSessions
  import opened SecurityLog
  import opened Http

  datatype Request = Request(ip: Option<string>, clientCert: Option<string>, userAgent: Option<string>)

  /** The JSON body: `Unparseable` when reading it throws, and for a JSON
      `null`, whose destructuring throws. Any other value without a truthy
      `certificateId` (a number, a string, an object lacking the field) is
      `Parsed(None)` or `Parsed(Some(""))` and is answered 400. */
  datatype Body = Unparseable | Parsed(certificateId: Option<string>)

  /** The verdict of the certificate check, as the handler reads it. */
  datatype CertCheck = CertCheck(isValid: bool, error: string, memberId: string, memberName: string, role: string)

  /** The certificate check: (certificate, certificate id) to verdict. */
  type CertificateValidator = (string, string) -> CertCheck

  datatype Reply =
    | ErrorReply(message: string)
    | TempSession(tempToken: string, memberId: string, memberName: string, role: string)

  datatype Response = Response(status: int, reply: Reply)

  const Limit: int := 5
  /** `checkLimit(key, 5, 900)`: 900 read as seconds, the 15 minutes its comment names. */
  const WindowMs: int := 900 * 1000

  method Post(req: Request, body: Body, limiter: RateLimiter, table: StagedSessionTable,
              validate: CertificateValidator, tempToken: string, now: int)
    returns (resp: Response, ghost events: seq<SecurityEvent>)
    requires table.Valid()
    modifies limiter, table
    ensures table.Valid() && table.reachable == old(table.reachable)
    ensures var ip := OrElse(req.ip, "unknown"); var key := "cert_validation:" + ip;
      limiter.store == old(limiter.store)[key := Admit(Lookup(old(limiter.store), key), WindowMs, now)]
    ensures var ip := OrElse(req.ip, "unknown");
      var allowed := Decide(limiter.store["cert_validation:" + ip], Limit, now).allowed;
      && (!allowed ==>
            resp == Response(429, ErrorReply("Too many requests. Please try again later."))
            && events == [NamedEvent("RATE_LIMIT_EXCEEDED", ip, "certificate_validation")])
      && (allowed && body.Unparseable? ==>
            resp == Response(500, ErrorReply("Internal server error"))
            && events == [NamedEvent("CERTIFICATE_VALIDATION_ERROR", ip, "")])
      && (allowed && body.Parsed? && !Truthy(body.certificateId) ==>
            resp == Response(400, ErrorReply("Certificate ID is required")) && events == [])
      && (allowed && body.Parsed? && Truthy(body.certificateId) && !Truthy(req.clientCert) ==>
            resp == Response(401, ErrorReply("Client certificate not provided"))
            && events == [NamedEvent("CERTIFICATE_MISSING", ip, body.certificateId.value)])
      && (allowed && body.Parsed? && Truthy(body.certificateId) && Truthy(req.clientCert) ==>
            var check := validate(req.clientCert.value, body.certificateId.value);
            && (!check.isValid ==>
                  resp == Response(401, ErrorReply("Certificate validation failed"))
                  && events == [NamedEvent("CERTIFICATE_VALIDATION_FAILED", ip, check.error)])
            && (check.isValid && !table.reachable ==>
                  resp == Response(500, ErrorReply("Internal server error"))
                  && events == [NamedEvent("CERTIFICATE_VALIDATION_ERROR", ip, "")])
            && (check.isValid && table.reachable ==>
                  && table.sessions == old(table.sessions)
                       + [StagedSession(|old(table.sessions)|, tempToken, check.memberId, body.certificateId.value,
                                        CertificateValidated, ip, OrElse(req.userAgent, ""),
                                        now + PendingTtlMs, false)]
                  && resp == Response(200, TempSession(tempToken, check.memberId, check.memberName, check.role))
                  && events == [NamedEvent("CERTIFICATE_VALIDATION_SUCCESS", ip, check.memberId)]))
    ensures resp.status != 200 ==> table.sessions == old(table.sessions)
    ensures resp.status == 200 ==> |table.sessions| == |old(table.sessions)| + 1
  {
    var ip := OrElse(req.ip, "unknown");
    var rate := limiter.CheckRateLimit("cert_validation:" + ip, Limit, WindowMs, now);
    if !rate.allowed {
      events := [NamedEvent("RATE_LIMIT_EXCEEDED", ip, "certificate_validation")];
      return Response(429, ErrorReply("Too many requests. Please try again later.")), events;
    }
    if body.Unparseable? {
      events := [NamedEvent("CERTIFICATE_VALIDATION_ERROR", ip, "")];
      return Response(500, ErrorReply("Internal server error")), events;
    }
    if !Truthy(body.certificateId) {
      return Response(400, ErrorReply("Certificate ID is required")), [];
    }
    var certificateId := body.certificateId.value;
    if !Truthy(req.clientCert) {
      events := [NamedEvent("CERTIFICATE_MISSING", ip, certificateId)];
      return Response(401, ErrorReply("Client certificate not provided")), events;
    }
    var check := validate(req.clientCert.value, certificateId);
    if !check.isValid {
      events := [NamedEvent("CERTIFICATE_VALIDATION_FAILED", ip, check.error)];
      return Response(401, ErrorReply("Certificate validation failed")), events;
    }
    var ok := table.Create(tempToken, check.memberId, certificateId, CertificateValidated,
                           ip, OrElse(req.userAgent, ""), now + PendingTtlMs);
    if !ok {
      events := [NamedEvent("CERTIFICATE_VALIDATION_ERROR", ip, "")];
      return Response(500, ErrorReply("Internal server error")), events;
    }
    events := [NamedEvent("CERTIFICATE_VALIDATION_SUCCESS", ip, check.memberId)];
    resp := Response(200, TempSession(tempToken, check.memberId, check.memberName, check.role));
  }
}
