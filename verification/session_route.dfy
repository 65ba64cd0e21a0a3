/** The `/api/auth/session` handlers: POST logs in with a client certificate,
    GET checks a session, DELETE logs out. Each is an ordered chain of checks
    with early returns; the security events a call appends are returned as
    the ghost `events`. */
module SessionRoute {
  import opened Wrappers
  import opened Text
  import opened RateLimit
  import opened Members
  import opened Certificates
  import opened Sessions
  import opened SecurityLog
  import opened Http

  /** The request headers the handlers read; `None` is an absent header. */
  datatype Headers = Headers(
    forwardedFor: Option<string>, realIp: Option<string>, userAgent: Option<string>,
    authorization: Option<string>, clientCert: Option<string>, certFingerprint: Option<string>)

  datatype Request = Request(headers: Headers, ip: Option<string>)

  /** The POST body: `Unparseable` when reading it as JSON throws. */
  datatype PostBody = Unparseable | Parsed(deviceInfo: Option<DeviceInfo>)

  datatype PublicUser = PublicUser(id: string, name: string, displayName: string, role: string, preferences: string)

  datatype Reply =
    | ErrorReply(code: string, retryAfter: Option<int>)
    | Created(sessionToken: string, expiresAt: int, user: PublicUser, certificate: ClientCertificate)
    | Current(user: PublicUser, session: SessionView, permissions: seq<string>)
    | NoBody

  datatype Response = Response(status: int, reply: Reply)

  const AuthLimit: int := 5
  const AuthWindowMs: int := 15 * 60 * 1000

  /** `getClientIP`: the first entry of `x-forwarded-for`, trimmed; else
      `x-real-ip`; else the connection address; else "unknown". */
  function GetClientIP(req: Request): (r: string)
    ensures Truthy(req.headers.forwardedFor) ==> ',' !in r
    ensures !Truthy(req.headers.forwardedFor) ==> r != ""
    ensures !Truthy(req.headers.forwardedFor) && !Truthy(req.headers.realIp) && !Truthy(req.ip) ==> r == "unknown"
  {
    if Truthy(req.headers.forwardedFor) then Trim(Split(req.headers.forwardedFor.value, ',')[0])
    else if Truthy(req.headers.realIp) then req.headers.realIp.value
    else if Truthy(req.ip) then req.ip.value
    else "unknown"
  }

  /** `getUserAgent`. */
  function GetUserAgent(req: Request): (r: string)
    ensures Truthy(req.headers.userAgent) ==> r == req.headers.userAgent.value
    ensures !Truthy(req.headers.userAgent) ==> r == "unknown"
  {
    OrElse(req.headers.userAgent, "unknown")
  }

  function PublicOf(m: Member): PublicUser {
    PublicUser(m.id, m.name, m.displayName, m.role, m.preferences)
  }

  /** The device description stored with a new session. */
  function DeviceInfoOf(body: PostBody, userAgent: string): Option<DeviceInfo> {
    match body
    case Unparseable => Some(DeviceInfo(userAgent, "unknown", None, None))
    case Parsed(d) => d
  }

  function CreateFailure(ip: string, userAgent: string, reason: string, error: string): SecurityEvent {
    AuthEvent(None, "session_create", false, ip, userAgent, reason, error)
  }

  /** The first entry of a forwarded-for list is the client's own address
      (an empty first entry gives the empty address). */
  lemma FirstForwardedEntry(req: Request, first: string, rest: string)
    requires ',' !in first
    requires req.headers.forwardedFor == Some(first + "," + rest)
    ensures GetClientIP(req) == Trim(first)
  {
    var h := first + "," + rest;
    assert h[..|first|] == first && h[|first|] == ',';
    assert IndexOf(h, ',') == |first|;
  }

  /** A forwarded-for header holding a single address gives that address,
      trimmed. */
  lemma SingleForwardedEntry(req: Request, h: string)
    requires ',' !in h && h != ""
    requires req.headers.forwardedFor == Some(h)
    ensures GetClientIP(req) == Trim(h)
  {
    assert Split(h, ',') == [h];
  }

  /** Without a forwarded-for header the address falls back in order. */
  lemma ClientIPFallback(req: Request)
    requires !Truthy(req.headers.forwardedFor)
    ensures Truthy(req.headers.realIp) ==> GetClientIP(req) == req.headers.realIp.value
    ensures !Truthy(req.headers.realIp) && Truthy(req.ip) ==> GetClientIP(req) == req.ip.value
    ensures !Truthy(req.headers.realIp) && !Truthy(req.ip) ==> GetClientIP(req) == "unknown"
    ensures GetClientIP(req) != ""
  {
  }

  /** POST: rate limit (5 per 15 minutes per address), certificate headers,
      certificate validation, then session creation. */
  method Post(req: Request, body: PostBody, limiter: RateLimiter, store: SessionStore,
              parse: CertificateParser, hash: CertificateHasher, token: string, now: int)
    returns (resp: Response, ghost events: seq<SecurityEvent>)
    requires store.Valid()
    modifies limiter, store
    ensures store.Valid() && store.reachable == old(store.reachable)
    ensures var ip := GetClientIP(req);
      var key := "auth_" + ip;
      limiter.store == old(limiter.store)[key := Admit(Lookup(old(limiter.store), key), AuthWindowMs, now)]
    ensures var ip := GetClientIP(req); var ua := GetUserAgent(req);
      var rate := Decide(limiter.store["auth_" + ip], AuthLimit, now);
      var cert := req.headers.clientCert; var fp := req.headers.certFingerprint;
      var v := ValidateClientCertificate(parse, hash, cert.GetOr(""), fp.GetOr(""),
                                         old(store.members), old(store.reachable), now);
      && (!rate.allowed ==>
            resp == Response(429, ErrorReply("AUTH_RATE_LIMIT_EXCEEDED", rate.retryAfter))
            && events == [CreateFailure(ip, ua, "rate_limit_exceeded", "")])
      && (rate.allowed && !(Truthy(cert) && Truthy(fp)) ==>
            resp == Response(401, ErrorReply("AUTH_CERT_MISSING", None))
            && events == [CreateFailure(ip, ua, "missing_certificate", "")])
      && (rate.allowed && Truthy(cert) && Truthy(fp) && v.Invalid? ==>
            resp == Response(401, ErrorReply("AUTH_CERT_INVALID", None))
            && events == [CreateFailure(ip, ua, "invalid_certificate", v.error.Code())])
      && (resp.status == 200 <==> rate.allowed && Truthy(cert) && Truthy(fp) && v.Valid?)
      && (resp.status == 200 ==>
            && store.sessions == old(store.sessions)
                 + [NewSession(|old(store.sessions)|, v.user.id, fp.value, DeviceInfoOf(body, ua), Some(ip), token, now)]
            && store.members == RecordLogin(old(store.members), v.user.id, now)
            && resp.reply == Created(token, now + SessionTtlMs, PublicOf(v.user), v.certificate)
            && events == [AuthEvent(Some(v.user.id), "session_create", true, ip, ua, "", "")])
    ensures resp.status != 200 ==>
      store.sessions == old(store.sessions) && store.members == old(store.members)
      && |events| == 1 && IsFailure(events[0])
  {
    var ip := GetClientIP(req);
    var ua := GetUserAgent(req);
    var rate := limiter.CheckRateLimit("auth_" + ip, AuthLimit, AuthWindowMs, now);
    if !rate.allowed {
      events := [CreateFailure(ip, ua, "rate_limit_exceeded", "")];
      return Response(429, ErrorReply("AUTH_RATE_LIMIT_EXCEEDED", rate.retryAfter)), events;
    }
    var cert := req.headers.clientCert;
    var fp := req.headers.certFingerprint;
    if !Truthy(cert) || !Truthy(fp) {
      events := [CreateFailure(ip, ua, "missing_certificate", "")];
      return Response(401, ErrorReply("AUTH_CERT_MISSING", None)), events;
    }
    var deviceInfo := DeviceInfoOf(body, ua);
    var v := ValidateClientCertificate(parse, hash, cert.value, fp.value, store.members, store.reachable, now);
    if v.Invalid? {
      events := [CreateFailure(ip, ua, "invalid_certificate", v.error.Code())];
      return Response(401, ErrorReply("AUTH_CERT_INVALID", None)), events;
    }
    var user := v.user;
    ghost var k := FindByCertHash(store.members, hash(cert.value)).value;
    assert store.members[k] == user;
    var created := store.CreateSession(user.id, fp.value, deviceInfo, Some(ip), token, now);
    if created.Failure? {
      events := [CreateFailure(ip, ua, "system_error", "")];
      return Response(500, ErrorReply("SYSTEM_ERROR", None)), events;
    }
    events := [AuthEvent(Some(user.id), "session_create", true, ip, ua, "", "")];
    resp := Response(200, Created(created.value.sessionToken, created.value.expiresAt, PublicOf(user), v.certificate));
  }

  /** GET: the bearer token, then the fingerprint header, then session
      validation. Only a failed validation is logged. */
  method Get(req: Request, store: SessionStore, now: int) returns (resp: Response, ghost events: seq<SecurityEvent>)
    requires store.Valid()
    modifies store
    ensures store.Valid() && store.members == old(store.members) && store.reachable == old(store.reachable)
    ensures var token := BearerToken(req.headers.authorization); var fp := req.headers.certFingerprint;
      && (token == "" ==>
            resp == Response(401, ErrorReply("AUTH_SESSION_MISSING", None))
            && events == [] && store.sessions == old(store.sessions))
      && (token != "" && !Truthy(fp) ==>
            resp == Response(401, ErrorReply("AUTH_CERT_MISSING", None))
            && events == [] && store.sessions == old(store.sessions))
      && (token != "" && Truthy(fp) ==>
            var (v, after) := Validation(old(store.sessions), store.members, store.reachable, token, fp.value, now);
            && store.sessions == after
            && (v.Rejected? ==>
                  resp == Response(401, ErrorReply("AUTH_SESSION_INVALID", None))
                  && events == [AuthEvent(None, "session_validate", false, GetClientIP(req), GetUserAgent(req),
                                          v.error.Code(), "")])
            && (v.Accepted? ==>
                  resp == Response(200, Current(PublicOf(v.user), v.session, []))
                  && events == []))
  {
    var ip := GetClientIP(req);
    var ua := GetUserAgent(req);
    var token := BearerToken(req.headers.authorization);
    if token == "" {
      return Response(401, ErrorReply("AUTH_SESSION_MISSING", None)), [];
    }
    var fp := req.headers.certFingerprint;
    if !Truthy(fp) {
      return Response(401, ErrorReply("AUTH_CERT_MISSING", None)), [];
    }
    var v := store.ValidateSession(token, fp.value, now);
    if v.Rejected? {
      events := [AuthEvent(None, "session_validate", false, ip, ua, v.error.Code(), "")];
      return Response(401, ErrorReply("AUTH_SESSION_INVALID", None)), events;
    }
    resp := Response(200, Current(PublicOf(v.user), v.session, []));
    events := [];
  }

  /** DELETE: logs out every session carrying the bearer token. */
  method Delete(req: Request, store: SessionStore) returns (resp: Response, ghost events: seq<SecurityEvent>)
    requires store.Valid()
    modifies store
    ensures store.Valid() && store.members == old(store.members) && store.reachable == old(store.reachable)
    ensures var token := BearerToken(req.headers.authorization);
      && (token == "" ==>
            resp == Response(401, ErrorReply("AUTH_SESSION_MISSING", None))
            && events == [] && store.sessions == old(store.sessions))
      && (token != "" && store.reachable ==>
            resp == Response(204, NoBody)
            && store.sessions == Deactivate(old(store.sessions), TokenIs(token))
            && events == [AuthEvent(None, "session_destroy", true, GetClientIP(req), GetUserAgent(req), "", "")])
      && (token != "" && !store.reachable ==>
            resp == Response(404, ErrorReply("AUTH_SESSION_INVALID", None))
            && events == [] && store.sessions == old(store.sessions))
  {
    var token := BearerToken(req.headers.authorization);
    if token == "" {
      return Response(401, ErrorReply("AUTH_SESSION_MISSING", None)), [];
    }
    var ok := store.InvalidateSession(token);
    if ok {
      events := [AuthEvent(None, "session_destroy", true, GetClientIP(req), GetUserAgent(req), "", "")];
      resp := Response(204, NoBody);
    } else {
      resp := Response(404, ErrorReply("AUTH_SESSION_INVALID", None));
      events := [];
    }
  }
}
