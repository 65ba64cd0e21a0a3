/** `POST /api/auth/master-password`, stage two of the login: checks the
    master password against the member of a pending stage-one session and
    promotes that session in place. The password check and the rate limiter
    are taken in the form this handler calls them. */
module MasterPasswordRoute {
  import opened Wrappers
  import opened RateLimit
  import opened Members
  import opened StagedSessions
  import opened SecurityLog
  import opened Http
  import Crypto

  datatype Request = Request(ip: Option<string>, authorization: Option<string>, userAgent: Option<string>)

  /** The JSON body: `Unparseable` when reading or destructuring it throws.
      An absent `rememberDevice` reads as false. */
  datatype Body = Unparseable | Parsed(masterPassword: Option<string>, rememberDevice: bool)

  /** The verdict of the master-password check, as the handler reads it. */
  datatype Verdict = Verdict(isValid: bool, attempts: int, lockTime: int)

  /** The master-password check: (member id, password) to verdict. */
  type PasswordVerifier = (string, string) -> Verdict

  datatype MemberSummary = MemberSummary(id: string, name: string, email: string, role: string)

  /** What the client needs to derive its encryption key itself. */
  datatype KeyDerivation = KeyDerivation(salt: string, iterations: nat, algorithm: string)

  datatype Reply =
    | ErrorReply(message: string)
    | WrongPassword(attempts: int, lockTime: int)
    | LoggedIn(token: string, member: MemberSummary, keyDerivation: KeyDerivation, expiresAt: int)

  datatype Response = Response(status: int, reply: Reply)

  const Limit: int := 5
  /** `checkLimit(key, 5, 900)`: 900 read as seconds, the 15 minutes its comment names. */
  const WindowMs: int := 900 * 1000
  const TrustedTtlMs: int := 30 * 24 * 60 * 60 * 1000
  const SessionTtlMs: int := 8 * 60 * 60 * 1000

  /** How long the promoted session lasts: 30 days on a remembered device, else 8 hours. */
  function TtlMs(rememberDevice: bool): (ttl: int)
    ensures ttl > 0
    ensures rememberDevice ==> ttl == 2592000000
    ensures !rememberDevice ==> ttl == 28800000
  {
    if rememberDevice then TrustedTtlMs else SessionTtlMs
  }

  function Summary(m: Member): MemberSummary {
    MemberSummary(m.id, m.name, m.email, m.role)
  }

  /** The key-derivation parameters handed to the client: the member's salt
      with the same iteration count and algorithm the server uses. */
  function KeyDerivationOf(m: Member): (k: KeyDerivation)
    ensures k.salt == m.encryptionSalt && k.iterations == Crypto.Iterations && k.algorithm == "PBKDF2"
  {
    KeyDerivation(m.encryptionSalt, 100000, "PBKDF2")
  }

  method Post(req: Request, body: Body, limiter: RateLimiter, table: StagedSessionTable, members: seq<Member>,
              verify: PasswordVerifier, newToken: string, now: int)
    returns (resp: Response, ghost events: seq<SecurityEvent>)
    requires table.Valid()
    modifies limiter, table
    ensures table.Valid() && table.reachable == old(table.reachable)
    ensures var ip := OrElse(req.ip, "unknown"); var key := "master_password:" + ip;
      limiter.store == old(limiter.store)[key := Admit(Lookup(old(limiter.store), key), WindowMs, now)]
    ensures var ip := OrElse(req.ip, "unknown");
      var allowed := Decide(limiter.store["master_password:" + ip], Limit, now).allowed;
      var token := BearerToken(req.authorization);
      && (!allowed ==>
            resp == Response(429, ErrorReply("Too many requests. Please try again later."))
            && events == [NamedEvent("RATE_LIMIT_EXCEEDED", ip, "master_password_auth")])
      && (allowed && body.Unparseable? ==>
            resp == Response(500, ErrorReply("Internal server error"))
            && events == [NamedEvent("MASTER_PASSWORD_ERROR", ip, "")])
      && (allowed && body.Parsed? && !Truthy(body.masterPassword) ==>
            resp == Response(400, ErrorReply("Master password is required")) && events == [])
      && (allowed && body.Parsed? && Truthy(body.masterPassword) && token == "" ==>
            resp == Response(401, ErrorReply("Temporary token is required")) && events == [])
      && (allowed && body.Parsed? && Truthy(body.masterPassword) && token != "" && !table.reachable ==>
            resp == Response(500, ErrorReply("Internal server error"))
            && events == [NamedEvent("MASTER_PASSWORD_ERROR", ip, "")])
      && (allowed && body.Parsed? && Truthy(body.masterPassword) && token != "" && table.reachable ==>
            match FindPending(old(table.sessions), token, now)
            case None =>
              resp == Response(401, ErrorReply("Invalid or expired temporary token"))
              && events == [NamedEvent("INVALID_TEMP_TOKEN", ip, Prefix(token, 10) + "...")]
            case Some(i) =>
              var s := old(table.sessions)[i];
              match FindById(members, s.memberId)
              case None =>
                resp == Response(500, ErrorReply("Internal server error"))
                && events == [NamedEvent("MASTER_PASSWORD_ERROR", ip, "")]
              case Some(k) =>
                var m := members[k];
                var verdict := verify(m.id, body.masterPassword.value);
                && (!verdict.isValid ==>
                      resp == Response(401, WrongPassword(verdict.attempts, verdict.lockTime))
                      && events == [MasterPasswordFailed(m.id, ip, OrElse(req.userAgent, ""), verdict.attempts)])
                && (verdict.isValid ==>
                      var expiresAt := now + TtlMs(body.rememberDevice);
                      && table.sessions == old(table.sessions)[i := Promoted(s, newToken, body.rememberDevice, expiresAt)]
                      && resp == Response(200, LoggedIn(newToken, Summary(m), KeyDerivationOf(m), expiresAt))
                      && events == [NamedEvent("AUTHENTICATION_SUCCESS", ip, m.id)]))
    ensures resp.status != 200 ==> table.sessions == old(table.sessions)
  {
    var ip := OrElse(req.ip, "unknown");
    var rate := limiter.CheckRateLimit("master_password:" + ip, Limit, WindowMs, now);
    if !rate.allowed {
      events := [NamedEvent("RATE_LIMIT_EXCEEDED", ip, "master_password_auth")];
      return Response(429, ErrorReply("Too many requests. Please try again later.")), events;
    }
    if body.Unparseable? {
      events := [NamedEvent("MASTER_PASSWORD_ERROR", ip, "")];
      return Response(500, ErrorReply("Internal server error")), events;
    }
    if !Truthy(body.masterPassword) {
      return Response(400, ErrorReply("Master password is required")), [];
    }
    var token := BearerToken(req.authorization);
    if token == "" {
      return Response(401, ErrorReply("Temporary token is required")), [];
    }
    if !table.reachable {
      events := [NamedEvent("MASTER_PASSWORD_ERROR", ip, "")];
      return Response(500, ErrorReply("Internal server error")), events;
    }
    var found := FindPending(table.sessions, token, now);
    if found.None? {
      events := [NamedEvent("INVALID_TEMP_TOKEN", ip, Prefix(token, 10) + "...")];
      return Response(401, ErrorReply("Invalid or expired temporary token")), events;
    }
    var i := found.value;
    var s := table.sessions[i];
    var owner := FindById(members, s.memberId);
    if owner.None? {
      events := [NamedEvent("MASTER_PASSWORD_ERROR", ip, "")];
      return Response(500, ErrorReply("Internal server error")), events;
    }
    var m := members[owner.value];
    var verdict := verify(m.id, body.masterPassword.value);
    if !verdict.isValid {
      events := [MasterPasswordFailed(m.id, ip, OrElse(req.userAgent, ""), verdict.attempts)];
      return Response(401, WrongPassword(verdict.attempts, verdict.lockTime)), events;
    }
    var expiresAt := now + TtlMs(body.rememberDevice);
    table.Promote(i, newToken, body.rememberDevice, expiresAt);
    events := [NamedEvent("AUTHENTICATION_SUCCESS", ip, m.id)];
    resp := Response(200, LoggedIn(newToken, Summary(m), KeyDerivationOf(m), expiresAt));
  }
}
