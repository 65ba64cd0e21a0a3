/** The user-session table and the operations the auth library performs on it:
    create, validate, invalidate, sweep and count. `reachable` says whether the
    database answers; a query against an unreachable database throws, and the
    operations that catch that report their fallback value. */
module Sessions {
  import opened Wrappers
  import opened Members
  import Tables

  datatype DeviceInfo = DeviceInfo(
    userAgent: string, platform: string, appVersion: Option<string>, deviceId: Option<string>)

  datatype UserSession = UserSession(
    id: nat,
    userId: string,
    sessionToken: string,
    certFingerprint: string,
    deviceInfo: Option<DeviceInfo>,
    ipAddress: Option<string>,
    userAgent: Option<string>,
    expiresAt: int,
    isActive: bool,
    createdAt: int,
    lastAccessedAt: int)

  datatype SessionData = SessionData(
    sessionToken: string, userId: string, certFingerprint: string,
    expiresAt: int, deviceInfo: Option<DeviceInfo>)

  datatype SessionError = SessionInvalid | UserInactive | SystemError
  {
    function Code(): string {
      match this
      case SessionInvalid => "session_invalid"
      case UserInactive => "user_inactive"
      case SystemError => "system_error"
    }
  }

  datatype SessionView = SessionView(id: nat, createdAt: int, lastAccessedAt: int, expiresAt: int)

  datatype SessionValidation =
    | Accepted(user: Member, session: SessionView)
    | Rejected(error: SessionError)

  /** Sessions last 24 hours. */
  const SessionTtlMs: int := 24 * 60 * 60 * 1000

  /** `s || null`: the empty string is stored as no value. */
  function OrNull(s: string): Option<string> {
    if s == "" then None else Some(s)
  }

  /** The row `createSession` inserts. */
  function NewSession(id: nat, userId: string, certFingerprint: string, deviceInfo: Option<DeviceInfo>,
                      ipAddress: Option<string>, token: string, now: int): UserSession
  {
    UserSession(id, userId, token, certFingerprint, deviceInfo,
                if ipAddress.Some? then OrNull(ipAddress.value) else None,
                if deviceInfo.Some? then OrNull(deviceInfo.value.userAgent) else None,
                now + SessionTtlMs, true, now, now)
  }

  // The `where` filters of the session queries.

  /** `{ sessionToken }`. */
  function TokenIs(token: string): UserSession -> bool {
    (s: UserSession) => s.sessionToken == token
  }

  /** `{ sessionToken, certFingerprint, expiresAt: { gt: now }, isActive: true }`. */
  function LiveFor(token: string, certFingerprint: string, now: int): UserSession -> bool {
    (s: UserSession) => s.sessionToken == token && s.certFingerprint == certFingerprint && s.expiresAt > now && s.isActive
  }

  /** `{ OR: [{ expiresAt: { lt: now } }, { isActive: false }] }`. */
  function Sweepable(now: int): UserSession -> bool {
    (s: UserSession) => s.expiresAt < now || !s.isActive
  }

  /** `{ userId, sessionToken: { not: current }, isActive: true }`. */
  function OthersOf(userId: string, current: string): UserSession -> bool {
    (s: UserSession) => s.userId == userId && s.sessionToken != current && s.isActive
  }

  /** `{ userId, expiresAt: { gt: now }, isActive: true }`. */
  function ActiveOf(userId: string, now: int): UserSession -> bool {
    (s: UserSession) => s.userId == userId && s.expiresAt > now && s.isActive
  }

  function Deactivated(s: UserSession): UserSession {
    s.(isActive := false)
  }

  /** `updateMany({ where, data: { isActive: false } })`. */
  function Deactivate(sessions: seq<UserSession>, where: UserSession -> bool): seq<UserSession> {
    Tables.UpdateWhere(sessions, where, Deactivated)
  }

  function IdIs(id: string): Member -> bool {
    (m: Member) => m.id == id
  }

  function LoggedIn(now: int): Member -> Member {
    (m: Member) => m.(loginCount := m.loginCount + 1, lastLoginAt := Some(now))
  }

  /** The member update of `createSession`: one more login, at `now`. */
  function RecordLogin(members: seq<Member>, userId: string, now: int): seq<Member> {
    Tables.UpdateWhere(members, IdIs(userId), LoggedIn(now))
  }

  /** The answer `validateSession` gives and the session table it leaves. An
      owner missing from the member table makes the relation access throw,
      which is reported as a system error. */
  function Validation(sessions: seq<UserSession>, members: seq<Member>, reachable: bool,
                      token: string, certFingerprint: string, now: int): (SessionValidation, seq<UserSession>)
  {
    if !reachable then (Rejected(SystemError), sessions)
    else match Tables.FirstWhere(sessions, LiveFor(token, certFingerprint, now))
      case None => (Rejected(SessionInvalid), sessions)
      case Some(i) =>
        var s := sessions[i];
        match FindById(members, s.userId)
        case None => (Rejected(SystemError), sessions)
        case Some(k) =>
          if !members[k].isActive then (Rejected(UserInactive), sessions)
          else (Accepted(members[k], SessionView(s.id, s.createdAt, now, s.expiresAt)),
                sessions[i := s.(lastAccessedAt := now)])
  }

  class SessionStore {
    var members: seq<Member>
    var sessions: seq<UserSession>
    var reachable: bool

    /** Session ids are their row numbers. */
    ghost predicate Valid()
      reads this
    {
      forall i :: 0 <= i < |sessions| ==> sessions[i].id == i
    }

    constructor(members: seq<Member>, reachable: bool)
      ensures this.members == members && sessions == [] && this.reachable == reachable
      ensures Valid()
    {
      this.members := members;
      sessions := [];
      this.reachable := reachable;
    }

    /** `createSession`: inserts one active session expiring in 24 hours, then
        counts a login for the member. The insert happens even when the member
        update then fails for want of the member; a failure is the thrown
        fault. */
    method CreateSession(userId: string, certFingerprint: string, deviceInfo: Option<DeviceInfo>,
                         ipAddress: Option<string>, token: string, now: int)
      returns (r: Result<SessionData, SessionError>)
      requires Valid()
      modifies this
      ensures Valid() && reachable == old(reachable)
      ensures !reachable ==> r == Failure(SystemError) && sessions == old(sessions) && members == old(members)
      ensures reachable ==> sessions == old(sessions) + [NewSession(|old(sessions)|, userId, certFingerprint, deviceInfo, ipAddress, token, now)]
      ensures reachable ==> members == RecordLogin(old(members), userId, now)
      ensures r.Success? <==> reachable && FindById(old(members), userId).Some?
      ensures r.Success? ==> r.value == SessionData(token, userId, certFingerprint, now + SessionTtlMs, deviceInfo)
      ensures r.Failure? ==> r.error == SystemError
    {
      if !reachable {
        return Failure(SystemError);
      }
      var expiresAt := now + SessionTtlMs;
      sessions := sessions + [NewSession(|sessions|, userId, certFingerprint, deviceInfo, ipAddress, token, now)];
      if FindById(members, userId).None? {
        members := RecordLogin(members, userId, now);
        return Failure(SystemError);
      }
      members := RecordLogin(members, userId, now);
      r := Success(SessionData(token, userId, certFingerprint, expiresAt, deviceInfo));
    }

    /** `validateSession`: finds the first live session for the token and
        fingerprint, checks its owner is active, and touches that session's
        last-access time. */
    method ValidateSession(token: string, certFingerprint: string, now: int) returns (r: SessionValidation)
      requires Valid()
      modifies this
      ensures Valid() && members == old(members) && reachable == old(reachable)
      ensures (r, sessions) == Validation(old(sessions), members, reachable, token, certFingerprint, now)
      // the touch selects the row by the id the answer reports, and no other
      ensures r.Accepted? ==> |sessions| == |old(sessions)| && forall j :: 0 <= j < |sessions| ==>
        sessions[j] == if old(sessions)[j].id == r.session.id
                       then old(sessions)[j].(lastAccessedAt := now) else old(sessions)[j]
    {
      if !reachable {
        return Rejected(SystemError);
      }
      var found := Tables.FirstWhere(sessions, LiveFor(token, certFingerprint, now));
      if found.None? {
        return Rejected(SessionInvalid);
      }
      var i := found.value;
      var s := sessions[i];
      var owner := FindById(members, s.userId);
      if owner.None? {
        return Rejected(SystemError);
      }
      var user := members[owner.value];
      if !user.isActive {
        return Rejected(UserInactive);
      }
      sessions := sessions[i := s.(lastAccessedAt := now)];
      r := Accepted(user, SessionView(s.id, s.createdAt, now, s.expiresAt));
    }

    /** `invalidateSession`: deactivates every session with the token; reports
        success whether or not any matched. */
    method InvalidateSession(token: string) returns (ok: bool)
      requires Valid()
      modifies this
      ensures Valid() && members == old(members) && reachable == old(reachable)
      ensures ok == reachable
      ensures sessions == if reachable then Deactivate(old(sessions), TokenIs(token)) else old(sessions)
    {
      if !reachable {
        return false;
      }
      sessions := Deactivate(sessions, TokenIs(token));
      ok := true;
    }

    /** `cleanupExpiredSessions`: deactivates expired sessions and reports how
        many rows matched, already-inactive ones included. */
    method CleanupExpiredSessions(now: int) returns (count: nat)
      requires Valid()
      modifies this
      ensures Valid() && members == old(members) && reachable == old(reachable)
      ensures count == if reachable then Tables.CountWhere(old(sessions), Sweepable(now)) else 0
      ensures sessions == if reachable then Deactivate(old(sessions), Sweepable(now)) else old(sessions)
    {
      if !reachable {
        return 0;
      }
      count := Tables.CountWhere(sessions, Sweepable(now));
      sessions := Deactivate(sessions, Sweepable(now));
    }

    /** `invalidateOtherSessions`: deactivates the member's other active
        sessions and reports how many. */
    method InvalidateOtherSessions(userId: string, currentToken: string) returns (count: nat)
      requires Valid()
      modifies this
      ensures Valid() && members == old(members) && reachable == old(reachable)
      ensures count == if reachable then Tables.CountWhere(old(sessions), OthersOf(userId, currentToken)) else 0
      ensures sessions == if reachable then Deactivate(old(sessions), OthersOf(userId, currentToken)) else old(sessions)
    {
      if !reachable {
        return 0;
      }
      count := Tables.CountWhere(sessions, OthersOf(userId, currentToken));
      sessions := Deactivate(sessions, OthersOf(userId, currentToken));
    }

    /** `getActiveSessionCount`: the member's unexpired active sessions. */
    method GetActiveSessionCount(userId: string, now: int) returns (count: nat)
      ensures count <= |sessions|
      ensures reachable ==> (count == 0 <==> forall i :: 0 <= i < |sessions| ==>
                               !(sessions[i].userId == userId && sessions[i].expiresAt > now && sessions[i].isActive))
      ensures reachable ==> count == Tables.CountWhere(sessions, ActiveOf(userId, now))
      ensures !reachable ==> count == 0
    {
      if !reachable {
        return 0;
      }
      count := Tables.CountWhere(sessions, ActiveOf(userId, now));
    }

    /** `hasMasterPasswordSet`: whether the member exists and is active. */
    method HasMasterPasswordSet(userId: string) returns (b: bool)
      ensures b <==> reachable && exists i :: (0 <= i < |members| && members[i].id == userId && members[i].isActive
                                               && forall j :: 0 <= j < i ==> members[j].id != userId)
    {
      if !reachable {
        return false;
      }
      var k := FindById(members, userId);
      b := k.Some? && members[k.value].isActive;
      if k.Some? {
        assert members[k.value].id == userId;
      }
    }
  }

  /** Validation, case by case: it succeeds only for a session that matches
      token and fingerprint, has not expired and is active, and then answers
      with the first such session and its active owner, changing only that
      session's last-access time; with no such session the answer is
      `session_invalid`, with an inactive owner `user_inactive`, and a
      rejection changes nothing. */
  lemma ValidationMeaning(sessions: seq<UserSession>, members: seq<Member>, reachable: bool,
                          token: string, certFingerprint: string, now: int)
    ensures var (r, after) := Validation(sessions, members, reachable, token, certFingerprint, now);
      && (r.Rejected? ==> after == sessions)
      && (r == Rejected(SessionInvalid) <==>
            reachable && forall j :: 0 <= j < |sessions| ==> !LiveFor(token, certFingerprint, now)(sessions[j]))
      && (r.Accepted? ==>
            exists i :: 0 <= i < |sessions|
              && sessions[i].sessionToken == token && sessions[i].certFingerprint == certFingerprint
              && sessions[i].expiresAt > now && sessions[i].isActive
              && (forall j :: 0 <= j < i ==> !LiveFor(token, certFingerprint, now)(sessions[j]))
              && r.user.isActive && r.user.id == sessions[i].userId && r.user in members
              && r.session == SessionView(sessions[i].id, sessions[i].createdAt, now, sessions[i].expiresAt)
              && after == sessions[i := sessions[i].(lastAccessedAt := now)])
      && (r == Rejected(UserInactive) ==>
            exists i :: 0 <= i < |sessions| && LiveFor(token, certFingerprint, now)(sessions[i])
              && (forall j :: 0 <= j < i ==> !LiveFor(token, certFingerprint, now)(sessions[j]))
              && FindById(members, sessions[i].userId).Some?
              && !members[FindById(members, sessions[i].userId).value].isActive)
  {
    if reachable {
      var found := Tables.FirstWhere(sessions, LiveFor(token, certFingerprint, now));
      if found.Some? {
        var i := found.value;
        var owner := FindById(members, sessions[i].userId);
        if owner.Some? {
          assert members[owner.value] in members;
        }
      }
    }
  }

  /** The converse: once the first live session for the token is known, its
      owner decides the answer. No owner is a system error, an inactive owner
      is rejected, and an active owner is accepted. */
  lemma ValidationDecided(sessions: seq<UserSession>, members: seq<Member>, reachable: bool,
                          token: string, certFingerprint: string, now: int, i: nat)
    requires reachable && i < |sessions| && LiveFor(token, certFingerprint, now)(sessions[i])
    requires forall j :: 0 <= j < i ==> !LiveFor(token, certFingerprint, now)(sessions[j])
    ensures var r := Validation(sessions, members, reachable, token, certFingerprint, now).0;
      var owner := FindById(members, sessions[i].userId);
      && (owner.None? ==> r == Rejected(SystemError))
      && (owner.Some? && !members[owner.value].isActive ==> r == Rejected(UserInactive))
      && (owner.Some? && members[owner.value].isActive ==>
            r == Accepted(members[owner.value], SessionView(sessions[i].id, sessions[i].createdAt, now, sessions[i].expiresAt)))
  {
    var found := Tables.FirstWhere(sessions, LiveFor(token, certFingerprint, now));
    assert found == Some(i);
  }

  /** A login adds exactly one to the member's login count and stamps the
      time; no other member changes. */
  lemma RecordLoginEffect(members: seq<Member>, userId: string, now: int)
    ensures var after := RecordLogin(members, userId, now);
      |after| == |members| &&
      forall i :: 0 <= i < |members| ==>
        if members[i].id == userId
        then after[i] == members[i].(loginCount := members[i].loginCount + 1, lastLoginAt := Some(now))
        else after[i] == members[i]
  {
  }

  /** A created session counts as one more active session of its member. */
  lemma CreateAddsActive(sessions: seq<UserSession>, id: nat, userId: string, certFingerprint: string,
                         deviceInfo: Option<DeviceInfo>, ipAddress: Option<string>, token: string, now: int)
    ensures Tables.CountWhere(sessions + [NewSession(id, userId, certFingerprint, deviceInfo, ipAddress, token, now)],
                              ActiveOf(userId, now))
         == Tables.CountWhere(sessions, ActiveOf(userId, now)) + 1
  {
    Tables.CountAppend(sessions, NewSession(id, userId, certFingerprint, deviceInfo, ipAddress, token, now),
                       ActiveOf(userId, now));
  }

  /** A freshly created session, under a token no earlier session carries, is
      the one validation finds for that token and fingerprint, for exactly the
      24 hours it lasts. */
  lemma CreatedSessionValidates(sessions: seq<UserSession>, userId: string, certFingerprint: string,
                                deviceInfo: Option<DeviceInfo>, ipAddress: Option<string>,
                                token: string, created: int, now: int)
    requires forall i :: 0 <= i < |sessions| ==> sessions[i].sessionToken != token
    ensures var after := sessions + [NewSession(|sessions|, userId, certFingerprint, deviceInfo, ipAddress, token, created)];
      Tables.FirstWhere(after, LiveFor(token, certFingerprint, now))
        == if now < created + SessionTtlMs then Some(|sessions|) else None
  {
    var after := sessions + [NewSession(|sessions|, userId, certFingerprint, deviceInfo, ipAddress, token, created)];
    var p := LiveFor(token, certFingerprint, now);
    assert forall i :: 0 <= i < |sessions| ==> after[i] == sessions[i] && !p(after[i]);
    assert p(after[|sessions|]) <==> now < created + SessionTtlMs;
    var r := Tables.FirstWhere(after, p);
    if r.Some? {
      assert r.value == |sessions|;
    }
  }

  /** After logging out a token, no session validates under it. */
  lemma LogoutRejects(sessions: seq<UserSession>, token: string, certFingerprint: string, now: int)
    ensures Tables.FirstWhere(Deactivate(sessions, TokenIs(token)), LiveFor(token, certFingerprint, now)).None?
  {
    var after := Deactivate(sessions, TokenIs(token));
    forall j | 0 <= j < |after| ensures !LiveFor(token, certFingerprint, now)(after[j]) {
      if sessions[j].sessionToken == token {
        assert after[j] == Deactivated(sessions[j]);
      }
    }
  }

  /** Logging out twice leaves the same table as logging out once. */
  lemma LogoutIdempotent(sessions: seq<UserSession>, token: string)
    ensures Deactivate(Deactivate(sessions, TokenIs(token)), TokenIs(token)) == Deactivate(sessions, TokenIs(token))
  {
    var once := Deactivate(sessions, TokenIs(token));
    var twice := Deactivate(once, TokenIs(token));
    assert |twice| == |once|;
    forall i | 0 <= i < |once| ensures twice[i] == once[i] {
      if sessions[i].sessionToken == token {
        assert once[i] == Deactivated(sessions[i]);
      }
    }
  }

  /** After a sweep no expired session is active, and a second sweep at the
      same instant changes nothing yet reports the same count, because the
      count includes sessions that were already inactive. */
  lemma SweepMeaning(sessions: seq<UserSession>, now: int)
    ensures var after := Deactivate(sessions, Sweepable(now));
      && (forall i :: 0 <= i < |after| ==> after[i].expiresAt < now ==> !after[i].isActive)
      && Deactivate(after, Sweepable(now)) == after
      && Tables.CountWhere(after, Sweepable(now)) == Tables.CountWhere(sessions, Sweepable(now))
  {
    var after := Deactivate(sessions, Sweepable(now));
    var again := Deactivate(after, Sweepable(now));
    forall i | 0 <= i < |after|
      ensures (Sweepable(now)(after[i]) <==> Sweepable(now)(sessions[i]))
      ensures again[i] == after[i]
    {
      if Sweepable(now)(sessions[i]) {
        assert after[i] == Deactivated(sessions[i]);
      }
    }
    Tables.CountPointwise(after, Sweepable(now), sessions, Sweepable(now));
  }

  /** Invalidating the other sessions leaves the current token's sessions and
      other members' sessions untouched, deactivates every other session of
      the member, and leaves as active only sessions carrying the current
      token. */
  lemma OtherSessionsMeaning(sessions: seq<UserSession>, userId: string, current: string, now: int)
    ensures var after := Deactivate(sessions, OthersOf(userId, current));
      && |after| == |sessions|
      && (forall i :: 0 <= i < |sessions| ==>
            if sessions[i].userId == userId && sessions[i].sessionToken != current
            then !after[i].isActive && after[i] == sessions[i].(isActive := false)
            else after[i] == sessions[i])
      && Tables.CountWhere(after, ActiveOf(userId, now))
         == Tables.CountWhere(sessions, (s: UserSession) => ActiveOf(userId, now)(s) && s.sessionToken == current)
  {
    var after := Deactivate(sessions, OthersOf(userId, current));
    forall i | 0 <= i < |sessions|
      ensures if sessions[i].userId == userId && sessions[i].sessionToken != current
              then !after[i].isActive && after[i] == sessions[i].(isActive := false)
              else after[i] == sessions[i]
    {
    }
    Tables.CountPointwise(after, ActiveOf(userId, now),
                          sessions, (s: UserSession) => ActiveOf(userId, now)(s) && s.sessionToken == current);
  }
}
