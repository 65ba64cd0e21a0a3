/** The login-session table of the two-stage login. A session is created at
    stage `CertificateValidated` with a short-lived temporary token and can
    only be promoted, once, to `Authenticated` with a new token. */
module StagedSessions {
  import opened Wrappers
  import Tables

  datatype Stage = CertificateValidated | Authenticated

  datatype StagedSession = StagedSession(
    id: nat,
    token: string,
    memberId: string,
    certificateId: string,
    stage: Stage,
    ip: string,
    userAgent: string,
    expiresAt: int,
    trusted: bool)

  /** Stage one lasts 10 minutes. */
  const PendingTtlMs: int := 10 * 60 * 1000

  /** `{ token, stage: 'certificate_validated', expiresAt: { gt: now } }`. */
  function Pending(token: string, now: int): StagedSession -> bool {
    (s: StagedSession) => s.token == token && s.stage == CertificateValidated && s.expiresAt > now
  }

  /** The stage-one session a temporary token currently opens, if any. */
  function FindPending(sessions: seq<StagedSession>, token: string, now: int): Option<nat> {
    Tables.FirstWhere(sessions, Pending(token, now))
  }

  /** The row the promotion writes in place of a stage-one session. */
  function Promoted(s: StagedSession, token: string, trusted: bool, expiresAt: int): StagedSession {
    s.(token := token, stage := Authenticated, trusted := trusted, expiresAt := expiresAt)
  }

  class StagedSessionTable {
    var sessions: seq<StagedSession>
    var reachable: bool

    /** Session ids are their row numbers. */
    ghost predicate Valid()
      reads this
    {
      forall i :: 0 <= i < |sessions| ==> sessions[i].id == i
    }

    constructor(reachable: bool)
      ensures sessions == [] && this.reachable == reachable && Valid()
    {
      sessions := [];
      this.reachable := reachable;
    }

    /** The session insert the stage-one handler performs; it fails (throws)
        when the database cannot be reached. New sessions are not trusted. */
    method Create(token: string, memberId: string, certificateId: string, stage: Stage,
                  ip: string, userAgent: string, expiresAt: int) returns (ok: bool)
      requires Valid()
      modifies this
      ensures Valid() && reachable == old(reachable) && ok == reachable
      ensures sessions == if reachable
        then old(sessions) + [StagedSession(|old(sessions)|, token, memberId, certificateId, stage, ip, userAgent, expiresAt, false)]
        else old(sessions)
    {
      if !reachable {
        return false;
      }
      sessions := sessions + [StagedSession(|sessions|, token, memberId, certificateId, stage, ip, userAgent, expiresAt, false)];
      ok := true;
    }

    /** The in-place session update of the promotion: new token, stage
        `Authenticated`, trust flag and expiry; nothing else changes. The
        update selects the row by its id, which (ids being row numbers) is
        the row `i` the pending lookup found. */
    method Promote(i: nat, token: string, trusted: bool, expiresAt: int)
      requires Valid() && i < |sessions|
      modifies this
      ensures Valid() && reachable == old(reachable)
      ensures sessions == old(sessions)[i := Promoted(old(sessions)[i], token, trusted, expiresAt)]
      ensures forall j :: 0 <= j < |sessions| ==>
        sessions[j] == if old(sessions)[j].id == old(sessions)[i].id
                       then Promoted(old(sessions)[j], token, trusted, expiresAt) else old(sessions)[j]
    {
      sessions := sessions[i := Promoted(sessions[i], token, trusted, expiresAt)];
    }
  }

  /** A temporary token opens only an unexpired stage-one session carrying
      it, the first such row; and it opens none exactly when there is none. */
  lemma FindPendingMeaning(sessions: seq<StagedSession>, token: string, now: int)
    ensures var r := FindPending(sessions, token, now);
      && (r.Some? ==> r.value < |sessions| && sessions[r.value].token == token
                      && sessions[r.value].stage == CertificateValidated && sessions[r.value].expiresAt > now)
      && (r.None? <==> forall j :: 0 <= j < |sessions| ==>
            !(sessions[j].token == token && sessions[j].stage == CertificateValidated && sessions[j].expiresAt > now))
  {
  }

  /** A promoted session can never be found as pending again, under any token
      at any time: stage two is never promoted a second time. */
  lemma PromotedNeverPending(sessions: seq<StagedSession>, i: nat, newToken: string, trusted: bool,
                             expiresAt: int, token: string, now: int)
    requires i < |sessions|
    ensures FindPending(sessions[i := Promoted(sessions[i], newToken, trusted, expiresAt)], token, now) != Some(i)
  {
  }

  /** Promoting a session leaves every other pending session findable as before. */
  lemma PromoteKeepsOthers(sessions: seq<StagedSession>, i: nat, newToken: string, trusted: bool,
                           expiresAt: int, token: string, now: int)
    requires i < |sessions|
    requires FindPending(sessions, token, now) != Some(i)
    ensures FindPending(sessions[i := Promoted(sessions[i], newToken, trusted, expiresAt)], token, now)
         == FindPending(sessions, token, now)
  {
    var after := sessions[i := Promoted(sessions[i], newToken, trusted, expiresAt)];
    var p := Pending(token, now);
    assert !p(after[i]);
    var r := FindPending(sessions, token, now);
    if r.None? {
      assert forall j :: 0 <= j < |after| ==> !p(after[j]);
    } else {
      assert !p(sessions[i]) || i > r.value;
      assert forall j :: 0 <= j < |after| && j != i ==> after[j] == sessions[j];
      var r2 := FindPending(after, token, now);
      assert r2.Some? && r2.value <= r.value;
    }
  }

  /** A stage-one session created at `created` under a token no earlier row
      carries is what that token opens for exactly the following ten minutes. */
  lemma PendingWindow(sessions: seq<StagedSession>, token: string, memberId: string, certificateId: string,
                      ip: string, userAgent: string, created: int, now: int)
    requires forall j :: 0 <= j < |sessions| ==> sessions[j].token != token
    ensures var after := sessions + [StagedSession(|sessions|, token, memberId, certificateId, CertificateValidated,
                                                   ip, userAgent, created + PendingTtlMs, false)];
      FindPending(after, token, now) == if now < created + PendingTtlMs then Some(|sessions|) else None
  {
    var after := sessions + [StagedSession(|sessions|, token, memberId, certificateId, CertificateValidated,
                                           ip, userAgent, created + PendingTtlMs, false)];
    var p := Pending(token, now);
    assert forall j :: 0 <= j < |sessions| ==> after[j] == sessions[j] && !p(after[j]);
    assert p(after[|sessions|]) <==> now < created + PendingTtlMs;
    var r := FindPending(after, token, now);
    if r.Some? {
      assert r.value == |sessions|;
    }
  }
}
