/** The master-password form in the browser: it counts rejected attempts,
    locks itself for 30 minutes after the fifth, counts the lock down once a
    second, and keeps the token of a successful login. */
module MasterPasswordPage {
  import opened Wrappers
  import opened Text
  import Crypto

  /** The lockout part of the form state. */
  datatype Lock = Lock(attempts: nat, isLocked: bool, remaining: nat)

  const MaxAttempts: nat := 5
  const WarnFrom: nat := 3
  const LockSeconds: nat := 1800

  /** The form's lockout invariant: locked exactly when the attempts have
      reached the maximum, and never for longer than the lock period. */
  predicate Consistent(l: Lock) {
    (l.isLocked <==> l.attempts >= MaxAttempts) && l.remaining <= LockSeconds
  }

  /** A rejected password: one more attempt, locking at the fifth. */
  function AfterRejection(l: Lock): Lock {
    var n := l.attempts + 1;
    if n >= MaxAttempts then Lock(n, true, LockSeconds) else l.(attempts := n)
  }

  /** One firing of the countdown effect: a second off the lock, or, at zero,
      the lock lifted and the attempts reset. */
  function AfterTick(l: Lock): Lock {
    if l.isLocked && l.remaining > 0 then l.(remaining := l.remaining - 1)
    else if l.isLocked then Lock(0, false, l.remaining)
    else l
  }

  function Ticks(l: Lock, n: nat): Lock
    decreases n
  {
    if n == 0 then l else Ticks(AfterTick(l), n - 1)
  }

  function Rejections(l: Lock, n: nat): Lock
    decreases n
  {
    if n == 0 then l else Rejections(AfterRejection(l), n - 1)
  }

  const MsgEmpty := "マスターパスワードを入力してください。"
  const MsgLockedOut := "認証に5回失敗しました。アカウントが30分間ロックされます。"
  const MsgWrong := "マスターパスワードが正しくありません。"
  const MsgNetwork := "認証中にエラーが発生しました。しばらく待ってから再試行してください。"

  function LockedMessage(remaining: nat): string {
    "アカウントがロックされています。" + NatToString(remaining) + "秒後に再試行してください。"
  }

  /** The warning once three or more attempts have failed, naming the tries left. */
  function WarningMessage(left: nat): string {
    MsgWrong + "残り" + NatToString(left) + "回の試行でアカウントがロックされます。"
  }

  /** The error shown after the n-th rejected attempt. */
  function RejectionMessage(n: nat): string {
    if n >= MaxAttempts then MsgLockedOut
    else if n >= WarnFrom then WarningMessage(MaxAttempts - n)
    else MsgWrong
  }

  /** `!password.trim()`: empty or whitespace only (see `BlankIsEmptyTrim`). */
  predicate Blank(password: string) {
    AllWhitespace(password)
  }

  /** The password counts as blank exactly when trimming leaves nothing. */
  lemma BlankIsEmptyTrim(password: string)
    ensures Blank(password) <==> Trim(password) == ""
  {
    TrimEmptyIffWhitespace(password);
  }

  /** What the server answers a submitted password with. */
  datatype ServerReply = Ok(token: string) | Refused | NetworkError

  class MasterPasswordForm {
    var masterPassword: string
    var rememberDevice: bool
    var loading: bool
    var error: string
    var passwordStrength: Option<Crypto.Strength>
    var attempts: nat
    var isLocked: bool
    var lockTimeRemaining: nat
    /** The `authToken` and `deviceTrusted` entries of local storage. */
    var authToken: Option<string>
    var deviceTrusted: bool

    function LockOf(): Lock
      reads this
    {
      Lock(attempts, isLocked, lockTimeRemaining)
    }

    ghost predicate Valid()
      reads this
    {
      Consistent(LockOf())
    }

    constructor()
      ensures LockOf() == Lock(0, false, 0) && Valid()
      ensures masterPassword == "" && !rememberDevice && !loading && error == ""
      ensures passwordStrength == None && authToken == None && !deviceTrusted
    {
      masterPassword := "";
      rememberDevice := false;
      loading := false;
      error := "";
      passwordStrength := None;
      attempts := 0;
      isLocked := false;
      lockTimeRemaining := 0;
      authToken := None;
      deviceTrusted := false;
    }

    /** Typing: the new password, its strength (none for an empty field), and
        the error cleared. The field is disabled while the form is locked, so
        then nothing changes. */
    method ChangePassword(p: string)
      modifies this
      ensures !old(isLocked) ==> masterPassword == p && error == ""
      ensures !old(isLocked) ==> passwordStrength == if |p| > 0 then Some(Crypto.StrengthOf(p)) else None
      ensures old(isLocked) ==>
        masterPassword == old(masterPassword) && error == old(error) && passwordStrength == old(passwordStrength)
      ensures LockOf() == old(LockOf()) && loading == old(loading)
      ensures rememberDevice == old(rememberDevice)
      ensures authToken == old(authToken) && deviceTrusted == old(deviceTrusted)
    {
      if isLocked {
        return;
      }
      masterPassword := p;
      error := "";
      if |p| > 0 {
        var s := Crypto.EvaluatePasswordStrength(p);
        passwordStrength := Some(s);
      } else {
        passwordStrength := None;
      }
    }

    /** The "trust this device" checkbox: a change sets the flag; the box is
        disabled while the form is locked, so then nothing changes. */
    method SetRememberDevice(checked: bool)
      modifies this
      ensures rememberDevice == if old(isLocked) then old(rememberDevice) else checked
      ensures LockOf() == old(LockOf()) && loading == old(loading) && error == old(error)
      ensures masterPassword == old(masterPassword) && passwordStrength == old(passwordStrength)
      ensures authToken == old(authToken) && deviceTrusted == old(deviceTrusted)
    {
      if !isLocked {
        rememberDevice := checked;
      }
    }

    /** `handleSubmit`: a blank password or a locked form sets an error and
        sends nothing; otherwise the error is cleared, the password is sent
        and `reply` is handled. */
    method HandleSubmit(reply: ServerReply) returns (sent: bool)
      requires Valid()
      modifies this
      ensures Valid()
      ensures masterPassword == old(masterPassword) && rememberDevice == old(rememberDevice)
      ensures passwordStrength == old(passwordStrength)
      ensures sent <==> !Blank(masterPassword) && !old(isLocked)
      ensures !sent ==> loading == old(loading) && LockOf() == old(LockOf())
      ensures !sent ==> authToken == old(authToken) && deviceTrusted == old(deviceTrusted)
      ensures !sent ==> error == if Blank(masterPassword) then MsgEmpty else LockedMessage(old(lockTimeRemaining))
      ensures sent ==> Answered(reply, old(LockOf()), old(authToken), old(deviceTrusted))
    {
      if Blank(masterPassword) {
        error := MsgEmpty;
        return false;
      }
      if isLocked {
        error := LockedMessage(lockTimeRemaining);
        return false;
      }
      sent := true;
      loading := true;
      error := "";
      Respond(reply);
    }

    /** The state after the reply to a sent password has been handled:
        success keeps the token (and the device's trust when asked to);
        a rejection counts an attempt and shows its message; a failed request
        changes neither the attempts nor the lock. The request is no longer
        loading. */
    ghost predicate Answered(reply: ServerReply, before: Lock, token0: Option<string>, trusted0: bool)
      reads this
    {
      && !loading
      && (reply.Ok? ==>
            authToken == Some(reply.token) && deviceTrusted == (trusted0 || rememberDevice)
            && LockOf() == before && error == "")
      && (reply.Refused? ==>
            LockOf() == AfterRejection(before) && error == RejectionMessage(attempts)
            && authToken == token0 && deviceTrusted == trusted0)
      && (reply.NetworkError? ==>
            LockOf() == before && error == MsgNetwork
            && authToken == token0 && deviceTrusted == trusted0)
    }

    /** The part of `handleSubmit` after the request: the reply handled, then
        `loading` cleared. */
    method Respond(reply: ServerReply)
      requires Valid() && !isLocked && error == ""
      modifies this
      ensures Valid()
      ensures masterPassword == old(masterPassword) && rememberDevice == old(rememberDevice)
      ensures passwordStrength == old(passwordStrength)
      ensures Answered(reply, old(LockOf()), old(authToken), old(deviceTrusted))
    {
      match reply {
        case Ok(token) =>
          authToken := Some(token);
          if rememberDevice {
            deviceTrusted := true;
          }
        case Refused =>
          var newAttempts := attempts + 1;
          attempts := newAttempts;
          if newAttempts >= MaxAttempts {
            isLocked := true;
            lockTimeRemaining := LockSeconds;
          }
          error := RejectionMessage(newAttempts);
        case NetworkError =>
          error := MsgNetwork;
      }
      loading := false;
    }

    /** One firing of the countdown effect. */
    method Tick()
      requires Valid()
      modifies this
      ensures Valid()
      ensures LockOf() == AfterTick(old(LockOf()))
      ensures masterPassword == old(masterPassword) && error == old(error) && loading == old(loading)
      ensures rememberDevice == old(rememberDevice) && passwordStrength == old(passwordStrength)
      ensures authToken == old(authToken) && deviceTrusted == old(deviceTrusted)
    {
      if isLocked && lockTimeRemaining > 0 {
        lockTimeRemaining := lockTimeRemaining - 1;
      } else if isLocked && lockTimeRemaining == 0 {
        isLocked := false;
        attempts := 0;
      }
    }
  }

  /** Both transitions keep the lockout invariant (a rejection only happens
      while unlocked, since a locked form sends nothing). */
  lemma ConsistentPreserved(l: Lock)
    requires Consistent(l)
    ensures !l.isLocked ==> Consistent(AfterRejection(l))
    ensures Consistent(AfterTick(l))
  {
  }

  /** From any unlocked state, the rejections that bring the attempts to five
      lock the form for the full period, and not one earlier does. */
  lemma {:induction false} LocksOnFifthRejection(l: Lock, n: nat)
    requires Consistent(l) && !l.isLocked
    requires n <= MaxAttempts - l.attempts
    ensures var after := Rejections(l, n);
      after.attempts == l.attempts + n
      && (after.isLocked <==> n == MaxAttempts - l.attempts)
      && (after.isLocked ==> after.remaining == LockSeconds)
    decreases n
  {
    if n > 0 {
      var next := AfterRejection(l);
      if next.isLocked {
        assert n == 1;
      } else {
        LocksOnFifthRejection(next, n - 1);
      }
    }
  }

  /** A lock with r seconds left counts down for r firings and lifts, with
      the attempts reset, on the next. */
  lemma {:induction false} UnlocksAfterCountdown(attempts: nat, r: nat)
    ensures Ticks(Lock(attempts, true, r), r) == Lock(attempts, true, 0)
    ensures Ticks(Lock(attempts, true, r), r + 1) == Lock(0, false, 0)
    decreases r
  {
    if r > 0 {
      UnlocksAfterCountdown(attempts, r - 1);
    }
  }

  /** The warning names the tries left only after the third and fourth
      failures; the fifth announces the lock. */
  lemma MessagesByAttempt()
    ensures RejectionMessage(1) == MsgWrong && RejectionMessage(2) == MsgWrong
    ensures RejectionMessage(3) == MsgWrong + "残り2回の試行でアカウントがロックされます。"
    ensures RejectionMessage(4) == MsgWrong + "残り1回の試行でアカウントがロックされます。"
    ensures RejectionMessage(5) == MsgLockedOut
  {
    assert NatToString(2) == "2";
    assert NatToString(1) == "1";
  }

  /** `n.toString().padStart(2, '0')`. */
  function PadTwo(t: string): string {
    if |t| < 2 then Repeat('0', 2 - |t|) + t else t
  }

  /** Seconds within a minute always take two digits. */
  lemma SecondsField(s: nat)
    requires s < 60
    ensures |PadTwo(NatToString(s))| == 2
    ensures IsDigit(PadTwo(NatToString(s))[0]) && IsDigit(PadTwo(NatToString(s))[1])
  {
    if s >= 10 {
      assert NatToString(s) == NatToString(s / 10) + [DigitChar(s % 10)];
    }
  }

  /** `formatTime`: minutes, a colon, and the seconds as two digits. */
  function FormatTime(seconds: nat): (r: string)
    ensures |r| >= 4 && r[|r| - 3] == ':' && IsDigit(r[|r| - 2]) && IsDigit(r[|r| - 1])
    ensures seconds < 600 ==> |r| == 4
  {
    SecondsField(seconds % 60);
    NatToString(seconds / 60) + ":" + PadTwo(NatToString(seconds % 60))
  }

  /** The two characters after the colon are the tens and the units of the
      seconds within the minute. */
  lemma FormatTimeDigits(seconds: nat)
    ensures FormatTime(seconds)
         == NatToString(seconds / 60) + ":" + [DigitChar(seconds % 60 / 10), DigitChar(seconds % 60 % 10)]
  {
    var s := seconds % 60;
    if s < 10 {
      assert NatToString(s) == [DigitChar(s)];
      assert DigitChar(0) == '0';
    } else {
      assert NatToString(s) == NatToString(s / 10) + [DigitChar(s % 10)];
      assert NatToString(s / 10) == [DigitChar(s / 10)];
    }
  }

  /** The full lock reads 30:00; a minute and a few seconds pad the seconds. */
  lemma FormatTimeExamples()
    ensures FormatTime(1800) == "30:00"
    ensures FormatTime(65) == "1:05"
  {
    FormatTimeDigits(1800);
    FormatTimeDigits(65);
    assert NatToString(30) == "30";
    assert NatToString(1) == "1";
  }
}
