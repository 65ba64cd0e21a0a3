/** The fixed-window rate limiter kept in a module-level map from key to
    window record. Times are integer milliseconds. */
module RateLimit {
  import opened Wrappers

  datatype WindowRecord = WindowRecord(count: int, resetTime: int)

  datatype RateLimitResult = RateLimitResult(
    allowed: bool, limit: int, remaining: int, reset: int, retryAfter: Option<int>)

  const DefaultLimit: int := 5
  const DefaultWindowMs: int := 15 * 60 * 1000

  function Lookup(store: map<string, WindowRecord>, key: string): Option<WindowRecord> {
    if key in store then Some(store[key]) else None
  }

  /** The record a call leaves behind: a fresh window when there is none or the
      old one has ended, then one more call counted in it. */
  function Admit(prev: Option<WindowRecord>, windowMs: int, now: int): (rec: WindowRecord)
    ensures prev.None? || prev.value.resetTime <= now ==> rec.count == 1 && rec.resetTime == now + windowMs
    ensures prev.Some? && now < prev.value.resetTime ==>
      rec.count == prev.value.count + 1 && rec.resetTime == prev.value.resetTime
  {
    var rec := if prev.None? || prev.value.resetTime <= now then WindowRecord(0, now + windowMs) else prev.value;
    rec.(count := rec.count + 1)
  }

  /** `Math.ceil(a / b)` for a positive divisor, on integers. */
  function CeilDiv(a: int, b: int): (q: int)
    requires b > 0
    ensures (q - 1) * b < a <= q * b
  {
    -((-a) / b)
  }

  function Max(a: int, b: int): int { if a >= b then a else b }

  /** The answer computed from the record after the call: allowed iff the
      count is within the limit; remaining is the non-negative slack; a retry
      delay, in whole seconds rounded up to cover the rest of the window, is
      present iff the call is denied. */
  function Decide(rec: WindowRecord, limit: int, now: int): (r: RateLimitResult)
    ensures r.allowed <==> rec.count <= limit
    ensures r.remaining >= 0 && r.remaining >= limit - rec.count
    ensures r.remaining == 0 || r.remaining == limit - rec.count
    ensures r.reset == rec.resetTime && r.limit == limit
    ensures r.retryAfter.None? <==> r.allowed
    ensures r.retryAfter.Some? ==>
      r.retryAfter.value * 1000 >= rec.resetTime - now > (r.retryAfter.value - 1) * 1000
  {
    var allowed := rec.count <= limit;
    RateLimitResult(allowed, limit, Max(0, limit - rec.count), rec.resetTime,
                    if allowed then None else Some(CeilDiv(rec.resetTime - now, 1000)))
  }

  class RateLimiter {
    var store: map<string, WindowRecord>

    constructor()
      ensures store == map[]
    {
      store := map[];
    }

    /** `checkRateLimit`: counts the call against `identifier`'s window (even a
        denied one) and reports whether it is within `limit`. */
    method CheckRateLimit(identifier: string, limit: int, windowMs: int, now: int) returns (r: RateLimitResult)
      modifies this
      ensures store == old(store)[identifier := Admit(Lookup(old(store), identifier), windowMs, now)]
      ensures r == Decide(store[identifier], limit, now)
    {
      var record: WindowRecord;
      if identifier !in store || store[identifier].resetTime <= now {
        record := WindowRecord(0, now + windowMs);
      } else {
        record := store[identifier];
      }
      record := record.(count := record.count + 1);
      store := store[identifier := record];
      var allowed := record.count <= limit;
      var remaining := if 0 >= limit - record.count then 0 else limit - record.count;
      var retryAfter: Option<int> := None;
      if !allowed {
        retryAfter := Some(-((-(record.resetTime - now)) / 1000));
      }
      r := RateLimitResult(allowed, limit, remaining, record.resetTime, retryAfter);
    }
  }

  /** The record left by a series of calls at the given times on one key. */
  function Replay(prev: Option<WindowRecord>, times: seq<int>, windowMs: int): Option<WindowRecord>
    decreases |times|
  {
    if times == [] then prev else Replay(Some(Admit(prev, windowMs, times[0])), times[1..], windowMs)
  }

  /** Calls made before an open window ends each add one to its count. */
  lemma {:induction false} ReplayWithinWindow(count: int, resetTime: int, times: seq<int>, windowMs: int)
    requires forall i :: 0 <= i < |times| ==> times[i] < resetTime
    ensures Replay(Some(WindowRecord(count, resetTime)), times, windowMs)
         == Some(WindowRecord(count + |times|, resetTime))
    decreases |times|
  {
    if times != [] {
      ReplayWithinWindow(count + 1, resetTime, times[1..], windowMs);
    }
  }

  /** n calls made within one window, the first of which finds no open window,
      leave a count of n and the reset time one window after the first call. */
  lemma WindowCountsCalls(prev: Option<WindowRecord>, times: seq<int>, windowMs: int)
    requires |times| > 0
    requires prev.None? || prev.value.resetTime <= times[0]
    requires forall i :: 0 <= i < |times| ==> times[i] < times[0] + windowMs
    ensures Replay(prev, times, windowMs) == Some(WindowRecord(|times|, times[0] + windowMs))
  {
    ReplayWithinWindow(1, times[0] + windowMs, times[1..], windowMs);
  }

  /** With the default limit and window, the first five calls of a window are
      allowed and the sixth is denied. */
  lemma SixthCallDenied(prev: Option<WindowRecord>, times: seq<int>)
    requires |times| == 6
    requires prev.None? || prev.value.resetTime <= times[0]
    requires forall i :: 0 <= i < 6 ==> times[i] < times[0] + DefaultWindowMs
    ensures forall k :: 1 <= k <= 5 ==>
      var rec := Replay(prev, times[..k], DefaultWindowMs);
      rec.Some? && Decide(rec.value, DefaultLimit, times[k - 1]).allowed
    ensures var rec := Replay(prev, times, DefaultWindowMs);
      rec.Some? && !Decide(rec.value, DefaultLimit, times[5]).allowed
  {
    forall k | 1 <= k <= 5
      ensures var rec := Replay(prev, times[..k], DefaultWindowMs);
        rec.Some? && Decide(rec.value, DefaultLimit, times[k - 1]).allowed
    {
      WindowCountsCalls(prev, times[..k], DefaultWindowMs);
    }
    WindowCountsCalls(prev, times, DefaultWindowMs);
  }

  /** Once the window has ended, the next call starts over and is allowed. */
  lemma WindowResets(rec: WindowRecord, limit: int, windowMs: int, now: int)
    requires rec.resetTime <= now && limit >= 1
    ensures Admit(Some(rec), windowMs, now) == WindowRecord(1, now + windowMs)
    ensures Decide(Admit(Some(rec), windowMs, now), limit, now).allowed
  {
  }
}
