/** Fixed Window Counter (`FixedRateLimiter`): `remaining` units per window;
    the first access after a whole window has elapsed since the last reset
    restores `remaining` to `limit` and starts a new window at that instant. */
module FixedWindowCounter {
  import opened Clock

  /** The mutable part of the limiter. */
  datatype Window = Window(remaining: nat, lastReset: nat)

  /** Whether the window that started at `lastReset` is over at `now`. */
  predicate Elapsed(lastReset: nat, window: nat, now: nat)
  {
    now - lastReset >= window
  }

  /** The state `refresh` leaves at instant `now`. */
  function Refreshed(w: Window, limit: nat, window: nat, now: nat): (r: Window)
    requires w.lastReset <= now
    ensures w.lastReset <= r.lastReset <= now
    ensures r.lastReset != w.lastReset ==> r.remaining == limit
  {
    if Elapsed(w.lastReset, window, now) then Window(limit, now) else w
  }

  /** `refresh` is idempotent at a fixed instant, also for a zero window. */
  lemma RefreshIdempotent(w: Window, limit: nat, window: nat, now: nat)
    requires w.lastReset <= now
    ensures Refreshed(Refreshed(w, limit, window, now), limit, window, now) == Refreshed(w, limit, window, now)
  {
  }

  /** A refresh never leaves more than `limit` units, and never fewer than before. */
  lemma RefreshKeepsBound(w: Window, limit: nat, window: nat, now: nat)
    requires w.lastReset <= now && w.remaining <= limit
    ensures w.remaining <= Refreshed(w, limit, window, now).remaining <= limit
  {
  }

  /** Once `window` has elapsed since the last reset, a refresh restores
      the full limit (time-gated recovery). */
  lemma RefreshRecovers(w: Window, limit: nat, window: nat, now: nat)
    requires w.lastReset + window <= now
    ensures Refreshed(w, limit, window, now).remaining == limit
  {
  }

  class FixedRateLimiter {
    /** Units admitted per window. */
    const limit: nat
    /** Window length in clock ticks. */
    const window: nat
    /** Units still admissible in the current window. */
    var remaining: nat
    /** Instant at which the current window started. */
    var lastReset: nat
    /** Units admitted since the current window started. */
    ghost var admitted: nat

    /** What was admitted in the current window plus what remains is the
        limit: no window admits more than `limit` units. */
    ghost predicate Valid()
      reads this
    {
      admitted + remaining == limit
    }

    function State(): Window
      reads this
    {
      Window(remaining, lastReset)
    }

    constructor (limit: nat, windowSecs: nat, now: nat)
      ensures Valid()
      ensures this.limit == limit && window == windowSecs * MillisPerSecond
      ensures remaining == limit && lastReset == now && admitted == 0
    {
      this.limit := limit;
      remaining := limit;
      window := windowSecs * MillisPerSecond;
      lastReset := now;
      admitted := 0;
    }

    method Refresh(now: nat)
      requires Valid() && lastReset <= now
      modifies this
      ensures Valid()
      ensures State() == Refreshed(old(State()), limit, window, now)
      ensures admitted == if Elapsed(old(lastReset), window, now) then 0 else old(admitted)
    {
      if now - lastReset >= window {
        remaining := limit;
        lastReset := now;
        admitted := 0;
      }
    }

    /** Refreshes, then admits iff `tokens` units remain, taking them. */
    method TryAcquire(now: nat, tokens: nat) returns (ok: bool)
      requires Valid() && lastReset <= now
      modifies this
      ensures Valid()
      ensures ok <==> Refreshed(old(State()), limit, window, now).remaining >= tokens
      ensures State() == Window(Refreshed(old(State()), limit, window, now).remaining - (if ok then tokens else 0),
                                Refreshed(old(State()), limit, window, now).lastReset)
      ensures admitted == (if Elapsed(old(lastReset), window, now) then 0 else old(admitted)) + (if ok then tokens else 0)
      ensures admitted <= limit
    {
      Refresh(now);
      if remaining >= tokens {
        remaining := remaining - tokens;
        admitted := admitted + tokens;
        ok := true;
      } else {
        ok := false;
      }
    }

    /** `get_limit`: under the invariant, used plus remaining is the limit. */
    function Limit(): (r: nat)
      reads this
      requires Valid()
      ensures Used() + Remaining() == r
    {
      limit
    }

    /** `get_remaining`: never more than the limit. */
    function Remaining(): (r: nat)
      reads this
      requires Valid()
      ensures r <= limit
    {
      remaining
    }

    /** `get_used`: the units admitted in the current window. */
    function Used(): (r: nat)
      reads this
      requires Valid()
      ensures r == admitted
    {
      limit - remaining
    }

    /** `get_reset`, in Unix seconds: `now` plus what is left of the current
        window, which is the later of `now` and the window's end. Between
        resets it does not move; once the window is over it reports `now`
        until a refresh starts a new window. */
    function Reset(now: nat): (r: nat)
      reads this
      requires lastReset <= now
      ensures r == UnixSeconds(Max(now, lastReset + window))
      ensures r >= UnixSeconds(now)
    {
      var elapsed := now - lastReset;
      var wait := if elapsed < window then window - elapsed else 0;
      UnixSeconds(now + wait)
    }
  }

  /** The sequential test: limit 10, window 2 s, created at `t0`;
      acquisitions of 5, 5 and 1 at `t0`, then a refresh at `t1`, two to
      three seconds later and within the wall-clock second two after `t0`'s.
      Returns the admissions and the (limit, remaining, used, reset - start
      second) readings after each step. */
  method BasicScenario(t0: nat, t1: nat) returns (admitted: seq<bool>, readings: seq<(nat, nat, nat, int)>)
    requires t0 + 2 * MillisPerSecond <= t1
    requires UnixSeconds(t1) == UnixSeconds(t0) + 2
    ensures admitted == [true, true, false]
    ensures readings == [(10, 10, 0, 2), (10, 5, 5, 2), (10, 0, 10, 2), (10, 0, 10, 2), (10, 10, 0, 4)]
  {
    var start := UnixSeconds(t0);
    UnixSecondsShift(t0, 2);
    var f := new FixedRateLimiter(10, 2, t0);
    var r0 := (f.Limit(), f.Remaining(), f.Used(), f.Reset(t0) - start);
    assert r0 == (10, 10, 0, 2);
    var a := f.TryAcquire(t0, 5);
    var r1 := (f.Limit(), f.Remaining(), f.Used(), f.Reset(t0) - start);
    assert r1 == (10, 5, 5, 2);
    var b := f.TryAcquire(t0, 5);
    var r2 := (f.Limit(), f.Remaining(), f.Used(), f.Reset(t0) - start);
    assert r2 == (10, 0, 10, 2);
    var c := f.TryAcquire(t0, 1);
    var r3 := (f.Limit(), f.Remaining(), f.Used(), f.Reset(t0) - start);
    assert r3 == (10, 0, 10, 2);
    f.Refresh(t1);
    var r4 := (f.Limit(), f.Remaining(), f.Used(), f.Reset(t1) - start);
    assert r4 == (10, 10, 0, 4);
    readings := [r0, r1, r2, r3, r4];
    admitted := [a, b, c];
  }
}
