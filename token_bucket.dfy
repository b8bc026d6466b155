/** Token Bucket: an integer number of tokens, at most `capacity`, refilled
    by the whole number of tokens that `refillRate` tokens per second yields
    over the time since the last refill. The refill instant only advances when
    at least one token was added, so a refill that yields nothing keeps the
    partial progress for later. */
module TokenBucket {
  import opened Clock

  /** The mutable part of the bucket. */
  datatype Bucket = Bucket(tokens: nat, lastRefill: nat)

  /** `floor(elapsed_secs * refill_rate)`, with the elapsed time in ticks. */
  function NewTokens(elapsed: nat, rate: nat): (r: nat)
    ensures r * MillisPerSecond <= elapsed * rate < (r + 1) * MillisPerSecond
  {
    elapsed * rate / MillisPerSecond
  }

  /** A longer wait never yields fewer tokens. */
  lemma NewTokensMonotonic(e1: nat, e2: nat, rate: nat)
    requires e1 <= e2
    ensures NewTokens(e1, rate) <= NewTokens(e2, rate)
  {
    var n1, n2 := NewTokens(e1, rate), NewTokens(e2, rate);
    assert e1 * rate <= e2 * rate by {
      assert e2 * rate == e1 * rate + (e2 - e1) * rate;
    }
    assert n1 * MillisPerSecond < (n2 + 1) * MillisPerSecond;
  }

  function Min(a: nat, b: nat): (m: nat)
    ensures m <= a && m <= b
    ensures m == a || m == b
  {
    if a <= b then a else b
  }

  /** The state `refill` leaves at instant `now`. */
  function Refilled(b: Bucket, capacity: nat, rate: nat, now: nat): (r: Bucket)
    requires b.lastRefill <= now
    ensures b.lastRefill <= r.lastRefill <= now
    ensures r.lastRefill == b.lastRefill ==> r.tokens == b.tokens
  {
    var added := NewTokens(now - b.lastRefill, rate);
    if added > 0 then Bucket(Min(capacity, b.tokens + added), now) else b
  }

  /** A refill adds the floored product of elapsed time and rate, capped at
      the capacity; it never takes tokens away from a bucket within capacity. */
  lemma RefillAddsFlooredTokens(b: Bucket, capacity: nat, rate: nat, now: nat)
    requires b.lastRefill <= now && b.tokens <= capacity
    ensures var r := Refilled(b, capacity, rate, now);
      b.tokens <= r.tokens <= capacity
      && (r.tokens == capacity || r.tokens == b.tokens + NewTokens(now - b.lastRefill, rate))
      && r.tokens <= b.tokens + NewTokens(now - b.lastRefill, rate)
  {
  }

  /** The refill instant moves only when a whole token was added; otherwise
      the state is untouched, so the elapsed time keeps counting from the
      same instant. */
  lemma RefillKeepsPartialProgress(b: Bucket, capacity: nat, rate: nat, now: nat)
    requires b.lastRefill <= now
    ensures Refilled(b, capacity, rate, now).lastRefill == now <==> (NewTokens(now - b.lastRefill, rate) > 0 || b.lastRefill == now)
    ensures NewTokens(now - b.lastRefill, rate) == 0 ==> Refilled(b, capacity, rate, now) == b
  {
  }

  /** Refilling twice at the same instant is refilling once. */
  lemma RefillIdempotent(b: Bucket, capacity: nat, rate: nat, now: nat)
    requires b.lastRefill <= now
    ensures Refilled(Refilled(b, capacity, rate, now), capacity, rate, now) == Refilled(b, capacity, rate, now)
  {
  }

  /** Waiting longer before a refill never leaves fewer tokens. */
  lemma RefillMonotonicInTime(b: Bucket, capacity: nat, rate: nat, t1: nat, t2: nat)
    requires b.lastRefill <= t1 <= t2 && b.tokens <= capacity
    ensures Refilled(b, capacity, rate, t1).tokens <= Refilled(b, capacity, rate, t2).tokens
  {
    NewTokensMonotonic(t1 - b.lastRefill, t2 - b.lastRefill, rate);
  }

  /** When a token is added, the fraction of a token accrued beyond it is
      dropped: at one token per second, refilling after 1.5 s and again at
      2 s yields one token where a single refill at 2 s yields two. */
  lemma RefillDropsRemainder()
    ensures Refilled(Refilled(Bucket(0, 0), 10, 1, 1500), 10, 1, 2000) == Bucket(1, 1500)
    ensures Refilled(Bucket(0, 0), 10, 1, 2000) == Bucket(2, 2000)
  {
  }

  /** A refill that adds at most the floored product of the time since the
      last refill and the rate keeps the refilled total within the rate
      times the time since creation. */
  lemma RefillBoundedByTime(refilled: nat, gained: nat, start: nat, last: nat, now: nat, rate: nat)
    requires start <= last <= now
    requires refilled * MillisPerSecond <= (last - start) * rate
    requires gained <= NewTokens(now - last, rate)
    ensures (refilled + gained) * MillisPerSecond <= (now - start) * rate
  {
    var n := NewTokens(now - last, rate);
    assert gained * MillisPerSecond <= n * MillisPerSecond <= (now - last) * rate;
    assert (now - start) * rate == (last - start) * rate + (now - last) * rate;
  }

  /** Admissions never exceed the initial tokens plus those refilled, which
      the rate bounds by the time since creation. */
  lemma AdmittedBoundedByTime(admitted: nat, capacity: nat, refilled: nat, start: nat, last: nat, now: nat, rate: nat)
    requires admitted <= capacity + refilled
    requires start <= last <= now
    requires refilled * MillisPerSecond <= (last - start) * rate
    ensures admitted * MillisPerSecond <= capacity * MillisPerSecond + (now - start) * rate
    ensures rate == 0 ==> admitted <= capacity
  {
    assert (last - start) * rate <= (now - start) * rate by {
      assert (now - start) * rate == (last - start) * rate + (now - last) * rate;
    }
    assert admitted * MillisPerSecond <= capacity * MillisPerSecond + refilled * MillisPerSecond;
  }

  class TokenBucket {
    /** Maximum number of tokens. */
    const capacity: nat
    /** Tokens added per second. */
    const refillRate: nat
    /** Tokens available now. */
    var tokens: nat
    /** Instant of the last refill that added tokens. */
    var lastRefill: nat
    /** Units admitted since creation. */
    ghost var admitted: nat
    /** Tokens added by refills since creation. */
    ghost var refilled: nat
    /** Instant of creation. */
    ghost var start: nat

    /** Tokens stay within capacity; every admitted unit was paid for by a
        token present at creation or added by a refill; and refills never
        added more than `refillRate` tokens per second since creation. */
    ghost predicate Valid()
      reads this
    {
      && tokens <= capacity
      && tokens + admitted == capacity + refilled
      && start <= lastRefill
      && refilled * MillisPerSecond <= (lastRefill - start) * refillRate
    }

    function State(): Bucket
      reads this
    {
      Bucket(tokens, lastRefill)
    }

    constructor (capacity: nat, refillRate: nat, now: nat)
      ensures Valid()
      ensures this.capacity == capacity && this.refillRate == refillRate
      ensures tokens == capacity && lastRefill == now && admitted == 0 && refilled == 0 && start == now
    {
      this.capacity := capacity;
      tokens := capacity;
      this.refillRate := refillRate;
      lastRefill := now;
      admitted := 0;
      refilled := 0;
      start := now;
    }

    method Refill(now: nat)
      requires Valid() && lastRefill <= now
      modifies this
      ensures Valid()
      ensures State() == Refilled(old(State()), capacity, refillRate, now)
      ensures admitted == old(admitted) && start == old(start)
    {
      var newTokens := NewTokens(now - lastRefill, refillRate);
      if newTokens > 0 {
        var t := Min(capacity, tokens + newTokens);
        RefillBoundedByTime(refilled, t - tokens, start, lastRefill, now, refillRate);
        refilled := refilled + (t - tokens);
        tokens := t;
        lastRefill := now;
      }
    }

    /** Refills, then admits iff `n` tokens are available, taking them. With
        `start` the creation instant, no sequence of calls admits more than
        `capacity` units plus the floor of the elapsed seconds times the
        rate; with a zero rate, no more than `capacity` in all. */
    method TryAcquire(now: nat, n: nat) returns (ok: bool)
      requires Valid() && lastRefill <= now
      modifies this
      ensures Valid()
      ensures ok <==> Refilled(old(State()), capacity, refillRate, now).tokens >= n
      ensures State() == Bucket(Refilled(old(State()), capacity, refillRate, now).tokens - (if ok then n else 0),
                                Refilled(old(State()), capacity, refillRate, now).lastRefill)
      ensures admitted == old(admitted) + (if ok then n else 0) && start == old(start)
      ensures admitted * MillisPerSecond <= capacity * MillisPerSecond + (now - start) * refillRate
      ensures refillRate == 0 ==> admitted <= capacity
    {
      Refill(now);
      if tokens >= n {
        tokens := tokens - n;
        admitted := admitted + n;
        ok := true;
      } else {
        ok := false;
      }
      AdmittedBoundedByTime(admitted, capacity, refilled, start, lastRefill, now, refillRate);
    }
  }

  /** `try_acquire_basic`: capacity 10, one token per second; 5, 5 and 1
      requested within the first second are admitted, admitted, refused. */
  method AcquireBasic(t0: nat, t1: nat, t2: nat, t3: nat) returns (admitted: seq<bool>)
    requires t0 <= t1 <= t2 <= t3 < t0 + MillisPerSecond
    ensures admitted == [true, true, false]
  {
    var b := new TokenBucket(10, 1, t0);
    var x := b.TryAcquire(t1, 5);
    var y := b.TryAcquire(t2, 5);
    var z := b.TryAcquire(t3, 1);
    admitted := [x, y, z];
  }

  /** `try_acquire_with_refill_after_delay`: 10 taken at once; after one to
      two seconds one token has come back, and a second request in the same
      second is refused. */
  method AcquireAfterDelay(t0: nat, t1: nat, t2: nat, t3: nat) returns (admitted: seq<bool>)
    requires t0 <= t1 < t0 + MillisPerSecond
    requires t0 + MillisPerSecond <= t2 < t0 + 2 * MillisPerSecond
    requires t2 <= t3 < t2 + MillisPerSecond
    ensures admitted == [true, true, false]
  {
    var b := new TokenBucket(10, 1, t0);
    var x := b.TryAcquire(t1, 10);
    var y := b.TryAcquire(t2, 1);
    var z := b.TryAcquire(t3, 1);
    admitted := [x, y, z];
  }

  /** The zero-rate race test, linearised: single-unit requests at any
      non-decreasing instants admit exactly `min(requests, capacity)`. */
  method ZeroRateRace(capacity: nat, times: seq<nat>) returns (successes: nat)
    requires Sorted(times)
    ensures successes == Min(|times|, capacity)
  {
    var start := if times == [] then 0 else times[0];
    var b := new TokenBucket(capacity, 0, start);
    successes := 0;
    for i := 0 to |times|
      invariant b.Valid() && b.capacity == capacity && b.refillRate == 0
      invariant i < |times| ==> b.lastRefill <= times[i]
      invariant successes == b.admitted == Min(i, capacity)
    {
      var ok := b.TryAcquire(times[i], 1);
      if ok {
        successes := successes + 1;
      }
    }
  }

  /** The refill race test, linearised: a bucket of capacity 5 refilled at
      5 tokens per second is created at `t0`; the test's clock `start` is
      read just after, and single-unit requests come at non-decreasing
      instants less than three seconds after `start`. At most 20 are
      admitted: 5 initial tokens and at most 15 refilled, which holds while
      `start` is at most 200 ms after creation. */
  method RefillRace(t0: nat, start: nat, times: seq<nat>) returns (successes: nat)
    requires t0 <= start <= t0 + MillisPerSecond / 5
    requires Sorted(times)
    requires forall i :: 0 <= i < |times| ==> start <= times[i] < start + 3 * MillisPerSecond
    ensures successes <= 20
  {
    var b := new TokenBucket(5, 5, t0);
    successes := 0;
    for i := 0 to |times|
      invariant b.Valid() && b.capacity == 5 && b.refillRate == 5 && b.start == t0
      invariant i < |times| ==> b.lastRefill <= times[i]
      invariant successes == b.admitted <= 20
    {
      var ok := b.TryAcquire(times[i], 1);
      if ok {
        successes := successes + 1;
      }
    }
  }
}
