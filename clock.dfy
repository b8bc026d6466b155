/** Time as the rate limiters see it, and the queues of timestamps that the
    two sliding-window limiters keep.

    The monotonic clock (`Instant`) and the wall clock (`SystemTime`) are
    modelled as one integer clock counting milliseconds since the Unix epoch;
    every clock read in the source becomes a `now` parameter. */
module Clock {

  /** Clock ticks per second. */
  const MillisPerSecond: nat := 1000

  /** Whole seconds since the epoch of the instant `t`, as
      `duration_since(UNIX_EPOCH).as_secs()` truncates it. */
  function UnixSeconds(t: nat): (s: nat)
    ensures s * MillisPerSecond <= t < (s + 1) * MillisPerSecond
  {
    t / MillisPerSecond
  }

  /** Truncation to whole seconds never runs backwards. */
  lemma UnixSecondsMonotonic(a: nat, b: nat)
    requires a <= b
    ensures UnixSeconds(a) <= UnixSeconds(b)
  {
    var sa, sb := UnixSeconds(a), UnixSeconds(b);
    assert sa * MillisPerSecond <= a <= b < (sb + 1) * MillisPerSecond;
  }

  /** Moving an instant by whole seconds moves its second by as many. */
  lemma UnixSecondsShift(t: nat, k: nat)
    ensures UnixSeconds(t + k * MillisPerSecond) == UnixSeconds(t) + k
  {
    var s := UnixSeconds(t);
    assert (s + k) * MillisPerSecond <= t + k * MillisPerSecond < (s + k + 1) * MillisPerSecond;
  }

  /** The later of two instants. */
  function Max(a: nat, b: nat): (m: nat)
    ensures m >= a && m >= b
    ensures m == a || m == b
  {
    if a >= b then a else b
  }

  /** `saturating_duration_since`: the time from `b` to `a`, or zero when
      `a` is not after `b`. */
  function SaturatingSub(a: nat, b: nat): (d: nat)
    ensures a >= b ==> b + d == a
    ensures a <= b ==> d == 0
  {
    if a > b then a - b else 0
  }

  /** Timestamps in the order they were pushed: never decreasing. */
  ghost predicate Sorted(s: seq<nat>)
  {
    forall i, j :: 0 <= i <= j < |s| ==> s[i] <= s[j]
  }

  /** No timestamp of `s` lies after `now`: the clock has not run backwards. */
  predicate NotAfter(s: seq<nat>, now: nat)
  {
    forall i :: 0 <= i < |s| ==> s[i] <= now
  }

  /** Pushing `n` copies of a `now` that is not before any entry keeps the
      queue ordered and keeps every entry at or before `now`. */
  lemma AppendNowKeepsOrder(s: seq<nat>, now: nat, n: nat)
    requires Sorted(s) && NotAfter(s, now)
    ensures Sorted(s + seq(n, _ => now)) && NotAfter(s + seq(n, _ => now), now)
  {
    var t := s + seq(n, _ => now);
    forall i, j | 0 <= i <= j < |t| ensures t[i] <= t[j] {
      if j >= |s| {
        assert t[j] == now;
      }
    }
  }

  /** Any suffix of an ordered queue is ordered. */
  lemma SuffixKeepsOrder(s: seq<nat>, k: nat)
    requires Sorted(s) && k <= |s|
    ensures Sorted(s[k..])
  {
    var t := s[k..];
    forall i, j | 0 <= i <= j < |t| ensures t[i] <= t[j] {
      assert t[i] == s[k + i] && t[j] == s[k + j];
    }
  }
}
