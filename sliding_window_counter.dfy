/** Sliding Window Counter: a queue holding one monotonic timestamp per
    admitted unit. Before every decision, entries more than `window` old are
    purged from the front (a strict comparison, unlike the Sliding Window
    Log); a request for `n` units is admitted when `n` more fit. */
module SlidingWindowCounter {
  import opened Clock

  /** The queue that `purge_old` leaves at instant `now`: the longest prefix
      of entries with `now - e > window` is gone, and whatever remains starts
      with an entry at most `window` old. */
  function Purge(events: seq<nat>, now: nat, window: nat): (r: seq<nat>)
    ensures |r| <= |events| && r == events[|events| - |r|..]
    ensures forall i :: 0 <= i < |events| - |r| ==> now - events[i] > window
    ensures r != [] ==> now - r[0] <= window
    decreases |events|
  {
    if events != [] && now - events[0] > window then Purge(events[1..], now, window) else events
  }

  /** `refresh` is idempotent: purging again at the same instant removes nothing. */
  lemma PurgeIdempotent(events: seq<nat>, now: nat, window: nat)
    ensures Purge(Purge(events, now, window), now, window) == Purge(events, now, window)
  {
  }

  /** Purging at `t1` and again at a later `t2` leaves what one purge at
      `t2` leaves: intermediate refreshes never change a later decision. */
  lemma {:induction false} PurgeComposes(events: seq<nat>, t1: nat, t2: nat, window: nat)
    requires t1 <= t2
    ensures Purge(Purge(events, t1, window), t2, window) == Purge(events, t2, window)
    decreases |events|
  {
    if events != [] && t1 - events[0] > window {
      PurgeComposes(events[1..], t1, t2, window);
    }
  }

  /** On an ordered queue every surviving entry, not only the front one, is
      at most `window` old, and the queue stays ordered. */
  lemma PurgeLeavesOnlyLiveEntries(events: seq<nat>, now: nat, window: nat)
    requires Sorted(events) && NotAfter(events, now)
    ensures Sorted(Purge(events, now, window)) && NotAfter(Purge(events, now, window), now)
    ensures forall i :: 0 <= i < |Purge(events, now, window)| ==> now - Purge(events, now, window)[i] <= window
  {
    var r := Purge(events, now, window);
    SuffixKeepsOrder(events, |events| - |r|);
  }

  /** An entry exactly `window` old still counts; one tick later it is gone. */
  lemma PurgeIsStrict(events: seq<nat>, window: nat)
    requires events != []
    ensures Purge(events, events[0] + window, window) == events
    ensures |Purge(events, events[0] + window + 1, window)| < |events|
  {
  }

  /** A queue of entries all made at one instant is kept whole while that
      instant is at most `window` old and purged whole afterwards. */
  lemma PurgeBurst(k: nat, t0: nat, now: nat, window: nat)
    ensures now - t0 <= window ==> Purge(seq(k, _ => t0), now, window) == seq(k, _ => t0)
    ensures now - t0 > window ==> Purge(seq(k, _ => t0), now, window) == []
  {
  }

  class SlidingWindowCounter {
    /** Maximum number of units inside one window. */
    const capacity: nat
    /** Window length in clock ticks. */
    const window: nat
    /** One instant per admitted unit, oldest first. */
    var events: seq<nat>

    /** The queue is in push order and never holds more than `capacity` units. */
    ghost predicate Valid()
      reads this
    {
      Sorted(events) && |events| <= capacity
    }

    constructor (capacity: nat, windowSecs: nat)
      ensures Valid()
      ensures this.capacity == capacity && window == windowSecs * MillisPerSecond && events == []
    {
      this.capacity := capacity;
      window := windowSecs * MillisPerSecond;
      events := [];
    }

    /** Pops entries more than `window` old off the front; the clock is
        monotonic, so `now` is not before any entry. */
    method PurgeOld(now: nat)
      requires Valid() && NotAfter(events, now)
      modifies this`events
      ensures Valid() && NotAfter(events, now)
      ensures events == Purge(old(events), now, window)
    {
      while events != []
        invariant Purge(events, now, window) == Purge(old(events), now, window)
        decreases |events|
      {
        if now - events[0] > window {
          events := events[1..];
        } else {
          break;
        }
      }
      PurgeLeavesOnlyLiveEntries(old(events), now, window);
    }

    method Refresh(now: nat)
      requires Valid() && NotAfter(events, now)
      modifies this`events
      ensures Valid() && NotAfter(events, now)
      ensures events == Purge(old(events), now, window)
    {
      PurgeOld(now);
    }

    /** The `for _ in 0..tokens { push_back(now) }` loop of `try_acquire`. */
    method PushCopies(now: nat, n: nat)
      modifies this`events
      ensures events == old(events) + seq(n, _ => now)
    {
      for i := 0 to n
        invariant events == old(events) + seq(i, _ => now)
      {
        assert seq(i + 1, _ => now) == seq(i, _ => now) + [now];
        events := events + [now];
      }
    }

    /** Purges, then admits `tokens` units iff they fit, recording one entry
        per unit; a rejection changes nothing beyond the purge. */
    method TryAcquire(now: nat, tokens: nat) returns (ok: bool)
      requires Valid() && NotAfter(events, now)
      modifies this`events
      ensures Valid() && NotAfter(events, now)
      ensures ok <==> |Purge(old(events), now, window)| + tokens <= capacity
      ensures events == Purge(old(events), now, window) + (if ok then seq(tokens, _ => now) else [])
      ensures tokens == 0 ==> ok && events == Purge(old(events), now, window)
      ensures tokens > capacity ==> !ok
    {
      Refresh(now);
      ghost var purged := events;
      if |events| + tokens <= capacity {
        PushCopies(now, tokens);
        ok := true;
      } else {
        ok := false;
      }
      AppendNowKeepsOrder(purged, now, if ok then tokens else 0);
    }

    /** `get_limit`: under the invariant, used plus remaining is the limit. */
    function Limit(): (r: nat)
      reads this
      ensures Valid() ==> Used() + Remaining() == r
    {
      capacity
    }

    /** `get_remaining`: capacity minus the queue length, floored at zero. */
    function Remaining(): (r: nat)
      reads this
      ensures r <= capacity
      ensures |events| <= capacity ==> r + |events| == capacity
      ensures |events| >= capacity ==> r == 0
    {
      if |events| >= capacity then 0 else capacity - |events|
    }

    /** `get_used`: the units in the queue, never more than the capacity. */
    function Used(): (r: nat)
      reads this
      ensures Valid() ==> r <= capacity
      ensures r == 0 <==> events == []
    {
      |events|
    }

    /** `get_reset`, in Unix seconds: the later of `now` and the instant the
        oldest entry leaves the window; `now` when the queue is empty. */
    function Reset(now: nat): (r: nat)
      reads this
      ensures events == [] ==> r == UnixSeconds(now)
      ensures events != [] ==> r == UnixSeconds(Max(now, events[0] + window))
      ensures r >= UnixSeconds(now)
    {
      if events != [] then
        var expire := events[0] + window;
        UnixSeconds(now + SaturatingSub(expire, now))
      else
        UnixSeconds(now)
    }
  }

  /** First phase of the sequential test: on a fresh counter with capacity
      10 and a 2 s window, acquisitions of 5, 5 and 1 at `t0` are admitted,
      admitted, refused, and leave ten entries stamped `t0`. */
  method FillAtStart(c: SlidingWindowCounter, t0: nat) returns (admitted: seq<bool>, readings: seq<(nat, nat, nat, int)>)
    requires c.Valid() && c.events == [] && c.capacity == 10 && c.window == 2 * MillisPerSecond
    modifies c
    ensures c.Valid() && c.events == seq(10, _ => t0)
    ensures admitted == [true, true, false]
    ensures readings == [(10, 10, 0, 0), (10, 5, 5, 2), (10, 0, 10, 2), (10, 0, 10, 2)]
  {
    var start := UnixSeconds(t0);
    UnixSecondsShift(t0, 2);
    var r0 := (c.Limit(), c.Remaining(), c.Used(), c.Reset(t0) - start);
    assert r0 == (10, 10, 0, 0);
    var a := c.TryAcquire(t0, 5);
    assert c.events == seq(5, _ => t0);
    var r1 := (c.Limit(), c.Remaining(), c.Used(), c.Reset(t0) - start);
    assert r1 == (10, 5, 5, 2);
    var b := c.TryAcquire(t0, 5);
    assert c.events == seq(5, _ => t0) + seq(5, _ => t0) == seq(10, _ => t0);
    var r2 := (c.Limit(), c.Remaining(), c.Used(), c.Reset(t0) - start);
    assert r2 == (10, 0, 10, 2);
    PurgeBurst(10, t0, t0, c.window);
    var d := c.TryAcquire(t0, 1);
    var r3 := (c.Limit(), c.Remaining(), c.Used(), c.Reset(t0) - start);
    assert r3 == (10, 0, 10, 2);
    readings := [r0, r1, r2, r3];
    admitted := [a, b, d];
  }

  /** Second phase of the sequential test: ten entries stamped `t0` survive
      a refresh at `t1`, at most 2 s later, and are all gone after one at
      `t2`, more than 2 s later. */
  method DrainAfterWindow(c: SlidingWindowCounter, t0: nat, t1: nat, t2: nat) returns (readings: seq<(nat, nat, nat, int)>)
    requires c.Valid() && c.events == seq(10, _ => t0) && c.capacity == 10 && c.window == 2 * MillisPerSecond
    requires t0 <= t1 <= t0 + 2 * MillisPerSecond < t2
    requires UnixSeconds(t2) == UnixSeconds(t0) + 2
    modifies c
    ensures c.events == []
    ensures readings == [(10, 0, 10, 2), (10, 10, 0, 2)]
  {
    var start := UnixSeconds(t0);
    UnixSecondsShift(t0, 2);
    UnixSecondsMonotonic(t1, t0 + 2 * MillisPerSecond);
    PurgeBurst(10, t0, t1, c.window);
    c.Refresh(t1);
    var r4 := (c.Limit(), c.Remaining(), c.Used(), c.Reset(t1) - start);
    assert r4 == (10, 0, 10, 2);
    PurgeBurst(10, t0, t2, c.window);
    c.Refresh(t2);
    var r5 := (c.Limit(), c.Remaining(), c.Used(), c.Reset(t2) - start);
    assert r5 == (10, 10, 0, 2);
    readings := [r4, r5];
  }

  /** The sequential test: capacity 10, window 2 s; acquisitions of 5, 5 and
      1 at `t0`, a refresh at `t1` (one to two seconds later) and one at `t2`
      (just over two seconds later, within the same wall-clock second as
      `t0 + 2 s`). Returns the admissions and the (limit, remaining, used,
      reset - start second) readings after each step. */
  method BasicScenario(t0: nat, t1: nat, t2: nat) returns (admitted: seq<bool>, readings: seq<(nat, nat, nat, int)>)
    requires t0 + MillisPerSecond <= t1 <= t0 + 2 * MillisPerSecond < t2
    requires UnixSeconds(t2) == UnixSeconds(t0) + 2
    ensures admitted == [true, true, false]
    ensures readings == [(10, 10, 0, 0), (10, 5, 5, 2), (10, 0, 10, 2), (10, 0, 10, 2), (10, 0, 10, 2), (10, 10, 0, 2)]
  {
    var c := new SlidingWindowCounter(10, 2);
    var first;
    admitted, first := FillAtStart(c, t0);
    var second := DrainAfterWindow(c, t0, t1, t2);
    readings := first + second;
  }
}
