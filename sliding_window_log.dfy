/** Sliding Window Log: a queue holding one wall-clock timestamp, in whole
    seconds, per admitted unit. Entries at least `window` seconds old are
    dropped from the front before every decision; a request for `n` units is
    admitted when the log then has room for `n` more. */
module SlidingWindowLog {
  import opened Clock

  /** The log that `cleanup` leaves at second `now`: the longest prefix of
      entries with `now - ts >= window` is gone, and whatever remains starts
      with an entry still inside the window. */
  function Expire(log: seq<nat>, now: nat, window: nat): (r: seq<nat>)
    ensures |r| <= |log| && r == log[|log| - |r|..]
    ensures forall i :: 0 <= i < |log| - |r| ==> now - log[i] >= window
    ensures r != [] ==> now - r[0] < window
    decreases |log|
  {
    if log != [] && now - log[0] >= window then Expire(log[1..], now, window) else log
  }

  /** The three clauses of Expire's contract pin down its result: any suffix
      of the log that drops only expired entries and starts with a live one
      (or is empty) is the result of Expire. */
  lemma ExpireIsUnique(log: seq<nat>, now: nat, window: nat, s: seq<nat>)
    requires |s| <= |log| && s == log[|log| - |s|..]
    requires forall i :: 0 <= i < |log| - |s| ==> now - log[i] >= window
    requires s != [] ==> now - s[0] < window
    ensures s == Expire(log, now, window)
  {
  }

  /** Cleaning twice at the same second removes nothing more. */
  lemma ExpireIdempotent(log: seq<nat>, now: nat, window: nat)
    ensures Expire(Expire(log, now, window), now, window) == Expire(log, now, window)
  {
  }

  /** Cleaning up at `t1` and again at a later `t2` leaves what one cleanup
      at `t2` leaves: intermediate refreshes never change a later decision. */
  lemma {:induction false} ExpireComposes(log: seq<nat>, t1: nat, t2: nat, window: nat)
    requires t1 <= t2
    ensures Expire(Expire(log, t1, window), t2, window) == Expire(log, t2, window)
    decreases |log|
  {
    if log != [] && t1 - log[0] >= window {
      ExpireComposes(log[1..], t1, t2, window);
    }
  }

  /** On an ordered log, every entry that survives cleanup is inside the
      window, not only the front one, and the log stays ordered. */
  lemma ExpireLeavesOnlyLiveEntries(log: seq<nat>, now: nat, window: nat)
    requires Sorted(log) && NotAfter(log, now)
    ensures Sorted(Expire(log, now, window)) && NotAfter(Expire(log, now, window), now)
    ensures forall i :: 0 <= i < |Expire(log, now, window)| ==> now - Expire(log, now, window)[i] < window
  {
    var r := Expire(log, now, window);
    SuffixKeepsOrder(log, |log| - |r|);
  }

  /** Before the reset second reported for a non-empty log, cleanup frees
      nothing; at it, the oldest entry goes. */
  lemma NothingExpiresBeforeReset(log: seq<nat>, window: nat, t: nat)
    requires log != []
    ensures t < log[0] + window ==> Expire(log, t, window) == log
    ensures t >= log[0] + window ==> |Expire(log, t, window)| < |log|
  {
  }

  /** A log of entries all made at one second is kept whole while that
      second is inside the window and expires whole afterwards. */
  lemma ExpireBurst(k: nat, t0: nat, now: nat, window: nat)
    ensures now - t0 < window ==> Expire(seq(k, _ => t0), now, window) == seq(k, _ => t0)
    ensures now - t0 >= window ==> Expire(seq(k, _ => t0), now, window) == []
  {
  }

  class SlidingWindowLog {
    /** Maximum number of units inside one window. */
    const capacity: nat
    /** Window length in seconds. */
    const window: nat
    /** One timestamp (seconds since the epoch) per admitted unit, oldest first. */
    var log: seq<nat>

    /** The log is in push order and never holds more than `capacity` units. */
    ghost predicate Valid()
      reads this
    {
      Sorted(log) && |log| <= capacity
    }

    constructor (capacity: nat, windowSecs: nat)
      ensures Valid()
      ensures this.capacity == capacity && window == windowSecs && log == []
    {
      this.capacity := capacity;
      window := windowSecs;
      log := [];
    }

    /** Pops expired entries off the front; `now - ts` is unsigned in the
        source, so `now` may not precede any entry. */
    method Cleanup(now: nat)
      requires Valid() && NotAfter(log, now)
      modifies this`log
      ensures Valid() && NotAfter(log, now)
      ensures log == Expire(old(log), now, window)
    {
      while log != []
        invariant Expire(log, now, window) == Expire(old(log), now, window)
        decreases |log|
      {
        if now - log[0] >= window {
          log := log[1..];
        } else {
          break;
        }
      }
      ExpireLeavesOnlyLiveEntries(old(log), now, window);
    }

    method Refresh(now: nat)
      requires Valid() && NotAfter(log, now)
      modifies this`log
      ensures Valid() && NotAfter(log, now)
      ensures log == Expire(old(log), now, window)
    {
      Cleanup(now);
    }

    /** The `for _ in 0..tokens { push_back(now) }` loop of `try_acquire`. */
    method PushCopies(now: nat, n: nat)
      modifies this`log
      ensures log == old(log) + seq(n, _ => now)
    {
      for i := 0 to n
        invariant log == old(log) + seq(i, _ => now)
      {
        assert seq(i + 1, _ => now) == seq(i, _ => now) + [now];
        log := log + [now];
      }
    }

    /** Cleans up, then admits `tokens` units iff they fit; the single-unit
        path and the general path obey one and the same rule. */
    method TryAcquire(now: nat, tokens: nat) returns (ok: bool)
      requires Valid() && NotAfter(log, now)
      modifies this`log
      ensures Valid() && NotAfter(log, now)
      ensures ok <==> |Expire(old(log), now, window)| + tokens <= capacity
      ensures log == Expire(old(log), now, window) + (if ok then seq(tokens, _ => now) else [])
      ensures tokens == 0 ==> ok && log == Expire(old(log), now, window)
      ensures tokens > capacity ==> !ok
    {
      Cleanup(now);
      ghost var cleaned := log;
      assert cleaned == Expire(old(log), now, window);
      if tokens != 1 {
        if |log| + tokens <= capacity {
          PushCopies(now, tokens);
          ok := true;
        } else {
          ok := false;
        }
      } else if |log| < capacity {
        assert seq(1, _ => now) == [now];
        log := log + [now];
        ok := true;
      } else {
        ok := false;
      }
      AppendNowKeepsOrder(cleaned, now, if ok then tokens else 0);
    }

    /** `get_limit`: under the invariant, used plus remaining is the limit. */
    function Limit(): (r: nat)
      reads this
      ensures Valid() ==> Used() + Remaining() == r
    {
      capacity
    }

    /** `get_remaining`: capacity minus the log length, saturating at zero. */
    function Remaining(): (r: nat)
      reads this
      ensures r <= capacity
      ensures |log| <= capacity ==> r + |log| == capacity
      ensures |log| >= capacity ==> r == 0
    {
      if capacity >= |log| then capacity - |log| else 0
    }

    /** `get_used`: the units in the log, never more than the capacity. */
    function Used(): (r: nat)
      reads this
      ensures Valid() ==> r <= capacity
      ensures r == 0 <==> log == []
    {
      |log|
    }

    /** `get_reset`: the first second at which cleanup drops the oldest
        entry, or `now` when the log is empty. */
    function Reset(now: nat): (r: nat)
      reads this
      ensures log == [] ==> r == now
      ensures log != [] ==> |Expire(log, r, window)| < |log|
      ensures log != [] ==> forall t: nat :: t < r ==> Expire(log, t, window) == log
      ensures Expire(log, now, window) == log ==> r >= now
    {
      if log != [] then log[0] + window else now
    }
  }

  /** First phase of the sequential test: on a fresh log with capacity 10
      and a 2 s window, two acquisitions of 5 at second `t0` are both
      admitted and leave ten entries stamped `t0`. */
  method FillAtStart(l: SlidingWindowLog, t0: nat) returns (admitted: seq<bool>, readings: seq<(nat, nat, nat, int)>)
    requires l.Valid() && l.log == [] && l.capacity == 10 && l.window == 2
    modifies l
    ensures l.Valid() && l.log == seq(10, _ => t0)
    ensures admitted == [true, true]
    ensures readings == [(10, 10, 0, 0), (10, 5, 5, 2), (10, 0, 10, 2)]
  {
    var r0 := (l.Limit(), l.Remaining(), l.Used(), l.Reset(t0) - t0);
    assert r0 == (10, 10, 0, 0);
    var a := l.TryAcquire(t0, 5);
    assert l.log == seq(5, _ => t0);
    var r1 := (l.Limit(), l.Remaining(), l.Used(), l.Reset(t0) - t0);
    assert r1 == (10, 5, 5, 2);
    var b := l.TryAcquire(t0, 5);
    assert l.log == seq(5, _ => t0) + seq(5, _ => t0) == seq(10, _ => t0);
    var r2 := (l.Limit(), l.Remaining(), l.Used(), l.Reset(t0) - t0);
    assert r2 == (10, 0, 10, 2);
    readings := [r0, r1, r2];
    admitted := [a, b];
  }

  /** Second phase of the sequential test: ten entries stamped `t0` survive
      a refresh one second later and are all gone after one two seconds later. */
  method DrainAfterWindow(l: SlidingWindowLog, t0: nat) returns (readings: seq<(nat, nat, nat, int)>)
    requires l.Valid() && l.log == seq(10, _ => t0) && l.capacity == 10 && l.window == 2
    modifies l
    ensures l.log == []
    ensures readings == [(10, 0, 10, 2), (10, 10, 0, 2)]
  {
    ExpireBurst(10, t0, t0 + 1, 2);
    l.Refresh(t0 + 1);
    var r3 := (l.Limit(), l.Remaining(), l.Used(), l.Reset(t0 + 1) - t0);
    assert r3 == (10, 0, 10, 2);
    ExpireBurst(10, t0, t0 + 2, 2);
    l.Refresh(t0 + 2);
    var r4 := (l.Limit(), l.Remaining(), l.Used(), l.Reset(t0 + 2) - t0);
    assert r4 == (10, 10, 0, 2);
    readings := [r3, r4];
  }

  /** The sequential test: capacity 10, window 2 s, two acquisitions of 5 at
      second `t0`, refreshes at `t0 + 1` and `t0 + 2`. Returns the results
      and the (limit, remaining, used, reset - t0) readings after each step. */
  method BasicScenario(t0: nat) returns (admitted: seq<bool>, readings: seq<(nat, nat, nat, int)>)
    ensures admitted == [true, true]
    ensures readings == [(10, 10, 0, 0), (10, 5, 5, 2), (10, 0, 10, 2), (10, 0, 10, 2), (10, 10, 0, 2)]
  {
    var l := new SlidingWindowLog(10, 2);
    var first;
    admitted, first := FillAtStart(l, t0);
    var second := DrainAfterWindow(l, t0);
    readings := first + second;
  }

  /** One single-unit acquisition on a log whose entries all carry the
      current second: nothing expires, and the log still holds only `now`. */
  lemma SameSecondStep(log: seq<nat>, now: nat, window: nat, ok: bool)
    requires window > 0
    requires forall k :: 0 <= k < |log| ==> log[k] == now
    ensures Expire(log, now, window) == log
    ensures var next := log + (if ok then seq(1, _ => now) else []);
      |next| == |log| + (if ok then 1 else 0) && forall k :: 0 <= k < |next| ==> next[k] == now
  {
  }

  /** Cleanup at a second when every entry is stale empties the log. */
  lemma {:induction false} ExpireAllStale(log: seq<nat>, now: nat, window: nat)
    requires forall k :: 0 <= k < |log| ==> now - log[k] >= window
    ensures Expire(log, now, window) == []
    decreases |log|
  {
    if log != [] {
      ExpireAllStale(log[1..], now, window);
    }
  }

  /** `callers` single-unit acquisitions at second `now` on an empty log
      admit exactly `min(callers, capacity)` and leave that many entries,
      all stamped `now`. */
  method AcquireEach(l: SlidingWindowLog, now: nat, callers: nat) returns (successes: nat)
    requires l.Valid() && l.log == [] && l.window > 0
    modifies l
    ensures l.Valid() && NotAfter(l.log, now)
    ensures successes == if callers <= l.capacity then callers else l.capacity
    ensures |l.log| == successes && forall k :: 0 <= k < |l.log| ==> l.log[k] == now
  {
    successes := 0;
    for i := 0 to callers
      invariant l.Valid() && NotAfter(l.log, now)
      invariant |l.log| == successes && forall k :: 0 <= k < |l.log| ==> l.log[k] == now
      invariant successes == if i <= l.capacity then i else l.capacity
    {
      ghost var before := l.log;
      var ok := l.TryAcquire(now, 1);
      SameSecondStep(before, now, l.window, ok);
      if ok {
        successes := successes + 1;
      }
    }
  }

  /** The race test, linearised: `callers` single-unit acquisitions at one
      second on a fresh log admit exactly `min(callers, capacity)`, after
      which used and remaining account for them. A refresh once the window
      has passed empties the log, and `again` further acquisitions at that
      later second are admitted the same way. */
  method SingleUnitRace(capacity: nat, windowSecs: nat, now: nat, later: nat, callers: nat, again: nat)
    returns (successes: nat, used: nat, remaining: nat, successes2: nat, used2: nat, remaining2: nat)
    requires windowSecs > 0 && now + windowSecs <= later
    ensures successes == if callers <= capacity then callers else capacity
    ensures used == successes && remaining == capacity - successes
    ensures successes2 == if again <= capacity then again else capacity
    ensures used2 == successes2 && remaining2 == capacity - successes2
  {
    var l := new SlidingWindowLog(capacity, windowSecs);
    successes := AcquireEach(l, now, callers);
    used, remaining := l.Used(), l.Remaining();
    ExpireAllStale(l.log, later, l.window);
    l.Refresh(later);
    successes2 := AcquireEach(l, later, again);
    used2, remaining2 := l.Used(), l.Remaining();
  }
}
