# Rate limiters: verified model

This project models four of the admission-control algorithms of the Rust
crate `rate-limiters-rs`: the Sliding Window Log, the Sliding Window Counter,
the Fixed Window Counter (`FixedRateLimiter`) and the Token Bucket. Each one
is a small state machine: a request for `n` units is admitted or refused by
`try_acquire`, after a time-dependent refresh step (cleanup, purge, window
reset or refill).

Each algorithm is a Dafny class in its own module and file, with the fields
of the Rust struct, a `Valid()` object invariant, and methods for the Rust
methods that change state. The `while let` loops that pop stale timestamps
and the `for` loops that push `n` copies of `now` are Dafny loops with
invariants. Each method is proved against a pure specification function of
the old state: `Expire`, `Purge`, `Refreshed` or `Refilled`. The lemmas
about these functions state what the source promises: idempotent refresh,
time-gated recovery, and which prefix gets dropped. The `get_*` accessors
are functions whose contracts state the capacity identities.

Time is one integer clock, passed in as `now` (module `Clock`):

- The monotonic clock (`Instant`) and the wall clock (`SystemTime`) are the
  same clock, counting milliseconds since the Unix epoch.
- `get_reset` converts instants to whole Unix seconds with `UnixSeconds`.
- The Sliding Window Log works in whole seconds, as its `now_secs` does.
- Every operation requires that `now` is not before any stored timestamp or
  `last_*` instant. The source's unsigned arithmetic assumes this too.

Stated across the whole model:

- Capacity bounds are object invariants:
  - `|log| <= capacity` and `|events| <= capacity`.
  - `admitted + remaining == limit` for the units admitted in the current fixed window.
  - `tokens + admitted == capacity + refilled` for the token bucket, with `refilled` at most the rate times the seconds since creation. So a bucket never admits more than `capacity` plus the floor of (elapsed seconds × rate), and with a zero rate no more than `capacity`.
- `get_used() + get_remaining() == get_limit()` holds for every algorithm that has these getters.
- The scenarios of the crate's tests are client methods with exact postconditions.
- Each race test becomes a linearised sequence of calls: the lock serialises the callers, and every caller makes the same request.

## Model

| member | source | states |
|---|---|---|
| Clock.UnixSeconds | src/sliding_window_counter/impl.rs:73 | `as_secs()` after `duration_since(UNIX_EPOCH)` is the floor of the millisecond instant divided by 1000 |
| Clock.UnixSecondsMonotonic | src/sliding_window_counter/impl.rs:73 | truncating to whole seconds never runs backwards |
| Clock.UnixSecondsShift | src/sliding_window_counter/impl.rs:73 | an instant moved by `k` whole seconds has its Unix second moved by `k` |
| Clock.SaturatingSub | src/sliding_window_counter/impl.rs:72 | `saturating_duration_since`: the difference when `a` is not before `b`, zero otherwise |
| SlidingWindowLog.Expire | src/sliding_window_log/impl.rs:30-39 | cleanup removes a prefix only; every removed entry has `now - ts >= window`; a non-empty result starts with an entry with `now - ts < window` |
| SlidingWindowLog.ExpireIsUnique | src/sliding_window_log/impl.rs:30-39 | those three properties determine the cleaned log: the prefix removed is exactly the maximal stale prefix |
| SlidingWindowLog.ExpireIdempotent | src/sliding_window_log/impl.rs:42-45 | `refresh` twice at the same second is `refresh` once |
| SlidingWindowLog.ExpireComposes | src/sliding_window_log/impl.rs:30-45 | cleanup at `t1` followed by cleanup at a later `t2` leaves the same log as a single cleanup at `t2` |
| SlidingWindowLog.ExpireLeavesOnlyLiveEntries | src/sliding_window_log/impl.rs:30-39 | on an ordered log, cleanup keeps the order and leaves every entry, not only the front, inside the window |
| SlidingWindowLog.NothingExpiresBeforeReset | src/sliding_window_log/impl.rs:79-85 | before `oldest + window` cleanup frees nothing; at that second the oldest entry goes |
| SlidingWindowLog.ExpireBurst | src/sliding_window_log/impl.rs:30-39 | entries pushed at one second all stay while that second is inside the window and all go once it is not |
| SlidingWindowLog.SlidingWindowLog.constructor | src/sliding_window_log/impl.rs:15-21 | an empty log with the given capacity and window; the invariant holds |
| SlidingWindowLog.SlidingWindowLog.Cleanup | src/sliding_window_log/impl.rs:30-39 | the `while let` pop loop leaves exactly `Expire(old log)` and keeps the log ordered and within capacity |
| SlidingWindowLog.SlidingWindowLog.Refresh | src/sliding_window_log/impl.rs:43-45 | refresh is cleanup |
| SlidingWindowLog.SlidingWindowLog.PushCopies | src/sliding_window_log/impl.rs:52-54 | the `for` loop appends exactly `n` copies of `now` |
| SlidingWindowLog.SlidingWindowLog.TryAcquire | src/sliding_window_log/impl.rs:47-65 | admits iff cleaned length plus `n` fits the capacity, on both the `n == 1` and the `n != 1` path; success appends `n` copies of `now`; refusal leaves the cleaned log; `n == 0` always admits and appends nothing; `n > capacity` always refuses; the invariant is kept |
| SlidingWindowLog.SlidingWindowLog.Limit | src/sliding_window_log/impl.rs:67-69 | under the invariant, used plus remaining equals the limit |
| SlidingWindowLog.SlidingWindowLog.Remaining | src/sliding_window_log/impl.rs:71-73 | capacity minus the log length, saturating at zero |
| SlidingWindowLog.SlidingWindowLog.Used | src/sliding_window_log/impl.rs:75-77 | the log length; zero iff the log is empty; at most the capacity under the invariant |
| SlidingWindowLog.SlidingWindowLog.Reset | src/sliding_window_log/impl.rs:79-85 | `now` for an empty log; otherwise the first second at which cleanup drops the oldest entry (cleanup at every earlier second frees nothing); never before `now` once the log is clean |
| SlidingWindowLog.FillAtStart | src/sliding_window_log/tests/sliding_window_log_shared_tests.rs:15-33 | first phase of the sequential test: two acquisitions of 5 are admitted, with the readings after each |
| SlidingWindowLog.DrainAfterWindow | src/sliding_window_log/tests/sliding_window_log_shared_tests.rs:35-49 | second phase of the sequential test: the ten entries survive one second and are gone after two |
| SlidingWindowLog.BasicScenario | src/sliding_window_log/tests/sliding_window_log_shared_tests.rs:15-49 | capacity 10, window 2: both acquisitions of 5 succeed, and the readings (limit, remaining, used, reset offset) are those the test asserts, including full capacity after 2 s |
| SlidingWindowLog.ExpireAllStale | src/sliding_window_log/impl.rs:30-39 | cleanup at a second when every entry is stale empties the log |
| SlidingWindowLog.AcquireEach | src/sliding_window_log/tests/sliding_window_log_shared_tests.rs:75-91 | single-unit requests at one second on an empty log admit exactly `min(requests, capacity)` and leave that many entries stamped with that second |
| SlidingWindowLog.SingleUnitRace | src/sliding_window_log/tests/sliding_window_log_shared_tests.rs:63-116 | any number of single-unit requests in one second admit exactly `min(requests, capacity)`, and then used is that count and remaining the rest; after a refresh once the window has passed, a second batch is admitted the same way, with the same used/remaining identity |
| SlidingWindowCounter.Purge | src/sliding_window_counter/impl.rs:23-32 | purge removes exactly the maximal prefix with `now - e > window` (strict); a surviving front has `now - front <= window` |
| SlidingWindowCounter.PurgeIdempotent | src/sliding_window_counter/impl.rs:36-38 | `refresh` is idempotent at a fixed instant |
| SlidingWindowCounter.PurgeComposes | src/sliding_window_counter/impl.rs:23-38 | purge at `t1` followed by purge at a later `t2` leaves the same queue as a single purge at `t2` |
| SlidingWindowCounter.PurgeLeavesOnlyLiveEntries | src/sliding_window_counter/impl.rs:23-32 | on an ordered queue every surviving entry is at most `window` old and the order is kept |
| SlidingWindowCounter.PurgeIsStrict | src/sliding_window_counter/impl.rs:26-30 | an entry exactly `window` old survives; one tick later it is purged |
| SlidingWindowCounter.PurgeBurst | src/sliding_window_counter/impl.rs:23-32 | entries pushed at one instant all stay while at most `window` old and all go once older |
| SlidingWindowCounter.SlidingWindowCounter.constructor | src/sliding_window_counter/impl.rs:15-21 | an empty queue, window in ticks, the invariant holds |
| SlidingWindowCounter.SlidingWindowCounter.PurgeOld | src/sliding_window_counter/impl.rs:23-32 | the pop loop leaves exactly `Purge(old events)` and keeps the invariant |
| SlidingWindowCounter.SlidingWindowCounter.Refresh | src/sliding_window_counter/impl.rs:36-38 | refresh is the purge |
| SlidingWindowCounter.SlidingWindowCounter.PushCopies | src/sliding_window_counter/impl.rs:44-46 | the `for` loop appends exactly `n` copies of `now` |
| SlidingWindowCounter.SlidingWindowCounter.TryAcquire | src/sliding_window_counter/impl.rs:40-51 | admits iff purged length plus `n` fits the capacity; success appends `n` copies of `now`; refusal changes nothing beyond the purge; `len <= capacity` is kept |
| SlidingWindowCounter.SlidingWindowCounter.Limit | src/sliding_window_counter/impl.rs:53-55 | under the invariant, used plus remaining equals the limit |
| SlidingWindowCounter.SlidingWindowCounter.Remaining | src/sliding_window_counter/impl.rs:57-63 | capacity minus the queue length, floored at zero |
| SlidingWindowCounter.SlidingWindowCounter.Used | src/sliding_window_counter/impl.rs:65-67 | the queue length; zero iff empty; at most the capacity under the invariant |
| SlidingWindowCounter.SlidingWindowCounter.Reset | src/sliding_window_counter/impl.rs:69-80 | the saturating computation equals `max(now, first + window)` in Unix seconds, or `now` when empty; never before `now` |
| SlidingWindowCounter.FillAtStart | src/sliding_window_counter/tests/sliding_window_counter_tests.rs:15-40 | first phase of the sequential test: 5 and 5 admitted, 1 refused, ten entries stamped `t0`, with the readings after each |
| SlidingWindowCounter.DrainAfterWindow | src/sliding_window_counter/tests/sliding_window_counter_tests.rs:42-56 | second phase of the sequential test: the ten entries survive a refresh within the window and are gone after one past it |
| SlidingWindowCounter.BasicScenario | src/sliding_window_counter/tests/sliding_window_counter_tests.rs:15-56 | capacity 10, window 2 s: 5 and 5 admitted, 1 refused, remaining 0 after 1 s and 10 once the window has passed, with the asserted reset offsets |
| FixedWindowCounter.Refreshed | src/fixed_window_counter/impl.rs:26-32 | a refresh never moves the window start backwards or past `now`, and a moved start comes with the full limit |
| FixedWindowCounter.RefreshIdempotent | src/fixed_window_counter/impl.rs:26-32 | refresh twice at one instant is refresh once, also for a zero window |
| FixedWindowCounter.RefreshKeepsBound | src/fixed_window_counter/impl.rs:26-32 | refresh keeps `remaining <= limit` and never lowers `remaining` |
| FixedWindowCounter.RefreshRecovers | src/fixed_window_counter/impl.rs:28-31 | once the window has elapsed, refresh restores the full limit |
| FixedWindowCounter.FixedRateLimiter.constructor | src/fixed_window_counter/impl.rs:15-22 | remaining is the limit, the window starts at `now`, the window is in ticks |
| FixedWindowCounter.FixedRateLimiter.Refresh | src/fixed_window_counter/impl.rs:26-32 | resets `remaining` and `last_reset` iff `now - last_reset >= window`, otherwise no change; the units admitted in the window restart from zero on a reset |
| FixedWindowCounter.FixedRateLimiter.TryAcquire | src/fixed_window_counter/impl.rs:34-42 | admits iff the refreshed `remaining >= n` and takes `n`; refusal leaves the refreshed state; units admitted in one window never exceed the limit |
| FixedWindowCounter.FixedRateLimiter.Limit | src/fixed_window_counter/impl.rs:44-46 | used plus remaining equals the limit |
| FixedWindowCounter.FixedRateLimiter.Remaining | src/fixed_window_counter/impl.rs:48-50 | never more than the limit |
| FixedWindowCounter.FixedRateLimiter.Used | src/fixed_window_counter/impl.rs:52-54 | `limit - remaining` is exactly the units admitted since the window started |
| FixedWindowCounter.FixedRateLimiter.Reset | src/fixed_window_counter/impl.rs:56-68 | `now` plus the rest of the window equals `max(now, last_reset + window)` in Unix seconds; never before `now` |
| FixedWindowCounter.BasicScenario | src/fixed_window_counter/tests/fixed_window_counter_tests.rs:16-49 | limit 10, window 2 s: 5 and 5 admitted, 1 refused, after 2 s a refresh gives remaining 10 and a reset 4 s after the start second |
| TokenBucket.NewTokens | src/token_bucket/impl.rs:24 | the number of new tokens is the floor of (elapsed seconds × rate) |
| TokenBucket.NewTokensMonotonic | src/token_bucket/impl.rs:23-24 | a longer elapsed time never yields fewer new tokens |
| TokenBucket.Refilled | src/token_bucket/impl.rs:21-30 | the refill instant only moves forward, never past `now`, and tokens change only when it moves |
| TokenBucket.RefillAddsFlooredTokens | src/token_bucket/impl.rs:24-27 | refill adds the floored product, capped at the capacity, and never removes tokens |
| TokenBucket.RefillKeepsPartialProgress | src/token_bucket/impl.rs:26-29 | `last_refill` becomes `now` iff at least one token was added (or it already was `now`); a refill that adds nothing leaves the whole state unchanged |
| TokenBucket.RefillIdempotent | src/token_bucket/impl.rs:21-30 | refill twice at one instant is refill once |
| TokenBucket.RefillMonotonicInTime | src/token_bucket/impl.rs:22-27 | refilling later never leaves fewer tokens |
| TokenBucket.RefillDropsRemainder | src/token_bucket/impl.rs:26-28 | once a token is added, the rest of a partial token is lost: 1.5 s then 2 s gives 1 token, one refill at 2 s gives 2 |
| TokenBucket.RefillBoundedByTime | src/token_bucket/impl.rs:21-30 | a refill adds at most the floored elapsed time times the rate, so the refilled total stays within the rate times the time since creation |
| TokenBucket.AdmittedBoundedByTime | src/token_bucket/impl.rs:32-40 | admissions beyond the initial tokens are paid by refills, so they stay within `capacity` plus the rate times the time since creation; with a zero rate, within `capacity` |
| TokenBucket.TokenBucket.constructor | src/token_bucket/impl.rs:12-19 | a full bucket whose refill clock starts at `now` |
| TokenBucket.TokenBucket.Refill | src/token_bucket/impl.rs:21-30 | the new state is `Refilled(old state)`; `tokens <= capacity`, the token accounting and the rate bound on refilled tokens are kept |
| TokenBucket.TokenBucket.TryAcquire | src/token_bucket/impl.rs:32-40 | admits iff the refilled `tokens >= n` and takes `n`; refusal leaves the refilled state; over any call sequence the total admitted is at most `capacity` plus the floor of (seconds since creation × rate), for instance `capacity + 3` after 1.5 s at rate 2, and at most `capacity` with a zero rate |
| TokenBucket.AcquireBasic | src/token_bucket/tests/token_bucket_tests.rs:8-15 | capacity 10, rate 1: 5, 5, 1 within the first second give admitted, admitted, refused |
| TokenBucket.AcquireAfterDelay | src/token_bucket/tests/token_bucket_tests.rs:18-25 | 10 taken, then after one to two seconds 1 is admitted and a second 1 refused |
| TokenBucket.ZeroRateRace | src/token_bucket/tests/shared_token_bucket_tests.rs:37-60 | with a zero rate, single-unit requests at any non-decreasing instants admit exactly `min(requests, capacity)` |
| TokenBucket.RefillRace | src/token_bucket/tests/shared_token_bucket_tests.rs:63-94 | capacity 5, rate 5: single-unit requests at any non-decreasing instants within three seconds of the test's start admit at most 20 |

## Left out

- The Leaky Bucket (`src/leaky_bucket/impl.rs`): all of its state is `f64`, and admission compares float sums. Floating point is not modelled.
- The `*Shared` wrappers (`Arc<Mutex<…>>`): they only lock and delegate. Concurrency is not modelled. Each race test is modelled by one serialised order of its calls; every caller makes the same request, so every order gives the same count.
- Clock reads (`Instant::now`, `SystemTime::now`, `UNIX_EPOCH`) are not modelled. Each read is the `now` parameter, and both clocks are one millisecond clock.
- SlidingWindowLog.SlidingWindowLog.TryAcquire: takes one `now` for the whole call. The source reads the clock once in `cleanup` and again before pushing, and the two reads may fall in different seconds.
- SlidingWindowCounter.SlidingWindowCounter.TryAcquire: takes one `now` for the whole call. The source reads `Instant::now()` once in the purge and again before pushing.
- SlidingWindowCounter.SlidingWindowCounter.Reset: uses one `now`. The source reads `SystemTime::now()` and `Instant::now()` separately.
- FixedWindowCounter.FixedRateLimiter.Reset: uses one `now`, for the same reason.
- TokenBucket.NewTokens: computes an exact floor over integer milliseconds. The source multiplies `as_secs_f64()` by the rate in `f64`, which can round differently. The saturating `as u32` cast is not modelled either.
- Integer widths: `u32` and `u64` fields are unbounded `nat`. Overflow is not modelled: `len as u32 + tokens` (src/sliding_window_counter/impl.rs:42), `tokens + new_tokens` (src/token_bucket/impl.rs:27), and the `as u32` casts of lengths in the getters.
- Underflow: the `u64` subtraction `now - ts` at src/sliding_window_log/impl.rs:33 underflows if the wall clock runs back before an entry. With overflow checks on (the debug profile that `cargo test` uses) it panics. In a default release build it wraps to a huge value that is `>= window`, so the loop at lines 32-38 pops every entry from the first such one onward. A backward step before the oldest entry then silently empties the log, and a full `capacity` is admitted again. The model covers neither mode: it makes `now` not before any entry a precondition.
- TokenBucket.RefillRace: takes the test's `start` to be at most 200 ms after the bucket's creation. The bound of 20 is 5 initial tokens plus 15 refilled, and it needs that margin: the rate bound counts from creation, not from `start`. The margin also covers the gap between the test's loop guard (src/token_bucket/tests/shared_token_bucket_tests.rs:78), which reads the clock before 3 s have passed, and the clock read inside `refill`, which may fall just after: the requires bounds each request instant by `start + 3 s`, and the proof needs only that it is less than 3.2 s after creation.
- Token bucket getters: the token bucket file defines only `new`, `refill` and `try_acquire`. The `get_used` and `get_reset` rules and the zero-rate `get_reset` policy belong to no code here and are not modelled.

Where the design description and the code differ, the model follows the code:

- A refill that adds tokens resets `last_refill` to `now`, so the partial token accrued beyond the whole ones is dropped (`RefillDropsRemainder`). Only a refill that adds nothing keeps all the accrued progress.
- The Fixed Window Counter's `get_reset` never reports an instant in the past. Once the window is over it reports `now`, until a refresh starts a new window.
- `try_acquire(0)` always admits, but it still runs cleanup or purge first, so the queue may lose stale entries.
