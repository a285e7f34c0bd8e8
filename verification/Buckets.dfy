/** The token bucket behind one key of the rate limiter, in exact integer arithmetic.

    Time is counted in nanoseconds and `tokens` holds the source's token count multiplied by the
    window, so that refilling (`elapsed * limit / window` tokens) stays an integer: one token is
    `window` units and the capacity of `limit` tokens is `limit * window` units.
    Two readings of the process clock subtract exactly; subtracting the zero time of a bucket that
    was never used saturates at the largest duration. */
module Buckets {
  import opened Collections

  type Instant = int

  datatype Stamp = Never | At(t: Instant)

  datatype Bucket = Bucket(tokens: int, last: Stamp)

  /** What a call is told: admitted, or how many nanoseconds to wait. */
  datatype Answer = Answer(ok: bool, retry: int)

  const MAX_DURATION: int := 0x7FFF_FFFF_FFFF_FFFF
  const SECOND: int := 1_000_000_000
  const FRESH := Bucket(0, Never)

  /** Window lengths whose double still fits a duration. */
  ghost predicate ValidWindow(window: int) {
    0 < window && 2 * window <= MAX_DURATION
  }

  function Elapsed(now: Instant, last: Stamp): int {
    match last
    case Never => MAX_DURATION
    case At(t) => now - t
  }

  function Refilled(b: Bucket, limit: int, now: Instant, window: int): int {
    var grown := b.tokens + Elapsed(now, b.last) * limit;
    if grown < limit * window then grown else limit * window
  }

  /** One call on one bucket: refill, then take a token or compute the wait. */
  function Charge(b: Bucket, limit: int, now: Instant, window: int): (Bucket, Answer)
    requires limit > 0
  {
    var level := Refilled(b, limit, now, window);
    if level >= window then
      (Bucket(level - window, At(now)), Answer(true, 0))
    else
      (Bucket(level, At(now)), Answer(false, (window - level) / limit))
  }

  lemma FreshIsFull(limit: int, now: Instant, window: int)
    requires limit > 0 && ValidWindow(window)
    ensures Refilled(FRESH, limit, now, window) == limit * window
  {
    TimesMonotone(window, MAX_DURATION, limit);
  }

  // ----- Runs of calls with one constant limit on one bucket -----

  function After(b: Bucket, limit: int, times: seq<Instant>, window: int, i: nat): Bucket
    requires limit > 0 && i <= |times|
  {
    if i == 0 then b
    else Charge(After(b, limit, times, window, i - 1), limit, times[i - 1], window).0
  }

  /** The refilled content that call `i` finds. */
  function Level(b: Bucket, limit: int, times: seq<Instant>, window: int, i: nat): int
    requires limit > 0 && i < |times|
  {
    Refilled(After(b, limit, times, window, i), limit, times[i], window)
  }

  predicate Admits(b: Bucket, limit: int, times: seq<Instant>, window: int, i: nat)
    requires limit > 0 && i < |times|
  {
    Charge(After(b, limit, times, window, i), limit, times[i], window).1.ok
  }

  /** The answer to call `i`. */
  function AnswerAt(b: Bucket, limit: int, times: seq<Instant>, window: int, i: nat): Answer
    requires limit > 0 && i < |times|
  {
    Charge(After(b, limit, times, window, i), limit, times[i], window).1
  }

  /** How many of the calls `j .. i` (call `i` excluded) were admitted. */
  function Admitted(b: Bucket, limit: int, times: seq<Instant>, window: int, j: nat, i: nat): nat
    requires limit > 0 && j <= i <= |times|
  {
    if j == i then 0
    else Admitted(b, limit, times, window, j, i - 1) + (if Admits(b, limit, times, window, i - 1) then 1 else 0)
  }

  /** The most that may remain at call `i`, judged from call `j` alone: a full bucket at `j`, plus
      what flowed in, minus what was taken. */
  function Envelope(b: Bucket, limit: int, times: seq<Instant>, window: int, j: nat, i: nat): int
    requires limit > 0 && j <= i < |times|
  {
    limit * window + (times[i] - times[j]) * limit - Admitted(b, limit, times, window, j, i) * window
  }

  lemma EnvelopeStep(b: Bucket, limit: int, times: seq<Instant>, window: int, j: nat, i: nat)
    requires limit > 0 && j < i < |times|
    ensures Envelope(b, limit, times, window, j, i)
         == Envelope(b, limit, times, window, j, i - 1) + (times[i] - times[i - 1]) * limit
            - (if Admits(b, limit, times, window, i - 1) then window else 0)
  {
    var a := Admitted(b, limit, times, window, j, i - 1);
    assert (times[i] - times[j]) * limit == (times[i - 1] - times[j]) * limit + (times[i] - times[i - 1]) * limit;
    assert (a + 1) * window == a * window + window;
  }

  lemma LevelStep(b: Bucket, limit: int, times: seq<Instant>, window: int, i: nat)
    requires limit > 0 && 0 < i < |times|
    ensures var grown := Level(b, limit, times, window, i - 1)
                         - (if Admits(b, limit, times, window, i - 1) then window else 0)
                         + (times[i] - times[i - 1]) * limit;
            Level(b, limit, times, window, i) == if grown < limit * window then grown else limit * window
  {
    var before := After(b, limit, times, window, i - 1);
    var after := After(b, limit, times, window, i);
    assert after == Charge(before, limit, times[i - 1], window).0;
    assert after.last == At(times[i - 1]);
  }

  /** Whatever happened before call `j`, the bucket never exceeds the envelope that starts there.
      The time stamps may be out of order. */
  lemma {:induction false} LevelWithinEnvelope(b: Bucket, limit: int, times: seq<Instant>, window: int, j: nat, i: nat)
    requires limit > 0 && j <= i < |times|
    ensures Level(b, limit, times, window, i) <= Envelope(b, limit, times, window, j, i)
    decreases i
  {
    if j < i {
      LevelWithinEnvelope(b, limit, times, window, j, i - 1);
      EnvelopeStep(b, limit, times, window, j, i);
      LevelStep(b, limit, times, window, i);
    }
  }

  /** A bucket that started fresh always sits exactly on one of its envelopes. */
  lemma {:induction false} LevelOnSomeEnvelope(limit: int, times: seq<Instant>, window: int, i: nat) returns (j: nat)
    requires limit > 0 && ValidWindow(window) && i < |times|
    ensures j <= i && Level(FRESH, limit, times, window, i) == Envelope(FRESH, limit, times, window, j, i)
    decreases i
  {
    j := i;
    if i == 0 {
      FreshIsFull(limit, times[0], window);
    } else if Level(FRESH, limit, times, window, i) != limit * window {
      j := LevelOnSomeEnvelope(limit, times, window, i - 1);
      EnvelopeStep(FRESH, limit, times, window, j, i);
      LevelStep(FRESH, limit, times, window, i);
    }
  }

  /** The sliding-window policy seen from call `j`: admitting call `i` keeps the admissions since `j`
      within a burst of `limit` plus the flow of `limit` per window. */
  ghost predicate Fits(b: Bucket, limit: int, times: seq<Instant>, window: int, j: nat, i: nat)
    requires limit > 0 && j <= i < |times|
  {
    (Admitted(b, limit, times, window, j, i) + 1) * window <= limit * window + (times[i] - times[j]) * limit
  }

  lemma OneMore(a: int, window: int)
    ensures (a + 1) * window == a * window + window
  {
  }

  lemma FitsIsEnvelope(b: Bucket, limit: int, times: seq<Instant>, window: int, j: nat, i: nat)
    requires limit > 0 && j <= i < |times|
    ensures Fits(b, limit, times, window, j, i) <==> window <= Envelope(b, limit, times, window, j, i)
  {
    OneMore(Admitted(b, limit, times, window, j, i), window);
  }

  /** The bucket is the exact sliding-window policy: a call is admitted if and only if it fits as
      seen from every earlier call. It is never stricter than that and never laxer, even with time
      stamps out of order. */
  lemma AdmitsExactly(limit: int, times: seq<Instant>, window: int, i: nat)
    requires limit > 0 && ValidWindow(window) && i < |times|
    ensures Admits(FRESH, limit, times, window, i)
       <==> forall j: nat | j <= i :: Fits(FRESH, limit, times, window, j, i)
  {
    if Admits(FRESH, limit, times, window, i) {
      forall j: nat | j <= i
        ensures Fits(FRESH, limit, times, window, j, i)
      {
        LevelWithinEnvelope(FRESH, limit, times, window, j, i);
        FitsIsEnvelope(FRESH, limit, times, window, j, i);
      }
    } else {
      var j := LevelOnSomeEnvelope(limit, times, window, i);
      FitsIsEnvelope(FRESH, limit, times, window, j, i);
    }
  }

  /** Sliding-window bound, from any earlier state of the bucket: the calls `j .. i`, where call `i`
      was admitted, contain at most `limit + (times[i] - times[j]) * limit / window` admissions. */
  lemma SlidingWindow(b: Bucket, limit: int, times: seq<Instant>, window: int, j: nat, i: nat)
    requires limit > 0 && window > 0 && j <= i < |times|
    requires Admits(b, limit, times, window, i)
    ensures Admitted(b, limit, times, window, j, i + 1) * window <= limit * window + (times[i] - times[j]) * limit
  {
    LevelWithinEnvelope(b, limit, times, window, j, i);
    FitsIsEnvelope(b, limit, times, window, j, i);
  }

  /** A fresh bucket admits a burst of `limit` calls, however close together. */
  lemma FreshBurst(limit: int, times: seq<Instant>, window: int, i: nat)
    requires limit > 0 && ValidWindow(window) && i < limit && i < |times|
    requires forall j: nat | j <= i :: times[j] <= times[i]
    ensures Admits(FRESH, limit, times, window, i)
  {
    forall j: nat | j <= i
      ensures Fits(FRESH, limit, times, window, j, i)
    {
      AdmittedAtMost(FRESH, limit, times, window, j, i);
      TimesMonotone(Admitted(FRESH, limit, times, window, j, i) + 1, limit, window);
      TimesMonotone(0, times[i] - times[j], limit);
    }
    AdmitsExactly(limit, times, window, i);
  }

  lemma {:induction false} AdmittedAtMost(b: Bucket, limit: int, times: seq<Instant>, window: int, j: nat, i: nat)
    requires limit > 0 && j <= i <= |times|
    ensures Admitted(b, limit, times, window, j, i) <= i - j
    decreases i
  {
    if j < i {
      AdmittedAtMost(b, limit, times, window, j, i - 1);
    }
  }

  // ----- Retry-After -----

  /** The header value sent with a rejection: whole seconds, plus one. */
  function RetryAfter(retry: int): int {
    retry / SECOND + 1
  }

  /** Rejected calls lose nothing: a bucket that only rejected since it stood at `b` holds exactly
      what it held then plus the flow, whatever the order of the time stamps. */
  lemma {:induction false} RejectionsKeepPotential(b: Bucket, limit: int, times: seq<Instant>, window: int, i: nat)
    requires limit > 0 && window > 0 && i <= |times| && b.last.At?
    requires forall k: nat | k < i :: !Admits(b, limit, times, window, k)
    ensures After(b, limit, times, window, i).last.At?
    ensures After(b, limit, times, window, i).tokens
         == b.tokens + (After(b, limit, times, window, i).last.t - b.last.t) * limit
  {
    if i > 0 {
      RejectionsKeepPotential(b, limit, times, window, i - 1);
      var before := After(b, limit, times, window, i - 1);
      assert !Admits(b, limit, times, window, i - 1);
      TimesMonotone(1, limit, window);
      assert (times[i - 1] - b.last.t) * limit
          == (before.last.t - b.last.t) * limit + (times[i - 1] - before.last.t) * limit;
    }
  }

  /** After a rejection at `now` and only rejected calls since, a call at `t` with the same limit is
      admitted if and only if the missing part of a token has flowed in by then. */
  lemma RetryExactly(b: Bucket, limit: int, now: Instant, times: seq<Instant>, window: int, t: Instant)
    requires limit > 0 && window > 0
    requires !Charge(b, limit, now, window).1.ok
    requires var rejected := Charge(b, limit, now, window).0;
             forall k: nat | k < |times| :: !Admits(rejected, limit, times, window, k)
    ensures var rejected := Charge(b, limit, now, window).0;
            Charge(After(rejected, limit, times, window, |times|), limit, t, window).1.ok
            <==> window - rejected.tokens <= (t - now) * limit
  {
    var rejected := Charge(b, limit, now, window).0;
    RejectionsKeepPotential(rejected, limit, times, window, |times|);
    var last := After(rejected, limit, times, window, |times|);
    assert (t - now) * limit == (last.last.t - now) * limit + (t - last.last.t) * limit;
    TimesMonotone(1, limit, window);
  }

  lemma DivisionBracket(x: int, d: int)
    requires d > 0
    ensures (x / d) * d <= x < (x / d + 1) * d
  {
  }

  /** The Retry-After seconds are sufficient, and the nanosecond wait is not too long: waiting the
      announced seconds is always enough, calling before the computed wait never is. */
  lemma RetryAfterSound(b: Bucket, limit: int, now: Instant, times: seq<Instant>, window: int, t: Instant)
    requires limit > 0 && window > 0
    requires !Charge(b, limit, now, window).1.ok
    requires var rejected := Charge(b, limit, now, window).0;
             forall k: nat | k < |times| :: !Admits(rejected, limit, times, window, k)
    ensures var (rejected, answer) := Charge(b, limit, now, window);
            var ok := Charge(After(rejected, limit, times, window, |times|), limit, t, window).1.ok;
            && (now + RetryAfter(answer.retry) * SECOND <= t ==> ok)
            && (t < now + answer.retry ==> !ok)
  {
    var (rejected, answer) := Charge(b, limit, now, window);
    RetryExactly(b, limit, now, times, window, t);
    DivisionBracket(window - rejected.tokens, limit);
    DivisionBracket(answer.retry, SECOND);
    if now + RetryAfter(answer.retry) * SECOND <= t {
      TimesMonotone(answer.retry + 1, t - now, limit);
    }
    if t < now + answer.retry {
      TimesMonotone(t - now + 1, answer.retry, limit);
      assert (t - now + 1) * limit == (t - now) * limit + limit;
    }
  }

  /** With the one-minute window, a bucket that is not overdrawn and a reading no earlier than its last one,
      no client is told to wait longer than one refill interval, rounded up. */
  lemma RetryAfterBounded(b: Bucket, limit: int, now: Instant)
    requires limit > 0
    requires !Charge(b, limit, now, 60 * SECOND).1.ok
    requires 0 <= b.tokens && 0 <= Elapsed(now, b.last)
    ensures 1 <= RetryAfter(Charge(b, limit, now, 60 * SECOND).1.retry) <= 60 / limit + 1
  {
    var (rejected, answer) := Charge(b, limit, now, 60 * SECOND);
    TimesMonotone(0, Elapsed(now, b.last), limit);
    TimesMonotone(1, limit, 60 * SECOND);
    var missing := 60 * SECOND - rejected.tokens;
    var s := answer.retry / SECOND;
    DivisionBracket(missing, limit);
    DivisionBracket(answer.retry, SECOND);
    QuotientNonNegative(missing, limit);
    // s whole seconds of refill fit into the minute, so s does not exceed 60 / limit
    TimesMonotone(s * SECOND, answer.retry, limit);
    assert s * SECOND * limit == (s * limit) * SECOND;
    assert s * limit <= 60;
    DivisionBracket(60, limit);
    if s > 60 / limit {
      TimesMonotone(60 / limit + 1, s, limit);
    }
  }

  lemma QuotientNonNegative(x: int, d: int)
    requires 0 <= x && 0 < d
    ensures 0 <= x / d
  {
  }
}
