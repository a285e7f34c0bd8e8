/** The rate limiter: a table of token buckets with lazy sweeping, and the proof that every key
    behaves as if it owned a bucket that is never swept. */
module Limiting {
  import opened Buckets
  import opened Collections

  /** Buckets are keyed by the database id of a proxy token. */
  datatype TokenId = TokenId(id: int)

  type Table = map<TokenId, Bucket>

  const MAX_KEYS: nat := 0x1_0000

  /** Idle for more than two windows. */
  predicate Idle(b: Bucket, now: Instant, window: int) {
    Elapsed(now, b.last) > window * 2
  }

  function Swept(m: Table, now: Instant, window: int): Table {
    map k | k in m && !Idle(m[k], now, window) :: m[k]
  }

  /** The table in which a new bucket is placed: swept first if the table is full. */
  function RoomFor(m: Table, key: TokenId, now: Instant, window: int): Table {
    if key !in m && |m| >= MAX_KEYS then Swept(m, now, window) else m
  }

  function AllowStep(m: Table, key: TokenId, limit: int, now: Instant, window: int): (Table, Answer) {
    if limit <= 0 then
      (m, Answer(true, 0))
    else
      var room := RoomFor(m, key, now, window);
      var b := if key in room then room[key] else FRESH;
      var (charged, answer) := Charge(b, limit, now, window);
      (room[key := charged], answer)
  }

  /** A call changes no other bucket; it forgets some only to make room in a full table, and then exactly those
      that were not used for more than two windows. */
  lemma OthersKept(m: Table, key: TokenId, limit: int, now: Instant, window: int, other: TokenId)
    requires other != key
    ensures var next := AllowStep(m, key, limit, now, window).0;
            && (other in next ==> other in m && next[other] == m[other])
            && (other in m ==>
                  (other !in next <==> limit > 0 && key !in m && |m| >= 65536 && Elapsed(now, m[other].last) > 2 * window))
            && (key in next <==> key in m || limit > 0)
  {
  }

  // ----- Runs of the whole limiter and of one bucket alone -----

  datatype Op =
    | Allow(key: TokenId, limit: int, now: Instant)
    | Remove(key: TokenId)
    | Sweep(now: Instant)

  function Step(m: Table, op: Op, window: int): Table {
    match op
    case Allow(key, limit, now) => AllowStep(m, key, limit, now, window).0
    case Remove(key) => m - {key}
    case Sweep(now) => Swept(m, now, window)
  }

  /** What the calls for `key` are told when the limiter serves all of `ops`. */
  function Answers(m: Table, ops: seq<Op>, key: TokenId, window: int): seq<Answer>
    decreases |ops|
  {
    if ops == [] then []
    else
      var rest := Answers(Step(m, ops[0], window), ops[1..], key, window);
      match ops[0]
      case Allow(k, limit, now) =>
        if k == key then [AllowStep(m, k, limit, now, window).1] + rest else rest
      case _ => rest
  }

  /** What they are told by one bucket that sees only this key's own calls and removals: no other
      keys, no sweeps, no table limit. */
  function Alone(b: Bucket, ops: seq<Op>, key: TokenId, window: int): seq<Answer>
    decreases |ops|
  {
    if ops == [] then []
    else
      match ops[0]
      case Allow(k, limit, now) =>
        if k != key then Alone(b, ops[1..], key, window)
        else if limit <= 0 then [Answer(true, 0)] + Alone(b, ops[1..], key, window)
        else
          var (charged, answer) := Charge(b, limit, now, window);
          [answer] + Alone(charged, ops[1..], key, window)
      case Remove(k) => Alone(if k == key then FRESH else b, ops[1..], key, window)
      case Sweep(_) => Alone(b, ops[1..], key, window)
  }

  // ----- When a key is served as by its own bucket -----

  /** If the table holds the key at all, it holds the lone bucket. */
  ghost predicate Mirrors(m: Table, b: Bucket, key: TokenId) {
    key in m ==> m[key] == b
  }

  lemma FullIsBurst(b: Bucket, limit: int, now: Instant, window: int)
    requires limit > 0 && ValidWindow(window)
    ensures Charge(b, limit, now, window) == Charge(FRESH, limit, now, window)
       <==> Refilled(b, limit, now, window) == limit * window
  {
    FreshIsFull(limit, now, window);
    TimesMonotone(1, limit, window);
  }

  /** One call, exactly: the limiter answers it and leaves its bucket as the lone bucket would if and only
      if the key is in the table, or its bucket would be full by this reading anyway. */
  lemma CallAgreesExactly(m: Table, b: Bucket, key: TokenId, limit: int, now: Instant, window: int)
    requires limit > 0 && ValidWindow(window) && Mirrors(m, b, key)
    ensures var (next, answer) := AllowStep(m, key, limit, now, window);
            key in next
            && ((next[key], answer) == Charge(b, limit, now, window)
                <==> key in m || Refilled(b, limit, now, window) == limit * window)
  {
    FullIsBurst(b, limit, now, window);
  }

  /** After each counted call of `key`: its answer, and its bucket in the table. */
  function Served(m: Table, ops: seq<Op>, key: TokenId, window: int): seq<(Bucket, Answer)>
    decreases |ops|
  {
    if ops == [] then []
    else
      var next := Step(m, ops[0], window);
      var rest := Served(next, ops[1..], key, window);
      if ops[0].Allow? && ops[0].key == key && ops[0].limit > 0 && key in next then
        [(next[key], AllowStep(m, key, ops[0].limit, ops[0].now, window).1)] + rest
      else rest
  }

  /** The lone bucket after an operation. */
  function LoneStep(b: Bucket, op: Op, key: TokenId, window: int): Bucket {
    match op
    case Allow(k, limit, now) => if k == key && limit > 0 then Charge(b, limit, now, window).0 else b
    case Remove(k) => if k == key then FRESH else b
    case Sweep(_) => b
  }

  /** The same for the lone bucket. */
  function Lone(b: Bucket, ops: seq<Op>, key: TokenId, window: int): seq<(Bucket, Answer)>
    decreases |ops|
  {
    if ops == [] then []
    else
      var rest := Lone(LoneStep(b, ops[0], key, window), ops[1..], key, window);
      if ops[0].Allow? && ops[0].key == key && ops[0].limit > 0 then
        [Charge(b, ops[0].limit, ops[0].now, window)] + rest
      else rest
  }

  /** Whenever the key calls and the table has lost it, its bucket would be full anyway. */
  ghost predicate FullWhenMissing(m: Table, b: Bucket, ops: seq<Op>, key: TokenId, window: int)
    decreases |ops|
  {
    ops == [] ||
    (&& (ops[0].Allow? && ops[0].key == key && ops[0].limit > 0 && key !in m ==>
           Refilled(b, ops[0].limit, ops[0].now, window) == ops[0].limit * window)
     && FullWhenMissing(Step(m, ops[0], window), LoneStep(b, ops[0], key, window), ops[1..], key, window))
  }

  /** Operations other than a counted call of the key keep the table from holding a foreign bucket. */
  lemma OthersMirror(m: Table, b: Bucket, key: TokenId, op: Op, window: int)
    requires Mirrors(m, b, key) && !(op.Allow? && op.key == key && op.limit > 0)
    ensures Mirrors(Step(m, op, window), LoneStep(b, op, key, window), key)
  {
  }

  /** Whole runs, exactly, with readings in any order: the limiter serves a key step by step as the key's own
      never-swept bucket would if and only if that bucket would be full whenever the key calls and the
      table has lost it. */
  lemma {:induction false} ServedExactly(m: Table, b: Bucket, ops: seq<Op>, key: TokenId, window: int)
    requires ValidWindow(window) && Mirrors(m, b, key)
    ensures Served(m, ops, key, window) == Lone(b, ops, key, window) <==> FullWhenMissing(m, b, ops, key, window)
    decreases |ops|
  {
    if ops != [] {
      var op := ops[0];
      var next, b' := Step(m, op, window), LoneStep(b, op, key, window);
      if op.Allow? && op.key == key && op.limit > 0 {
        CallAgreesExactly(m, b, key, op.limit, op.now, window);
        var mine := (next[key], AllowStep(m, key, op.limit, op.now, window).1);
        var lone := Charge(b, op.limit, op.now, window);
        HeadsDiffer(mine, Served(next, ops[1..], key, window), lone, Lone(b', ops[1..], key, window));
        if mine == lone {
          ServedExactly(next, b', ops[1..], key, window);
        }
      } else {
        OthersMirror(m, b, key, op, window);
        ServedExactly(next, b', ops[1..], key, window);
      }
    }
  }

  /** Then the answers are the same, calls without a limit included. */
  lemma {:induction false} KeysAreIndependent(m: Table, b: Bucket, ops: seq<Op>, key: TokenId, window: int)
    requires ValidWindow(window) && Mirrors(m, b, key) && FullWhenMissing(m, b, ops, key, window)
    ensures Answers(m, ops, key, window) == Alone(b, ops, key, window)
    decreases |ops|
  {
    if ops != [] {
      var op := ops[0];
      if op.Allow? && op.key == key && op.limit > 0 {
        CallAgreesExactly(m, b, key, op.limit, op.now, window);
      } else {
        OthersMirror(m, b, key, op, window);
      }
      KeysAreIndependent(Step(m, op, window), LoneStep(b, op, key, window), ops[1..], key, window);
    }
  }

  // ----- Readings that are late -----

  /** A call reads the clock before it takes the lock, so readings may be out of order. */
  function Later(a: Instant, b: Instant): Instant {
    if a < b then b else a
  }

  function Sooner(a: Instant, b: Instant): Instant {
    if a < b then a else b
  }

  /** What the bucket of the key holds at least after a call, if it held at least `floor` since reading `own`:
      a reading before that one takes back what flowed in between them. */
  function FloorAfter(floor: int, own: Stamp, limit: int, now: Instant): int {
    Sooner(0, floor + Elapsed(now, own) * limit)
  }

  /** Whenever the key calls after some reading was more than two windows later than its own last one, its
      own readings alone, `floor` being the least its bucket can hold, make that bucket full by now. All
      readings may be in any order, and the limits may change. */
  ghost predicate Covered(ops: seq<Op>, key: TokenId, own: Stamp, floor: int, latest: Instant, window: int)
    decreases |ops|
  {
    ops == [] ||
    match ops[0]
    case Allow(k, limit, now) =>
      if limit <= 0 then Covered(ops[1..], key, own, floor, latest, window)
      else if k != key then Covered(ops[1..], key, own, floor, Later(latest, now), window)
      else
        && (own.At? && latest - own.t > window * 2 ==> floor + (now - own.t) * limit >= limit * window)
        && Covered(ops[1..], key, At(now), FloorAfter(floor, own, limit, now), Later(latest, now), window)
    case Remove(k) =>
      if k == key then Covered(ops[1..], key, Never, 0, latest, window) else Covered(ops[1..], key, own, floor, latest, window)
    case Sweep(now) => Covered(ops[1..], key, own, floor, Later(latest, now), window)
  }

  /** The lone bucket holds at least `floor`, and if the table has lost it, some reading was more than two
      windows after its last use. */
  ghost predicate Tracked(m: Table, b: Bucket, key: TokenId, floor: int, latest: Instant, window: int) {
    && Mirrors(m, b, key)
    && floor <= 0 && floor <= b.tokens
    && (b.last.Never? ==> b == FRESH && floor == 0)
    && (b.last.At? ==> b.last.t <= latest)
    && (key !in m ==> b.last.Never? || latest - b.last.t > window * 2)
  }

  lemma ChargeKeepsFloor(b: Bucket, floor: int, limit: int, now: Instant, window: int)
    requires limit > 0 && ValidWindow(window) && floor <= b.tokens
    ensures FloorAfter(floor, b.last, limit, now) <= Charge(b, limit, now, window).0.tokens
  {
    TimesMonotone(1, limit, window);
  }

  lemma CoveredCallIsFull(m: Table, b: Bucket, key: TokenId, floor: int, limit: int, now: Instant, latest: Instant, window: int)
    requires limit > 0 && ValidWindow(window) && Tracked(m, b, key, floor, latest, window) && key !in m
    requires b.last.At? && latest - b.last.t > window * 2 ==> floor + (now - b.last.t) * limit >= limit * window
    ensures Refilled(b, limit, now, window) == limit * window
  {
    if b.last.Never? {
      FreshIsFull(limit, now, window);
    }
  }

  lemma OwnCallTracked(m: Table, b: Bucket, key: TokenId, floor: int, limit: int, now: Instant, latest: Instant, window: int)
    requires limit > 0 && ValidWindow(window) && Tracked(m, b, key, floor, latest, window)
    requires key !in m ==> Refilled(b, limit, now, window) == limit * window
    ensures Tracked(AllowStep(m, key, limit, now, window).0, Charge(b, limit, now, window).0, key,
                    FloorAfter(floor, b.last, limit, now), Later(latest, now), window)
  {
    CallAgreesExactly(m, b, key, limit, now, window);
    ChargeKeepsFloor(b, floor, limit, now, window);
  }

  function LatestAfter(op: Op, latest: Instant): Instant {
    match op
    case Allow(_, limit, now) => if limit <= 0 then latest else Later(latest, now)
    case Remove(_) => latest
    case Sweep(now) => Later(latest, now)
  }

  lemma OtherOpTracked(m: Table, b: Bucket, key: TokenId, op: Op, floor: int, latest: Instant, window: int)
    requires ValidWindow(window) && Tracked(m, b, key, floor, latest, window)
    requires !(op.Allow? && op.key == key && op.limit > 0)
    ensures Tracked(Step(m, op, window), LoneStep(b, op, key, window), key,
                    if op == Remove(key) then 0 else floor, LatestAfter(op, latest), window)
  {
  }

  /** Covered readings never find the key's bucket lost and not full. */
  lemma {:induction false} CoveredIsFullWhenMissing(m: Table, b: Bucket, ops: seq<Op>, key: TokenId, floor: int, latest: Instant,
                                                    window: int)
    requires ValidWindow(window) && Tracked(m, b, key, floor, latest, window)
    requires Covered(ops, key, b.last, floor, latest, window)
    ensures FullWhenMissing(m, b, ops, key, window)
    decreases |ops|
  {
    if ops != [] {
      var op := ops[0];
      var next, b', latest' := Step(m, op, window), LoneStep(b, op, key, window), LatestAfter(op, latest);
      if op.Allow? && op.key == key && op.limit > 0 {
        if key !in m {
          CoveredCallIsFull(m, b, key, floor, op.limit, op.now, latest, window);
        }
        OwnCallTracked(m, b, key, floor, op.limit, op.now, latest, window);
        CoveredIsFullWhenMissing(next, b', ops[1..], key, FloorAfter(floor, b.last, op.limit, op.now), latest', window);
      } else {
        OtherOpTracked(m, b, key, op, floor, latest, window);
        CoveredIsFullWhenMissing(next, b', ops[1..], key, if op == Remove(key) then 0 else floor, latest', window);
      }
    }
  }

  /** From an empty limiter, with any limits: a key whose readings are covered is answered as by a fresh bucket
      of its own, whatever the other keys do and whichever sweeps happen; removing a key resets that
      bucket and no other. */
  lemma LimiterRefinesBuckets(ops: seq<Op>, key: TokenId, latest: Instant, window: int)
    requires ValidWindow(window) && Covered(ops, key, Never, 0, latest, window)
    ensures Answers(map[], ops, key, window) == Alone(FRESH, ops, key, window)
  {
    CoveredIsFullWhenMissing(map[], FRESH, ops, key, 0, latest, window);
    KeysAreIndependent(map[], FRESH, ops, key, window);
  }

  // ----- Readings that are covered -----

  /** The key's own readings do not run backwards, `own` being the one before, and none of them is more than
      one window and one nanosecond behind the latest reading of any operation. The readings of other
      keys and of sweeps may be in any order. */
  ghost predicate Timely(ops: seq<Op>, key: TokenId, own: Stamp, latest: Instant, window: int)
    decreases |ops|
  {
    ops == [] ||
    match ops[0]
    case Allow(k, limit, now) =>
      if limit <= 0 then Timely(ops[1..], key, own, latest, window)
      else if k != key then Timely(ops[1..], key, own, Later(latest, now), window)
      else
        && (own.At? ==> own.t <= now)
        && latest - now <= window + 1
        && Timely(ops[1..], key, At(now), Later(latest, now), window)
    case Remove(k) => Timely(ops[1..], key, if k == key then Never else own, latest, window)
    case Sweep(now) => Timely(ops[1..], key, own, Later(latest, now), window)
  }

  /** With any limits, timely readings are covered: the bucket is never overdrawn. */
  lemma {:induction false} TimelyIsCovered(ops: seq<Op>, key: TokenId, own: Stamp, latest: Instant, window: int)
    requires window > 0 && Timely(ops, key, own, latest, window)
    ensures Covered(ops, key, own, 0, latest, window)
    decreases |ops|
  {
    if ops != [] {
      var op := ops[0];
      var own' := own;
      if op.Allow? && op.key == key && op.limit > 0 {
        TimesMonotone(0, Elapsed(op.now, own), op.limit);
        if own.At? && latest - own.t > window * 2 {
          TimesMonotone(window, op.now - own.t, op.limit);
        }
        own' := At(op.now);
      } else if op == Remove(key) {
        own' := Never;
      }
      TimelyIsCovered(ops[1..], key, own', LatestAfter(op, latest), window);
    }
  }

  /** Every call of `key` carries the same positive limit and the key is not removed. */
  ghost predicate Steady(ops: seq<Op>, key: TokenId, limit: int) {
    && limit > 0
    && forall op :: op in ops ==> (op.Allow? && op.key == key ==> op.limit == limit) && !(op.Remove? && op.key == key)
  }

  /** The key's own readings may run backwards: `last` being the one before and `top` the latest of them, a
      call is at most one window and one nanosecond late, what the key itself has gone back included. */
  ghost predicate Prompt(ops: seq<Op>, key: TokenId, last: Stamp, top: Instant, latest: Instant, window: int)
    decreases |ops|
  {
    ops == [] ||
    match ops[0]
    case Allow(k, limit, now) =>
      if limit <= 0 then Prompt(ops[1..], key, last, top, latest, window)
      else if k != key then Prompt(ops[1..], key, last, top, Later(latest, now), window)
      else
        && (last.At? ==> (top - last.t) + (latest - now) <= window + 1)
        && Prompt(ops[1..], key, At(now), if last.At? then Later(top, now) else now, Later(latest, now), window)
    case Remove(k) => Prompt(ops[1..], key, if k == key then Never else last, top, latest, window)
    case Sweep(now) => Prompt(ops[1..], key, last, top, Later(latest, now), window)
  }

  /** What has been taken back at most, with one limit, is the way from the latest own reading to the last. */
  ghost predicate FloorOk(floor: int, last: Stamp, top: Instant, limit: int) {
    floor <= 0 && match last case Never => floor == 0 case At(t) => t <= top && floor >= (t - top) * limit
  }

  lemma FloorGoesOn(floor: int, last: Stamp, top: Instant, limit: int, now: Instant)
    requires limit > 0 && FloorOk(floor, last, top, limit)
    ensures FloorOk(FloorAfter(floor, last, limit, now), At(now), if last.At? then Later(top, now) else now, limit)
  {
    match last
    case Never => TimesMonotone(0, MAX_DURATION, limit);
    case At(t) => assert (t - top) * limit + (now - t) * limit == (now - top) * limit;
  }

  lemma PromptCallCovered(floor: int, t: Instant, top: Instant, limit: int, now: Instant, latest: Instant, window: int)
    requires limit > 0 && FloorOk(floor, At(t), top, limit)
    requires (top - t) + (latest - now) <= window + 1 && latest - t > window * 2
    ensures floor + (now - t) * limit >= limit * window
  {
    assert (t - top) * limit + (now - t) * limit == (now - top) * limit;
    TimesMonotone(window, now - top, limit);
  }

  /** With a steady limit, prompt readings are covered. */
  lemma {:induction false} PromptIsCovered(ops: seq<Op>, key: TokenId, limit: int, last: Stamp, top: Instant, floor: int,
                                           latest: Instant, window: int)
    requires window > 0 && Steady(ops, key, limit) && FloorOk(floor, last, top, limit)
    requires Prompt(ops, key, last, top, latest, window)
    ensures Covered(ops, key, last, floor, latest, window)
    decreases |ops|
  {
    if ops != [] {
      var op := ops[0];
      assert op in ops;
      if op.Allow? && op.key == key {
        if last.At? && latest - last.t > window * 2 {
          PromptCallCovered(floor, last.t, top, limit, op.now, latest, window);
        }
        FloorGoesOn(floor, last, top, limit, op.now);
        PromptIsCovered(ops[1..], key, limit, At(op.now), if last.At? then Later(top, op.now) else op.now,
                        FloorAfter(floor, last, limit, op.now), LatestAfter(op, latest), window);
      } else {
        PromptIsCovered(ops[1..], key, limit, last, top, floor, LatestAfter(op, latest), window);
      }
    }
  }

  /** Timely readings are prompt. */
  lemma {:induction false} TimelyIsPrompt(ops: seq<Op>, key: TokenId, own: Stamp, top: Instant, latest: Instant, window: int)
    requires Timely(ops, key, own, latest, window) && (own.At? ==> own.t == top)
    ensures Prompt(ops, key, own, top, latest, window)
    decreases |ops|
  {
    if ops != [] {
      var op := ops[0];
      if op.Allow? && op.key == key && op.limit > 0 {
        TimelyIsPrompt(ops[1..], key, At(op.now), op.now, LatestAfter(op, latest), window);
      } else {
        TimelyIsPrompt(ops[1..], key, if op == Remove(key) then Never else own, top, LatestAfter(op, latest), window);
      }
    }
  }

  /** A clock that does not run backwards at all is timely for every key. */
  ghost predicate NonDecreasing(ops: seq<Op>, clock: Instant) {
    ops == [] ||
    (if ops[0].Remove? || (ops[0].Allow? && ops[0].limit <= 0) then NonDecreasing(ops[1..], clock)
     else clock <= ops[0].now && NonDecreasing(ops[1..], ops[0].now))
  }

  lemma {:induction false} NonDecreasingIsTimely(ops: seq<Op>, key: TokenId, own: Stamp, clock: Instant, window: int)
    requires window > 0 && NonDecreasing(ops, clock) && (own.At? ==> own.t <= clock)
    ensures Timely(ops, key, own, clock, window)
    decreases |ops|
  {
    if ops != [] {
      var op := ops[0];
      if op.Remove? {
        NonDecreasingIsTimely(ops[1..], key, if op.key == key then Never else own, clock, window);
      } else if op.Allow? && op.limit <= 0 {
        NonDecreasingIsTimely(ops[1..], key, own, clock, window);
      } else {
        NonDecreasingIsTimely(ops[1..], key, if op.Allow? && op.key == key then At(op.now) else own, op.now, window);
      }
    }
  }

  /** The readings at which `key` called. */
  function CallTimes(ops: seq<Op>, key: TokenId): seq<Instant> {
    if ops == [] then []
    else if ops[0].Allow? && ops[0].key == key then [ops[0].now] + CallTimes(ops[1..], key)
    else CallTimes(ops[1..], key)
  }

  lemma {:induction false} AfterFirst(b: Bucket, limit: int, times: seq<Instant>, window: int, i: nat)
    requires limit > 0 && i < |times|
    ensures After(b, limit, times, window, i + 1)
         == After(Charge(b, limit, times[0], window).0, limit, times[1..], window, i)
    decreases i
  {
    var b1 := Charge(b, limit, times[0], window).0;
    if i == 0 {
      assert After(b, limit, times, window, 0) == b;
    } else {
      AfterFirst(b, limit, times, window, i - 1);
      assert times[1..][i - 1] == times[i];
      assert After(b1, limit, times[1..], window, i)
          == Charge(After(b1, limit, times[1..], window, i - 1), limit, times[1..][i - 1], window).0;
    }
  }

  lemma {:induction false} AloneIsBucketRun(b: Bucket, ops: seq<Op>, key: TokenId, limit: int, window: int)
    requires Steady(ops, key, limit)
    ensures var times := CallTimes(ops, key);
            && |Alone(b, ops, key, window)| == |times|
            && forall i: nat | i < |times| :: Alone(b, ops, key, window)[i] == AnswerAt(b, limit, times, window, i)
    decreases |ops|
  {
    if ops != [] {
      var op := ops[0];
      assert op in ops;
      var times := CallTimes(ops, key);
      if op.Allow? && op.key == key {
        var (charged, answer) := Charge(b, limit, op.now, window);
        AloneIsBucketRun(charged, ops[1..], key, limit, window);
        assert times[1..] == CallTimes(ops[1..], key);
        forall i: nat | i < |times|
          ensures Alone(b, ops, key, window)[i] == AnswerAt(b, limit, times, window, i)
        {
          if i > 0 {
            AfterFirst(b, limit, times, window, i - 1);
            assert times[1..][i - 1] == times[i];
            assert AnswerAt(charged, limit, times[1..], window, i - 1) == AnswerAt(b, limit, times, window, i);
          }
        }
      } else {
        AloneIsBucketRun(b, ops[1..], key, limit, window);
      }
    }
  }

  /** The answers of a steady key with covered readings are those of its bucket run. */
  lemma AnswersAreBucketRun(ops: seq<Op>, key: TokenId, limit: int, latest: Instant, window: int)
    requires ValidWindow(window) && Covered(ops, key, Never, 0, latest, window) && Steady(ops, key, limit)
    ensures |Answers(map[], ops, key, window)| == |CallTimes(ops, key)|
    ensures forall i: nat | i < |CallTimes(ops, key)| ::
              Answers(map[], ops, key, window)[i] == AnswerAt(FRESH, limit, CallTimes(ops, key), window, i)
  {
    LimiterRefinesBuckets(ops, key, latest, window);
    AloneIsBucketRun(FRESH, ops, key, limit, window);
  }

  /** What the limiter as a whole enforces: whatever other keys and sweeps do, call `i` of a key with
      a steady limit is admitted if and only if, seen from each of its earlier calls, the admissions
      fit a burst of `limit` plus a flow of `limit` per window. */
  lemma LimiterIsSlidingWindow(ops: seq<Op>, key: TokenId, limit: int, latest: Instant, window: int, i: nat)
    requires ValidWindow(window) && Covered(ops, key, Never, 0, latest, window) && Steady(ops, key, limit)
    requires i < |CallTimes(ops, key)|
    ensures |Answers(map[], ops, key, window)| == |CallTimes(ops, key)|
    ensures Answers(map[], ops, key, window)[i].ok
       <==> forall j: nat | j <= i :: Fits(FRESH, limit, CallTimes(ops, key), window, j, i)
  {
    AnswersAreBucketRun(ops, key, limit, latest, window);
    AdmitsExactly(limit, CallTimes(ops, key), window, i);
  }

  // ----- Retry-After over whole runs -----

  /** The limits with which `key` called. */
  function CallLimits(ops: seq<Op>, key: TokenId): seq<int> {
    if ops == [] then []
    else if ops[0].Allow? && ops[0].key == key then [ops[0].limit] + CallLimits(ops[1..], key)
    else CallLimits(ops[1..], key)
  }

  /** A refusal with this limit announces no more than one refill interval, rounded up. */
  predicate WaitBounded(answer: Answer, limit: int) {
    !answer.ok ==> limit > 0 && 1 <= RetryAfter(answer.retry) <= 60 / limit + 1
  }

  lemma {:induction false} LoneWaitsBounded(b: Bucket, ops: seq<Op>, key: TokenId, latest: Instant)
    requires 0 <= b.tokens && (b.last.Never? ==> b == FRESH) && Timely(ops, key, b.last, latest, 60 * SECOND)
    ensures |Alone(b, ops, key, 60 * SECOND)| == |CallLimits(ops, key)|
    ensures forall i: nat | i < |CallLimits(ops, key)| :: WaitBounded(Alone(b, ops, key, 60 * SECOND)[i], CallLimits(ops, key)[i])
    decreases |ops|
  {
    if ops != [] {
      var op := ops[0];
      if op.Allow? && op.key == key && op.limit > 0 {
        var (charged, answer) := Charge(b, op.limit, op.now, 60 * SECOND);
        TimesMonotone(0, Elapsed(op.now, b.last), op.limit);
        ChargeKeepsFloor(b, 0, op.limit, op.now, 60 * SECOND);
        if !answer.ok {
          RetryAfterBounded(b, op.limit, op.now);
        }
      }
      LoneWaitsBounded(LoneStep(b, op, key, 60 * SECOND), ops[1..], key, LatestAfter(op, latest));
    }
  }

  /** Over any run with any limits, a key whose readings are timely is never told to wait longer than one
      refill interval of the limit it called with, rounded up, plus one second. */
  lemma WaitsBounded(ops: seq<Op>, key: TokenId, latest: Instant)
    requires Timely(ops, key, Never, latest, 60 * SECOND)
    ensures |Answers(map[], ops, key, 60 * SECOND)| == |CallLimits(ops, key)|
    ensures forall i: nat | i < |CallLimits(ops, key)| ::
              WaitBounded(Answers(map[], ops, key, 60 * SECOND)[i], CallLimits(ops, key)[i])
  {
    TimelyIsCovered(ops, key, Never, latest, 60 * SECOND);
    LimiterRefinesBuckets(ops, key, latest, 60 * SECOND);
    LoneWaitsBounded(FRESH, ops, key, latest);
  }

  lemma {:induction false} AfterSlice(b: Bucket, limit: int, times: seq<Instant>, window: int, i: nat, j: nat)
    requires limit > 0 && i <= j <= |times|
    ensures After(b, limit, times, window, j) == After(After(b, limit, times, window, i), limit, times[i..j], window, j - i)
    decreases j
  {
    if i < j {
      AfterSlice(b, limit, times, window, i, j - 1);
      AfterPrefix(After(b, limit, times, window, i), limit, times[i..j - 1], times[i..j], window, j - 1 - i);
      assert times[i..j][j - 1 - i] == times[j - 1];
    }
  }

  lemma {:induction false} AfterPrefix(b: Bucket, limit: int, some: seq<Instant>, all: seq<Instant>, window: int, k: nat)
    requires limit > 0 && k <= |some| && some <= all
    ensures After(b, limit, some, window, k) == After(b, limit, all, window, k)
    decreases k
  {
    if k > 0 {
      AfterPrefix(b, limit, some, all, window, k - 1);
    }
  }

  /** A refused call `i` of a bucket run, then only refused calls up to call `j`. */
  lemma RetryInRun(limit: int, times: seq<Instant>, window: int, i: nat, j: nat)
    requires limit > 0 && window > 0 && i < j < |times|
    requires forall k: nat | i <= k < j :: !AnswerAt(FRESH, limit, times, window, k).ok
    ensures var retry := AnswerAt(FRESH, limit, times, window, i).retry;
            && (times[i] + RetryAfter(retry) * SECOND <= times[j] ==> AnswerAt(FRESH, limit, times, window, j).ok)
            && (times[j] < times[i] + retry ==> !AnswerAt(FRESH, limit, times, window, j).ok)
  {
    var b := After(FRESH, limit, times, window, i);
    var rejected := Charge(b, limit, times[i], window).0;
    assert rejected == After(FRESH, limit, times, window, i + 1);
    var between := times[i + 1..j];
    forall k: nat | k < |between|
      ensures !Admits(rejected, limit, between, window, k)
    {
      RunFrom(limit, times, window, i + 1, j, k);
      assert !AnswerAt(FRESH, limit, times, window, i + 1 + k).ok;
    }
    assert !AnswerAt(FRESH, limit, times, window, i).ok;
    RetryAfterSound(b, limit, times[i], between, window, times[j]);
    AfterSlice(FRESH, limit, times, window, i + 1, j);
  }

  /** The header over whole runs: after a refused call `i` and only refused calls of the key since, its call
      `j` is admitted if it comes the announced seconds later, and refused if it comes before the computed
      wait is over, whatever other keys and sweeps do meanwhile. */
  lemma RetryAfterOverRuns(ops: seq<Op>, key: TokenId, limit: int, latest: Instant, window: int, i: nat, j: nat)
    requires ValidWindow(window) && Covered(ops, key, Never, 0, latest, window) && Steady(ops, key, limit)
    requires i < j < |CallTimes(ops, key)|
    requires |Answers(map[], ops, key, window)| == |CallTimes(ops, key)|
    requires forall k :: i <= k < j ==> !Answers(map[], ops, key, window)[k].ok
    ensures var answers, times := Answers(map[], ops, key, window), CallTimes(ops, key);
            && (times[i] + RetryAfter(answers[i].retry) * SECOND <= times[j] ==> answers[j].ok)
            && (times[j] < times[i] + answers[i].retry ==> !answers[j].ok)
  {
    AnswersAreBucketRun(ops, key, limit, latest, window);
    forall k: nat | i <= k < j
      ensures !AnswerAt(FRESH, limit, CallTimes(ops, key), window, k).ok
    {
      assert !Answers(map[], ops, key, window)[k].ok;
    }
    RetryInRun(limit, CallTimes(ops, key), window, i, j);
  }

  lemma BucketFrom(limit: int, times: seq<Instant>, window: int, i: nat, j: nat, k: nat)
    requires limit > 0 && i <= j <= |times| && k < j - i
    ensures After(After(FRESH, limit, times, window, i), limit, times[i..j], window, k) == After(FRESH, limit, times, window, i + k)
  {
    AfterSlice(FRESH, limit, times, window, i, i + k);
    AfterPrefix(After(FRESH, limit, times, window, i), limit, times[i..i + k], times[i..j], window, k);
  }

  /** Call `i + k` of a run is call `k` of the run that starts at call `i`. */
  lemma RunFrom(limit: int, times: seq<Instant>, window: int, i: nat, j: nat, k: nat)
    requires limit > 0 && i <= j <= |times| && k < j - i
    ensures Admits(After(FRESH, limit, times, window, i), limit, times[i..j], window, k)
         == AnswerAt(FRESH, limit, times, window, i + k).ok
  {
    BucketFrom(limit, times, window, i, j, k);
    assert times[i..j][k] == times[i + k];
  }

  /** The bound on lateness is exact: a call that is one nanosecond later than a window and a nanosecond can
      find its bucket swept away and full although it would refuse, because a call reads the clock before
      it takes the lock. */
  lemma StaleReadingSeesSweep(window: int)
    requires ValidWindow(window)
    ensures var ops := [Allow(TokenId(1), 1, 0), Sweep(2 * window + 1), Allow(TokenId(1), 1, window - 1)];
            && Answers(map[], ops, TokenId(1), window) == [Answer(true, 0), Answer(true, 0)]
            && Alone(FRESH, ops, TokenId(1), window) == [Answer(true, 0), Answer(false, 1)]
  {
    var key := TokenId(1);
    var sweep, again := Sweep(2 * window + 1), Allow(key, 1, window - 1);
    var ops := [Allow(key, 1, 0), sweep, again];
    FreshIsFull(1, 0, window);
    FreshIsFull(1, window - 1, window);
    var m1 := Step(map[], ops[0], window);
    assert m1 == map[key := Bucket(0, At(0))];
    assert Step(m1, sweep, window) == map[];
    assert ops[1..] == [sweep, again] && [sweep, again][1..] == [again] && [again][1..] == [];
    assert Answers(map[], [again], key, window) == [Answer(true, 0)];
    assert Answers(m1, [sweep, again], key, window) == [Answer(true, 0)];
    assert Alone(Bucket(0, At(0)), [again], key, window) == [Answer(false, 1)];
    assert Alone(Bucket(0, At(0)), [sweep, again], key, window) == [Answer(false, 1)];
  }

  // ----- The limiter object -----

  /** A bucket as the table stores it: updated in place by every call. */
  class Cell {
    var tokens: int
    var last: Stamp

    constructor ()
      ensures tokens == 0 && last == Never
    {
      tokens, last := 0, Never;
    }
  }

  class Limiter {
    const window: int
    var buckets: map<TokenId, Cell>

    ghost predicate Valid()
      reads this
    {
      && ValidWindow(window)
      && forall k, k' :: k in buckets && k' in buckets && k != k' ==> buckets[k] != buckets[k']
    }

    ghost function Contents(): Table
      reads this, buckets.Values
    {
      map k | k in buckets :: Bucket(buckets[k].tokens, buckets[k].last)
    }

    constructor (window: int)
      requires ValidWindow(window)
      ensures Valid() && this.window == window && Contents() == map[]
    {
      this.window := window;
      buckets := map[];
    }

    method Allow(key: TokenId, limit: int, now: Instant) returns (ok: bool, retry: int)
      requires Valid()
      modifies this`buckets, buckets.Values
      ensures Valid() && fresh(buckets.Values - old(buckets.Values))
      ensures (Contents(), Answer(ok, retry)) == AllowStep(old(Contents()), key, limit, now, window)
    {
      if limit <= 0 {
        return true, 0;
      }
      ghost var room := RoomFor(Contents(), key, now, window);
      EnsureCell(key, now);
      ghost var placed := Contents();
      ok, retry := ChargeCell(key, limit, now);
      ghost var charged := Charge(placed[key], limit, now, window).0;
      assert placed[key := charged] == room[key := charged];
    }

    /** Finds or creates the bucket of `key`, sweeping a full table first. */
    method EnsureCell(key: TokenId, now: Instant)
      requires Valid()
      modifies this`buckets
      ensures Valid() && fresh(buckets.Values - old(buckets.Values))
      ensures var room := RoomFor(old(Contents()), key, now, window);
              key in buckets && Contents() == if key in room then room else room[key := FRESH]
    {
      if key !in buckets {
        SizeAgrees();
        if |buckets| >= MAX_KEYS {
          SweepLocked(now);
        }
        assert key !in Contents();
        PlaceCell(key);
      }
    }

    lemma SizeAgrees()
      ensures |Contents()| == |buckets|
    {
      assert Contents().Keys == buckets.Keys;
    }

    method PlaceCell(key: TokenId)
      requires Valid() && key !in buckets
      modifies this`buckets
      ensures Valid() && fresh(buckets.Values - old(buckets.Values))
      ensures key in buckets && Contents() == old(Contents())[key := FRESH]
    {
      var created := new Cell();
      buckets := buckets[key := created];
    }

    /** Refills the bucket of `key` and takes a token from it. */
    method ChargeCell(key: TokenId, limit: int, now: Instant) returns (ok: bool, retry: int)
      requires Valid() && key in buckets && limit > 0
      modifies buckets[key]
      ensures var (charged, answer) := Charge(old(Contents()[key]), limit, now, window);
              Contents() == old(Contents())[key := charged] && Answer(ok, retry) == answer
    {
      var b := buckets[key];
      var grown := b.tokens + Elapsed(now, b.last) * limit;
      b.tokens := if grown < limit * window then grown else limit * window;
      b.last := At(now);
      if b.tokens >= window {
        b.tokens := b.tokens - window;
        return true, 0;
      }
      retry := (window - b.tokens) / limit;
      QuotientNonNegative(window - b.tokens, limit);
      if retry < 0 {
        retry := 0;
      }
      ok := false;
    }

    method RemoveKey(key: TokenId)
      requires Valid()
      modifies this`buckets
      ensures Valid() && buckets.Values <= old(buckets.Values)
      ensures Contents() == old(Contents()) - {key}
    {
      buckets := buckets - {key};
    }

    method SweepAll(now: Instant)
      requires Valid()
      modifies this`buckets
      ensures Valid() && buckets.Values <= old(buckets.Values)
      ensures Contents() == map k | k in old(Contents()) && Elapsed(now, old(Contents())[k].last) <= 2 * window :: old(Contents())[k]
    {
      SweepLocked(now);
    }

    method SweepLocked(now: Instant)
      requires Valid()
      modifies this`buckets
      ensures Valid() && buckets.Values <= old(buckets.Values)
      ensures Contents() == Swept(old(Contents()), now, window)
    {
      var idle := window * 2;
      var keys := buckets.Keys;
      while keys != {}
        invariant buckets.Keys <= old(buckets.Keys) && keys <= buckets.Keys
        invariant forall k :: k in buckets ==> buckets[k] == old(buckets)[k]
        invariant forall k :: k in old(buckets) && k !in keys
                   ==> (k in buckets <==> Elapsed(now, old(buckets)[k].last) <= idle)
        decreases keys
      {
        var k := Pick(keys);
        if Elapsed(now, buckets[k].last) > idle {
          buckets := buckets - {k};
        }
        keys := keys - {k};
      }
      FewerValues(old(buckets), buckets);
      assert Contents() == Swept(old(Contents()), now, window);
    }
  }

  // ----- The proxy middleware in front of the limiter -----

  datatype Verdict = Forwarded | TooManyRequests(retryAfter: int, limit: int)

  /** A token's own limit wins over the default; non-positive means unset. */
  method RateLimit(limiter: Limiter, tokenId: TokenId, tokenRpm: int, defaultRpm: int, now: Instant) returns (v: Verdict)
    requires limiter.Valid()
    modifies limiter`buckets, limiter.buckets.Values
    ensures limiter.Valid()
    ensures var limit := if tokenRpm > 0 then tokenRpm else defaultRpm;
            var (table, answer) := AllowStep(old(limiter.Contents()), tokenId, limit, now, limiter.window);
            && limiter.Contents() == table
            && v == if answer.ok then Forwarded else TooManyRequests(answer.retry / 1_000_000_000 + 1, limit)
    ensures tokenRpm <= 0 && defaultRpm <= 0 ==> v == Forwarded && limiter.Contents() == old(limiter.Contents())
  {
    var limit := tokenRpm;
    if limit <= 0 {
      limit := defaultRpm;
    }
    if limit <= 0 {
      return Forwarded;
    }
    var ok, retry := limiter.Allow(tokenId, limit, now);
    if !ok {
      var secs := retry / SECOND + 1;
      return TooManyRequests(secs, limit);
    }
    v := Forwarded;
  }
}
