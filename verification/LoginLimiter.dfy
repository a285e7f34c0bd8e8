/** Brute-force protection of the login endpoint: failures are counted per client address, an
    address is locked when the count reaches a threshold, and a background task evicts idle
    entries. Checking and recording are separate critical sections, so several attempts of one
    address may be in flight between them. */
module LoginLimiting {
  import opened Collections

  type Instant = int

  datatype Lock = Unlocked | Until(t: Instant)

  datatype Entry = Entry(failures: int, lastFail: Instant, lock: Lock)

  type Table = map<string, Entry>

  datatype Policy = Policy(maxFail: int, lockDur: int, idleTTL: int)

  /** `now.Before(lockedUntil)`; the zero time is before every reading. */
  predicate Locked(e: Entry, now: Instant) {
    e.lock.Until? && now < e.lock.t
  }

  function AllowedStep(m: Table, ip: string, now: Instant): (Table, bool) {
    if ip !in m then (m, true)
    else if Locked(m[ip], now) then (m, false)
    else if m[ip].lock.Until? then (m - {ip}, true)
    else (m, true)
  }

  function Failed(m: Table, ip: string, now: Instant, p: Policy): Entry {
    var failures := (if ip in m then m[ip].failures else 0) + 1;
    var lock := if ip in m then m[ip].lock else Unlocked;
    Entry(failures, now, if failures >= p.maxFail then Until(now + p.lockDur) else lock)
  }

  /** Lock expired (strictly) and no failure for longer than the idle time. */
  predicate Evictable(e: Entry, now: Instant, p: Policy) {
    && (e.lock.Until? ==> now > e.lock.t)
    && now - e.lastFail > p.idleTTL
  }

  function Cleaned(m: Table, now: Instant, p: Policy): Table {
    map ip | ip in m && !Evictable(m[ip], now, p) :: m[ip]
  }

  // ----- Interleaved attempts -----

  /** One critical section. `Check` is the lock test that opens an attempt; an attempt that passed
      it ends with a recorded failure, a success, or without touching the limiter (malformed request
      or database error). */
  datatype Event =
    | Check(ip: string, now: Instant)
    | Fail(ip: string, now: Instant)
    | Success(ip: string)
    | Abandon(ip: string)
    | Cleanup(now: Instant)

  datatype State = State(table: Table, clock: Instant, inFlight: map<string, nat>)

  function InFlight(s: State, ip: string): nat {
    if ip in s.inFlight then s.inFlight[ip] else 0
  }

  function Reading(e: Event, clock: Instant): Instant {
    if e.Success? || e.Abandon? then clock else e.now
  }

  /** The clock is read inside the critical section, so readings follow the lock order; an attempt
      ends only if it is in flight. */
  predicate Enabled(s: State, e: Event) {
    && s.clock <= Reading(e, s.clock)
    && (e.Fail? || e.Success? || e.Abandon? ==> InFlight(s, e.ip) > 0)
  }

  function Step(s: State, e: Event, p: Policy): State
    requires Enabled(s, e)
  {
    var clock := Reading(e, s.clock);
    match e
    case Check(ip, now) =>
      var (table, ok) := AllowedStep(s.table, ip, now);
      State(table, clock, if ok then s.inFlight[ip := InFlight(s, ip) + 1] else s.inFlight)
    case Fail(ip, now) =>
      State(s.table[ip := Failed(s.table, ip, now, p)], clock, s.inFlight[ip := InFlight(s, ip) - 1])
    case Success(ip) =>
      State(s.table - {ip}, clock, s.inFlight[ip := InFlight(s, ip) - 1])
    case Abandon(ip) =>
      State(s.table, clock, s.inFlight[ip := InFlight(s, ip) - 1])
    case Cleanup(now) =>
      State(Cleaned(s.table, now, p), clock, s.inFlight)
  }

  function Initial(clock: Instant): State {
    State(map[], clock, map[])
  }

  /** A run is a list of events, each enabled where it happens. */
  predicate Run(es: seq<Event>, start: Instant, p: Policy)
    decreases |es|, 0
  {
    es == [] ||
    (var prefix := es[..|es| - 1];
     Run(prefix, start, p) && Enabled(After(prefix, start, p), es[|es| - 1]))
  }

  function After(es: seq<Event>, start: Instant, p: Policy): State
    requires Run(es, start, p)
    decreases |es|, 1
  {
    if es == [] then Initial(start)
    else Step(After(es[..|es| - 1], start, p), es[|es| - 1], p)
  }

  /** Never more than `c` attempts of `ip` in flight. */
  ghost predicate AtMostInFlight(es: seq<Event>, start: Instant, p: Policy, ip: string, c: nat)
    requires Run(es, start, p)
    decreases |es|
  {
    InFlight(After(es, start, p), ip) <= c
    && (es != [] ==> AtMostInFlight(es[..|es| - 1], start, p, ip, c))
  }

  /** Failures of `ip` recorded at or after `from`, counted from its last success on. */
  function FailuresSince(es: seq<Event>, ip: string, from: Instant): nat {
    if es == [] then 0
    else
      var n := FailuresSince(es[..|es| - 1], ip, from);
      var e := es[|es| - 1];
      if e.Fail? && e.ip == ip && from <= e.now then n + 1
      else if e.Success? && e.ip == ip then 0
      else n
  }

  /** Failures of `ip` recorded within the closed window. */
  function FailuresWithin(es: seq<Event>, ip: string, from: Instant, to: Instant): nat {
    if es == [] then 0
    else
      var e := es[|es| - 1];
      FailuresWithin(es[..|es| - 1], ip, from, to)
      + (if e.Fail? && e.ip == ip && from <= e.now <= to then 1 else 0)
  }

  function Threshold(p: Policy): int {
    if p.maxFail < 1 then 1 else p.maxFail
  }

  /** What every reachable entry satisfies: it is locked exactly when its count has reached the
      threshold, and then until one lock duration after its last failure. */
  ghost predicate WellLocked(e: Entry, clock: Instant, p: Policy) {
    && e.failures >= 1
    && e.lastFail <= clock
    && e.lock == if e.failures >= p.maxFail then Until(e.lastFail + p.lockDur) else Unlocked
  }

  ghost predicate Inv(s: State, p: Policy) {
    forall ip :: ip in s.table ==> WellLocked(s.table[ip], s.clock, p)
  }

  lemma {:induction false} ReachableInv(es: seq<Event>, start: Instant, p: Policy)
    requires Run(es, start, p)
    ensures Inv(After(es, start, p), p)
    decreases |es|
  {
    if es != [] {
      ReachableInv(es[..|es| - 1], start, p);
    }
  }

  /** Within a window starting at `from`, the table still knows every failure of the window, and what
      has failed plus what may still fail stays below the bound. */
  ghost predicate Window(s: State, p: Policy, ip: string, from: Instant, c: nat, n: nat) {
    && n + InFlight(s, ip) <= Threshold(p) + c - 1
    && (n > 0 ==> ip in s.table && s.table[ip].lastFail >= from && s.table[ip].failures >= n)
  }

  lemma WindowStep(s: State, e: Event, p: Policy, ip: string, from: Instant, c: nat, n: nat)
    requires Enabled(s, e) && Inv(s, p) && Window(s, p, ip, from, c, n)
    requires InFlight(Step(s, e, p), ip) <= c
    requires Reading(e, s.clock) - from < p.lockDur && Reading(e, s.clock) - from < p.idleTTL
    ensures var n' := if e.Fail? && e.ip == ip && from <= e.now then n + 1
                      else if e.Success? && e.ip == ip then 0 else n;
            Window(Step(s, e, p), p, ip, from, c, n')
  {
  }

  lemma {:induction false} WindowHolds(es: seq<Event>, start: Instant, p: Policy, ip: string, from: Instant, c: nat)
    requires Run(es, start, p) && AtMostInFlight(es, start, p, ip, c)
    requires After(es, start, p).clock - from < p.lockDur && After(es, start, p).clock - from < p.idleTTL
    ensures Window(After(es, start, p), p, ip, from, c, FailuresSince(es, ip, from))
    decreases |es|
  {
    if es != [] {
      var prefix := es[..|es| - 1];
      WindowHolds(prefix, start, p, ip, from, c);
      ReachableInv(prefix, start, p);
      WindowStep(After(prefix, start, p), es[|es| - 1], p, ip, from, c, FailuresSince(prefix, ip, from));
    }
  }

  /** Window bound: with at most `c` attempts of an address in flight, every window shorter than the
      lock and the idle time holds at most `threshold + c - 1` recorded failures of that address
      (counted from its last success on), whatever the eviction does. */
  lemma WindowBound(es: seq<Event>, start: Instant, p: Policy, ip: string, from: Instant, c: nat)
    requires Run(es, start, p) && AtMostInFlight(es, start, p, ip, c)
    requires After(es, start, p).clock - from < p.lockDur && After(es, start, p).clock - from < p.idleTTL
    ensures FailuresSince(es, ip, from) <= Threshold(p) + c - 1
  {
    WindowHolds(es, start, p, ip, from, c);
  }

  lemma {:induction false} ClockAfterLast(es: seq<Event>, start: Instant, p: Policy, ip: string, from: Instant, to: Instant)
    requires Run(es, start, p) && After(es, start, p).clock <= to
    requires forall e :: e in es ==> !(e.Success? && e.ip == ip)
    ensures FailuresWithin(es, ip, from, to) == FailuresSince(es, ip, from)
    decreases |es|
  {
    if es != [] {
      ClockAfterLast(es[..|es| - 1], start, p, ip, from, to);
      assert es[|es| - 1] in es;
    }
  }

  /** The same for every closed window of a whole run without successes of that address. */
  lemma {:induction false} EveryWindowBounded(es: seq<Event>, start: Instant, p: Policy, ip: string,
                                              from: Instant, to: Instant, c: nat)
    requires Run(es, start, p) && AtMostInFlight(es, start, p, ip, c)
    requires forall e :: e in es ==> !(e.Success? && e.ip == ip)
    requires to - from < p.lockDur && to - from < p.idleTTL
    ensures FailuresWithin(es, ip, from, to) <= Threshold(p) + c - 1
    decreases |es|
  {
    if es != [] {
      if After(es, start, p).clock <= to {
        ClockAfterLast(es, start, p, ip, from, to);
        WindowBound(es, start, p, ip, from, c);
      } else {
        EveryWindowBounded(es[..|es| - 1], start, p, ip, from, to, c);
        LateEventsDoNotCount(es, start, p, ip, from, to);
      }
    }
  }

  lemma LateEventsDoNotCount(es: seq<Event>, start: Instant, p: Policy, ip: string, from: Instant, to: Instant)
    requires es != [] && Run(es, start, p) && After(es, start, p).clock > to
    ensures FailuresWithin(es, ip, from, to) == FailuresWithin(es[..|es| - 1], ip, from, to)
  {
    var e := es[|es| - 1];
    assert After(es, start, p).clock == Reading(e, After(es[..|es| - 1], start, p).clock);
  }

  /** Once a window holds the threshold number of failures, every further check in it is refused. */
  lemma ThresholdRefuses(es: seq<Event>, start: Instant, p: Policy, ip: string, from: Instant, c: nat, now: Instant)
    requires Run(es, start, p) && AtMostInFlight(es, start, p, ip, c)
    requires After(es, start, p).clock <= now && now - from < p.lockDur && now - from < p.idleTTL
    requires FailuresSince(es, ip, from) >= Threshold(p)
    ensures !AllowedStep(After(es, start, p).table, ip, now).1
  {
    WindowHolds(es, start, p, ip, from, c);
    ReachableInv(es, start, p);
    assert WellLocked(After(es, start, p).table[ip], After(es, start, p).clock, p);
  }

  lemma {:induction false} StartBefore(es: seq<Event>, start: Instant, p: Policy)
    requires Run(es, start, p)
    ensures start <= After(es, start, p).clock
    decreases |es|
  {
    if es != [] {
      StartBefore(es[..|es| - 1], start, p);
    }
  }

  /** The count of an entry stays within the failures recorded since the last success. */
  lemma {:induction false} CountIsEarned(es: seq<Event>, start: Instant, p: Policy, ip: string)
    requires Run(es, start, p)
    ensures ip in After(es, start, p).table ==> After(es, start, p).table[ip].failures <= FailuresSince(es, ip, start)
    decreases |es|
  {
    if es != [] {
      CountIsEarned(es[..|es| - 1], start, p, ip);
      StartBefore(es[..|es| - 1], start, p);
    }
  }

  /** A refusal is earned: a check is refused only if the address has failed at least threshold times since
      its last success. */
  lemma RefusalEarned(es: seq<Event>, start: Instant, p: Policy, ip: string, now: Instant)
    requires Run(es, start, p) && !AllowedStep(After(es, start, p).table, ip, now).1
    ensures FailuresSince(es, ip, start) >= Threshold(p)
  {
    CountIsEarned(es, start, p, ip);
    ReachableInv(es, start, p);
    assert WellLocked(After(es, start, p).table[ip], After(es, start, p).clock, p);
  }

  // ----- Every lock ends -----

  /** Some failure of the address happened at `at`. */
  ghost predicate FailedAt(es: seq<Event>, ip: string, at: Instant) {
    exists i :: 0 <= i < |es| && es[i] == Fail(ip, at)
  }

  lemma FailedBefore(es: seq<Event>, ip: string, at: Instant)
    requires es != [] && FailedAt(es[..|es| - 1], ip, at)
    ensures FailedAt(es, ip, at)
  {
    var prefix := es[..|es| - 1];
    var i :| 0 <= i < |prefix| && prefix[i] == Fail(ip, at);
    assert es[i] == Fail(ip, at);
  }

  /** The last failure that an entry records did happen. */
  lemma {:induction false} LastFailHappened(es: seq<Event>, start: Instant, p: Policy, ip: string)
    requires Run(es, start, p) && ip in After(es, start, p).table
    ensures FailedAt(es, ip, After(es, start, p).table[ip].lastFail)
    decreases |es|
  {
    if es != [] {
      var prefix, e := es[..|es| - 1], es[|es| - 1];
      if e.Fail? && e.ip == ip {
        assert es[|es| - 1] == Fail(ip, After(es, start, p).table[ip].lastFail);
      } else {
        LastFailHappened(prefix, start, p, ip);
        FailedBefore(es, ip, After(es, start, p).table[ip].lastFail);
      }
    }
  }

  /** A refusal is recent: a check is refused only if the address has failed within the last lock duration. */
  lemma RefusalRecent(es: seq<Event>, start: Instant, p: Policy, ip: string, now: Instant)
    requires Run(es, start, p) && !AllowedStep(After(es, start, p).table, ip, now).1
    ensures exists i :: 0 <= i < |es| && es[i].Fail? && es[i].ip == ip && now < es[i].now + p.lockDur
  {
    ReachableInv(es, start, p);
    var s := After(es, start, p);
    assert WellLocked(s.table[ip], s.clock, p);
    LastFailHappened(es, start, p, ip);
    var i :| 0 <= i < |es| && es[i] == Fail(ip, s.table[ip].lastFail);
    assert es[i].Fail? && es[i].ip == ip && now < es[i].now + p.lockDur;
  }

  /** The first check at or after the end of a lock lets the address in and forgets its count, so its next
      failure is the first one again; a check before the end changes nothing and lets nobody in. */
  lemma CheckAtEndOfLock(s: State, p: Policy, ip: string, until: Instant, now: Instant, later: Instant)
    requires s.clock <= now <= later && ip in s.table && s.table[ip].lock == Until(until)
    ensures Enabled(s, Check(ip, now))
    ensures var s1 := Step(s, Check(ip, now), p);
            if now < until then s1.table == s.table && InFlight(s1, ip) == InFlight(s, ip)
            else
              && s1.table == s.table - {ip} && InFlight(s1, ip) == InFlight(s, ip) + 1
              && Enabled(s1, Fail(ip, later))
              && ip in Step(s1, Fail(ip, later), p).table && Step(s1, Fail(ip, later), p).table[ip].failures == 1
  {
  }

  /** An unlocked address is let in, and keeps its count. */
  lemma CheckUnlocked(s: State, p: Policy, ip: string, now: Instant)
    requires s.clock <= now && (ip in s.table ==> s.table[ip].lock.Unlocked?)
    ensures Enabled(s, Check(ip, now))
    ensures Step(s, Check(ip, now), p).table == s.table
    ensures InFlight(Step(s, Check(ip, now), p), ip) == InFlight(s, ip) + 1
  {
  }

  /** After any run an eviction removes exactly the addresses whose last failure is older than the idle time
      and, if they had reached the threshold, older than the lock duration; it changes no other entry. */
  lemma CleanupExactly(es: seq<Event>, start: Instant, p: Policy, now: Instant, ip: string)
    requires Run(es, start, p) && After(es, start, p).clock <= now
    ensures var s := After(es, start, p);
            var t := Step(s, Cleanup(now), p).table;
            && (ip in t ==> ip in s.table && t[ip] == s.table[ip])
            && (ip in s.table ==>
                  var e := s.table[ip];
                  (ip !in t <==> now > e.lastFail + p.idleTTL && (e.failures >= p.maxFail ==> now > e.lastFail + p.lockDur)))
  {
    ReachableInv(es, start, p);
    var s := After(es, start, p);
    assert ip in s.table ==> WellLocked(s.table[ip], s.clock, p);
  }

  /** Locked at least until `until`. */
  ghost predicate LockedUntil(m: Table, ip: string, until: Instant) {
    ip in m && m[ip].lock.Until? && until <= m[ip].lock.t
  }

  /** A lock is never shortened: short of a success by an attempt already in flight, no event before
      its end unlocks the address, evictions and further failures included. */
  lemma LockNotShortened(s: State, e: Event, p: Policy, ip: string, until: Instant)
    requires Enabled(s, e) && Inv(s, p) && LockedUntil(s.table, ip, until)
    requires Reading(e, s.clock) < until && 0 <= p.lockDur
    requires !(e.Success? && e.ip == ip)
    ensures LockedUntil(Step(s, e, p).table, ip, until)
    ensures e.Check? && e.ip == ip ==> InFlight(Step(s, e, p), ip) == InFlight(s, ip)
  {
    assert WellLocked(s.table[ip], s.clock, p);
  }

  /** Over whole runs: an address locked after `k` events is still locked, and refused, for as long as
      the clock has not reached the end of the lock and no attempt of it succeeded. */
  lemma {:induction false} LockHolds(es: seq<Event>, start: Instant, p: Policy, k: nat, ip: string, until: Instant, now: Instant)
    requires Run(es, start, p) && k <= |es| && 0 <= p.lockDur
    requires Run(es[..k], start, p) && LockedUntil(After(es[..k], start, p).table, ip, until)
    requires After(es, start, p).clock <= now < until
    requires forall i :: k <= i < |es| ==> !(es[i].Success? && es[i].ip == ip)
    ensures LockedUntil(After(es, start, p).table, ip, until)
    ensures !AllowedStep(After(es, start, p).table, ip, now).1
    decreases |es|
  {
    if k == |es| {
      assert es[..k] == es;
    } else {
      var prefix := es[..|es| - 1];
      assert prefix[..k] == es[..k];
      LockHolds(prefix, start, p, k, ip, until, now);
      ReachableInv(prefix, start, p);
      LockNotShortened(After(prefix, start, p), es[|es| - 1], p, ip, until);
    }
  }

  // ----- The bound is reached -----

  lemma Extend(es: seq<Event>, e: Event, start: Instant, p: Policy, ip: string, c: nat)
    requires Run(es, start, p) && AtMostInFlight(es, start, p, ip, c)
    requires Enabled(After(es, start, p), e) && InFlight(Step(After(es, start, p), e, p), ip) <= c
    ensures Run(es + [e], start, p) && AtMostInFlight(es + [e], start, p, ip, c)
    ensures After(es + [e], start, p) == Step(After(es, start, p), e, p)
    ensures FailuresSince(es + [e], ip, start)
         == if e.Fail? && e.ip == ip && start <= e.now then FailuresSince(es, ip, start) + 1
            else if e.Success? && e.ip == ip then 0 else FailuresSince(es, ip, start)
  {
    assert (es + [e])[..|es + [e]| - 1] == es;
  }

  /** `n` failed attempts one after the other, all at time `start`. */
  lemma {:induction false} OneByOne(start: Instant, p: Policy, ip: string, c: nat, n: nat) returns (es: seq<Event>)
    requires n < Threshold(p) && c >= 1
    ensures Run(es, start, p) && AtMostInFlight(es, start, p, ip, c)
    ensures FailuresSince(es, ip, start) == n
    ensures var s := After(es, start, p);
            && s.clock == start && InFlight(s, ip) == 0
            && (if n == 0 then ip !in s.table else ip in s.table && s.table[ip].failures == n && s.table[ip].lock.Unlocked?)
    decreases n
  {
    if n == 0 {
      es := [];
    } else {
      es := OneByOne(start, p, ip, c, n - 1);
      Extend(es, Check(ip, start), start, p, ip, c);
      es := es + [Check(ip, start)];
      Extend(es, Fail(ip, start), start, p, ip, c);
      es := es + [Fail(ip, start)];
    }
  }

  /** Then `k` attempts that all pass the check before any of them fails. */
  lemma {:induction false} AllAtOnce(start: Instant, p: Policy, ip: string, c: nat, k: nat) returns (es: seq<Event>)
    requires c >= 1 && k <= c
    ensures Run(es, start, p) && AtMostInFlight(es, start, p, ip, c)
    ensures FailuresSince(es, ip, start) == Threshold(p) - 1
    ensures var s := After(es, start, p);
            && s.clock == start && InFlight(s, ip) == k
            && (ip in s.table ==> s.table[ip].lock.Unlocked?)
    decreases k
  {
    if k == 0 {
      es := OneByOne(start, p, ip, c, Threshold(p) - 1);
    } else {
      es := AllAtOnce(start, p, ip, c, k - 1);
      Extend(es, Check(ip, start), start, p, ip, c);
      es := es + [Check(ip, start)];
    }
  }

  lemma {:induction false} ThenFail(start: Instant, p: Policy, ip: string, c: nat, j: nat) returns (es: seq<Event>)
    requires c >= 1 && j <= c
    ensures Run(es, start, p) && AtMostInFlight(es, start, p, ip, c)
    ensures FailuresSince(es, ip, start) == Threshold(p) - 1 + j
    ensures After(es, start, p).clock == start && InFlight(After(es, start, p), ip) == c - j
    decreases j
  {
    if j == 0 {
      es := AllAtOnce(start, p, ip, c, c);
    } else {
      es := ThenFail(start, p, ip, c, j - 1);
      Extend(es, Fail(ip, start), start, p, ip, c);
      es := es + [Fail(ip, start)];
    }
  }

  /** The window bound is exact: some run reaches it within a single instant. */
  lemma BoundReached(start: Instant, p: Policy, ip: string, c: nat) returns (es: seq<Event>)
    requires c >= 1
    ensures Run(es, start, p) && AtMostInFlight(es, start, p, ip, c)
    ensures After(es, start, p).clock == start
    ensures FailuresSince(es, ip, start) == Threshold(p) + c - 1
  {
    es := ThenFail(start, p, ip, c, c);
  }

  // ----- The limiter object -----

  /** An entry as the table stores it: updated in place by every failure. */
  class EntryCell {
    var failures: int
    var lastFail: Instant
    var lock: Lock

    constructor (now: Instant)
      ensures failures == 0 && lastFail == now && lock == Unlocked
    {
      failures, lastFail, lock := 0, now, Unlocked;
    }
  }

  class Limiter {
    const policy: Policy
    var entries: map<string, EntryCell>

    ghost predicate Valid()
      reads this
    {
      forall ip, ip' :: ip in entries && ip' in entries && ip != ip' ==> entries[ip] != entries[ip']
    }

    ghost function Contents(): Table
      reads this, entries.Values
    {
      map ip | ip in entries :: Entry(entries[ip].failures, entries[ip].lastFail, entries[ip].lock)
    }

    constructor (maxFail: int, lockDur: int, idleTTL: int)
      ensures Valid() && policy == Policy(maxFail, lockDur, idleTTL) && Contents() == map[]
    {
      policy := Policy(maxFail, lockDur, idleTTL);
      entries := map[];
    }

    method Allowed(ip: string, now: Instant) returns (ok: bool)
      requires Valid()
      modifies this`entries
      ensures Valid() && entries.Values <= old(entries.Values)
      ensures (Contents(), ok) == AllowedStep(old(Contents()), ip, now)
      ensures ok <==> !(ip in old(Contents()) && old(Contents())[ip].lock.Until? && now < old(Contents())[ip].lock.t)
      ensures Contents() == if ok && ip in old(Contents()) && old(Contents())[ip].lock.Until? then old(Contents()) - {ip}
                            else old(Contents())
    {
      if ip !in entries {
        return true;
      }
      var e := entries[ip];
      if e.lock.Until? && now < e.lock.t {
        return false;
      }
      if e.lock.Until? {
        entries := entries - {ip};
        assert Contents() == old(Contents()) - {ip};
      }
      ok := true;
    }

    method Fail(ip: string, now: Instant) returns (locked: bool)
      requires Valid()
      modifies this`entries, entries.Values
      ensures Valid() && fresh(entries.Values - old(entries.Values))
      ensures Contents() == old(Contents())[ip := Failed(old(Contents()), ip, now, policy)]
      ensures locked <==> Contents()[ip].failures >= policy.maxFail
    {
      EnsureEntry(ip, now);
      locked := CountFailure(ip, now);
    }

    /** Finds or creates the entry of the address. */
    method EnsureEntry(ip: string, now: Instant)
      requires Valid()
      modifies this`entries
      ensures Valid() && fresh(entries.Values - old(entries.Values)) && ip in entries
      ensures Contents() == if ip in old(entries) then old(Contents()) else old(Contents())[ip := Entry(0, now, Unlocked)]
    {
      if ip !in entries {
        var e := new EntryCell(now);
        entries := entries[ip := e];
      }
    }

    /** Counts one more failure in the entry of the address. */
    method CountFailure(ip: string, now: Instant) returns (locked: bool)
      requires Valid() && ip in entries
      modifies entries[ip]
      ensures var e := old(Contents()[ip]);
              locked == (e.failures + 1 >= policy.maxFail)
              && Contents() == old(Contents())[ip := Entry(e.failures + 1, now, if locked then Until(now + policy.lockDur) else e.lock)]
    {
      var e := entries[ip];
      e.failures := e.failures + 1;
      e.lastFail := now;
      if e.failures >= policy.maxFail {
        e.lock := Until(e.lastFail + policy.lockDur);
        return true;
      }
      locked := false;
    }

    method Succeed(ip: string)
      requires Valid()
      modifies this`entries
      ensures Valid() && entries.Values <= old(entries.Values)
      ensures Contents() == old(Contents()) - {ip}
    {
      entries := entries - {ip};
    }

    /** One tick of the background eviction. */
    method CleanupTick(now: Instant)
      requires Valid()
      modifies this`entries
      ensures Valid() && entries.Values <= old(entries.Values)
      ensures Contents() == Cleaned(old(Contents()), now, policy)
      ensures forall ip :: ip in old(Contents()) ==>
                var e := old(Contents())[ip];
                (ip !in Contents() <==> (e.lock.Until? ==> now > e.lock.t) && now - e.lastFail > policy.idleTTL)
    {
      var ips := entries.Keys;
      while ips != {}
        invariant entries.Keys <= old(entries.Keys) && ips <= entries.Keys
        invariant forall ip :: ip in entries ==> entries[ip] == old(entries)[ip]
        invariant forall ip :: ip in old(entries) && ip !in ips
                   ==> (ip in entries <==> !Evictable(old(Contents())[ip], now, policy))
        decreases ips
      {
        var ip := Pick(ips);
        var e := entries[ip];
        if (e.lock.Until? ==> now > e.lock.t) && now - e.lastFail > policy.idleTTL {
          entries := entries - {ip};
        }
        ips := ips - {ip};
      }
      FewerValues(old(entries), entries);
    }
  }

  // ----- How the login endpoint sequences them -----

  /** What happens to a request that passed the lock test. */
  datatype Attempt = Malformed | MissingField | DatabaseError | UnknownUser | WrongPassword | RightPassword

  datatype Reply = TooManyRequests | BadRequest | InternalError | Unauthorized | LoggedIn

  /** One undisturbed login: an unknown user counts as a failure exactly like a wrong password, and
      nothing else touches the count. */
  method Login(l: Limiter, ip: string, attempt: Attempt, checkedAt: Instant, failedAt: Instant) returns (reply: Reply)
    requires l.Valid()
    modifies l`entries, l.entries.Values
    ensures l.Valid()
    ensures reply.TooManyRequests? <==> (var m := old(l.Contents());
                                      ip in m && m[ip].lock.Until? && checkedAt < m[ip].lock.t)
    ensures !reply.TooManyRequests? ==>
              reply == match attempt
                       case Malformed => BadRequest
                       case MissingField => BadRequest
                       case DatabaseError => InternalError
                       case UnknownUser => Unauthorized
                       case WrongPassword => Unauthorized
                       case RightPassword => LoggedIn
    ensures var m := AllowedStep(old(l.Contents()), ip, checkedAt).0;
            l.Contents() == match reply
                            case Unauthorized => m[ip := Failed(m, ip, failedAt, l.policy)]
                            case LoggedIn => m - {ip}
                            case _ => m
  {
    var ok := l.Allowed(ip, checkedAt);
    if !ok {
      return TooManyRequests;
    }
    match attempt {
      case Malformed => return BadRequest;
      case MissingField => return BadRequest;
      case DatabaseError => return InternalError;
      case UnknownUser =>
        var _ := l.Fail(ip, failedAt);
        return Unauthorized;
      case WrongPassword =>
        var _ := l.Fail(ip, failedAt);
        return Unauthorized;
      case RightPassword =>
        l.Succeed(ip);
        return LoggedIn;
    }
  }
}
