/** The alert engine: rounds that compare the health of the backends with the previous snapshot, and
    send notifications that a silence period keeps from repeating. */
module Alerts {
  import opened Collections

  type Instant = int

  const MINUTE: int := 60_000_000_000

  /** What an alert is about. */
  datatype Key = Down(url: string) | Up(url: string) | ErrorRate | Latency(url: string)

  datatype Rules = Rules(enabled: bool, errorRatePct: real, minSample: int, latencyMs: int, silenceMinutes: int)

  /** The readings and the outcome around one possible notification: when the silence was checked, when
      the notification had been sent, and whether sending worked. */
  datatype TickRaw = Tick(checkedAt: Instant, sentAt: Instant, ok: bool)
  type Tick = t: TickRaw | t.checkedAt <= t.sentAt witness Tick(0, 0, true)

  datatype Delivery = Delivery(key: Key, at: Instant, silence: int)

  /** `attempts` and `delivered` record what was tried and what went out. */
  datatype State = State(
    lastSent: map<Key, Instant>,
    healthy: map<string, bool>,
    attempts: seq<Key>,
    delivered: seq<Delivery>)

  // ----- One notification -----

  /** Sends; only a success is remembered. */
  function Deliver(s: State, key: Key, silence: int, t: Tick): State {
    var tried := s.(attempts := s.attempts + [key]);
    if t.ok then tried.(lastSent := s.lastSent[key := t.sentAt], delivered := s.delivered + [Delivery(key, t.sentAt, silence)])
    else tried
  }

  predicate Silent(s: State, key: Key, silence: int, now: Instant) {
    key in s.lastSent && now - s.lastSent[key] < silence
  }

  function Fire(s: State, key: Key, silence: int, t: Tick): State {
    if Silent(s, key, silence, t.checkedAt) then s else Deliver(s, key, silence, t)
  }

  // ----- One round -----

  /** One backend whose state may have changed: a failure is announced unless silent; a recovery clears
      the silence of the failure and is always announced. */
  function BackendStep(s: State, prev: map<string, bool>, url: string, now: bool, silence: int, t: Tick): State {
    if url !in prev then s
    else if prev[url] && !now then Fire(s, Down(url), silence, t)
    else if !prev[url] && now then Deliver(s.(lastSent := s.lastSent - {Down(url)}), Up(url), silence, t)
    else s
  }

  /** The backends in the order in which the map happens to be visited. */
  function BackendSteps(s: State, prev: map<string, bool>, current: map<string, bool>, order: seq<string>,
                        silence: int, ticks: seq<Tick>): State
    requires |ticks| == |order| && forall url :: url in order ==> url in current
  {
    if order == [] then s
    else
      var k := |order| - 1;
      BackendStep(BackendSteps(s, prev, current, order[..k], silence, ticks[..k]),
                  prev, order[k], current[order[k]], silence, ticks[k])
  }

  datatype Counts = Counts(total: nat, errors: nat)

  datatype Average = Average(backend: string, avgMs: real)

  /** Everything one round meets: the rules it loads, whether a channel is configured, the current
      health with the order it is visited in, the results of the two queries (none if one failed), and
      the ticks of the possible notifications. */
  datatype Round = Round(
    rules: Rules,
    configured: bool,
    current: map<string, bool>,
    order: seq<string>,
    backendTicks: seq<Tick>,
    counts: Option<Counts>,
    errorTick: Tick,
    averages: Option<seq<Average>>,
    latencyTicks: seq<Tick>)

  predicate Distinct(order: seq<string>) {
    forall i, j :: 0 <= i < j < |order| ==> order[i] != order[j]
  }

  ghost predicate ValidRound(r: Round) {
    && |r.backendTicks| == |r.order|
    && Distinct(r.order)
    && (forall url :: url in r.order <==> url in r.current)
    && (r.averages.Some? ==> |r.latencyTicks| == |r.averages.value|)
  }

  predicate Evaluates(r: Round) {
    r.rules.enabled && r.configured
  }

  /** The error rate reaches the threshold over a sufficient sample; with no requests at all the rate is
      not a number and never below. */
  predicate ErrorsBreach(rules: Rules, counts: Option<Counts>) {
    && rules.errorRatePct > 0.0
    && counts.Some?
    && counts.value.total >= rules.minSample
    && RateReached(counts.value.errors, counts.value.total, rules.errorRatePct)
  }

  predicate RateReached(errors: nat, total: nat, pct: real) {
    total == 0 || errors as real / total as real * 100.0 >= pct
  }

  /** The average probe latencies of the backends, one after the other. */
  function LatencySteps(s: State, rules: Rules, averages: seq<Average>, ticks: seq<Tick>): State
    requires |ticks| == |averages|
  {
    if averages == [] then s
    else
      var k := |averages| - 1;
      var before := LatencySteps(s, rules, averages[..k], ticks[..k]);
      if averages[k].avgMs < rules.latencyMs as real then before
      else Fire(before, Latency(averages[k].backend), rules.silenceMinutes * MINUTE, ticks[k])
  }

  function CheckedLatency(s: State, rules: Rules, averages: Option<seq<Average>>, ticks: seq<Tick>): State
    requires averages.Some? ==> |ticks| == |averages.value|
  {
    if rules.latencyMs > 0 && averages.Some? then LatencySteps(s, rules, averages.value, ticks) else s
  }

  function RoundStep(s: State, r: Round): State
    requires ValidRound(r)
  {
    if !Evaluates(r) then s.(healthy := r.current)
    else
      var silence := r.rules.silenceMinutes * MINUTE;
      var s1 := BackendSteps(s.(healthy := r.current), s.healthy, r.current, r.order, silence, r.backendTicks);
      var s2 := if ErrorsBreach(r.rules, r.counts) then Fire(s1, ErrorRate, silence, r.errorTick) else s1;
      CheckedLatency(s2, r.rules, r.averages, r.latencyTicks)
  }

  /** The engine starts with the snapshot of its first look at the backends. */
  function Started(baseline: map<string, bool>): State {
    State(map[], baseline, [], [])
  }

  ghost predicate ValidRounds(rs: seq<Round>) {
    forall r :: r in rs ==> ValidRound(r)
  }

  function After(baseline: map<string, bool>, rs: seq<Round>): State
    requires ValidRounds(rs)
  {
    if rs == [] then Started(baseline)
    else RoundStep(After(baseline, rs[..|rs| - 1]), rs[|rs| - 1])
  }

  // ----- Failures are never silenced by their own history -----

  function Count(keys: seq<Key>, key: Key): nat {
    if keys == [] then 0
    else Count(keys[..|keys| - 1], key) + (if keys[|keys| - 1] == key then 1 else 0)
  }

  lemma CountAppend(keys: seq<Key>, k: Key, key: Key)
    ensures Count(keys + [k], key) == Count(keys, key) + (if k == key then 1 else 0)
  {
    assert (keys + [k])[..|keys + [k]| - 1] == keys;
  }

  /** `s'` has the same history about the failures and recoveries of one backend as `s`. */
  ghost predicate SameAbout(s: State, s': State, url: string) {
    && s'.healthy == s.healthy
    && (Down(url) in s'.lastSent <==> Down(url) in s.lastSent)
    && Count(s'.attempts, Down(url)) == Count(s.attempts, Down(url))
    && Count(s'.attempts, Up(url)) == Count(s.attempts, Up(url))
  }

  lemma FireElsewhere(s: State, key: Key, silence: int, t: Tick, url: string)
    requires key != Down(url) && key != Up(url)
    ensures SameAbout(s, Fire(s, key, silence, t), url)
  {
    CountAppend(s.attempts, key, Down(url));
    CountAppend(s.attempts, key, Up(url));
  }

  lemma BackendElsewhere(s: State, prev: map<string, bool>, other: string, now: bool, silence: int, t: Tick, url: string)
    requires other != url
    ensures SameAbout(s, BackendStep(s, prev, other, now, silence, t), url)
  {
    CountAppend(s.attempts, Down(other), Down(url));
    CountAppend(s.attempts, Down(other), Up(url));
    CountAppend(s.attempts, Up(other), Down(url));
    CountAppend(s.attempts, Up(other), Up(url));
  }

  lemma {:induction false} BackendsElsewhere(s: State, prev: map<string, bool>, current: map<string, bool>, order: seq<string>,
                                             silence: int, ticks: seq<Tick>, url: string)
    requires |ticks| == |order| && (forall u :: u in order ==> u in current) && url !in order
    ensures SameAbout(s, BackendSteps(s, prev, current, order, silence, ticks), url)
    decreases |order|
  {
    if order != [] {
      var k := |order| - 1;
      BackendsElsewhere(s, prev, current, order[..k], silence, ticks[..k], url);
      BackendElsewhere(BackendSteps(s, prev, current, order[..k], silence, ticks[..k]),
                       prev, order[k], current[order[k]], silence, ticks[k], url);
    }
  }

  lemma {:induction false} LatenciesElsewhere(s: State, rules: Rules, averages: seq<Average>, ticks: seq<Tick>, url: string)
    requires |ticks| == |averages|
    ensures SameAbout(s, LatencySteps(s, rules, averages, ticks), url)
    decreases |averages|
  {
    if averages != [] {
      var k := |averages| - 1;
      LatenciesElsewhere(s, rules, averages[..k], ticks[..k], url);
      FireElsewhere(LatencySteps(s, rules, averages[..k], ticks[..k]), Latency(averages[k].backend),
                    rules.silenceMinutes * MINUTE, ticks[k], url);
    }
  }

  /** A backend that is up has no failure on record that could silence the next one. */
  ghost predicate Unsilenced(s: State, url: string) {
    url in s.healthy && (s.healthy[url] ==> Down(url) !in s.lastSent)
  }

  /** What one backend experiences in its own step. */
  lemma OwnStep(s: State, prev: map<string, bool>, url: string, now: bool, silence: int, t: Tick)
    requires url in prev && (prev[url] ==> Down(url) !in s.lastSent)
    ensures var s' := BackendStep(s, prev, url, now, silence, t);
            && s'.healthy == s.healthy
            && (now ==> Down(url) !in s'.lastSent)
            && Count(s'.attempts, Down(url)) == Count(s.attempts, Down(url)) + (if prev[url] && !now then 1 else 0)
            && Count(s'.attempts, Up(url)) == Count(s.attempts, Up(url)) + (if !prev[url] && now then 1 else 0)
  {
    CountAppend(s.attempts, Down(url), Down(url));
    CountAppend(s.attempts, Down(url), Up(url));
    CountAppend(s.attempts, Up(url), Down(url));
    CountAppend(s.attempts, Up(url), Up(url));
  }

  lemma {:induction false} OwnSteps(s: State, prev: map<string, bool>, current: map<string, bool>, order: seq<string>,
                                    silence: int, ticks: seq<Tick>, url: string)
    requires |ticks| == |order| && Distinct(order) && (forall u :: u in order ==> u in current) && url in order
    requires url in prev && (prev[url] ==> Down(url) !in s.lastSent)
    ensures var s' := BackendSteps(s, prev, current, order, silence, ticks);
            && s'.healthy == s.healthy
            && (current[url] ==> Down(url) !in s'.lastSent)
            && Count(s'.attempts, Down(url)) == Count(s.attempts, Down(url)) + (if prev[url] && !current[url] then 1 else 0)
            && Count(s'.attempts, Up(url)) == Count(s.attempts, Up(url)) + (if !prev[url] && current[url] then 1 else 0)
    decreases |order|
  {
    var k := |order| - 1;
    var before := BackendSteps(s, prev, current, order[..k], silence, ticks[..k]);
    if order[k] == url {
      BackendsElsewhere(s, prev, current, order[..k], silence, ticks[..k], url);
      OwnStep(before, prev, url, current[url], silence, ticks[k]);
    } else {
      OwnSteps(s, prev, current, order[..k], silence, ticks[..k], url);
      BackendElsewhere(before, prev, order[k], current[order[k]], silence, ticks[k], url);
    }
  }

  lemma RoundAbout(s: State, r: Round, url: string)
    requires ValidRound(r) && Evaluates(r) && Unsilenced(s, url) && url in r.current
    ensures var s' := RoundStep(s, r);
            && s'.healthy == r.current && Unsilenced(s', url)
            && Count(s'.attempts, Down(url)) == Count(s.attempts, Down(url)) + (if s.healthy[url] && !r.current[url] then 1 else 0)
            && Count(s'.attempts, Up(url)) == Count(s.attempts, Up(url)) + (if !s.healthy[url] && r.current[url] then 1 else 0)
  {
    var silence := r.rules.silenceMinutes * MINUTE;
    var s0 := s.(healthy := r.current);
    OwnSteps(s0, s.healthy, r.current, r.order, silence, r.backendTicks, url);
    var s1 := BackendSteps(s0, s.healthy, r.current, r.order, silence, r.backendTicks);
    FireElsewhere(s1, ErrorRate, silence, r.errorTick, url);
    var s2 := if ErrorsBreach(r.rules, r.counts) then Fire(s1, ErrorRate, silence, r.errorTick) else s1;
    if r.averages.Some? {
      LatenciesElsewhere(s2, r.rules, r.averages.value, r.latencyTicks, url);
    }
  }

  /** Observed changes of one backend from up to down (or, with `down` false, from down to up). */
  function Changes(was: bool, rs: seq<Round>, url: string, down: bool): nat
    requires forall r :: r in rs ==> url in r.current
  {
    if rs == [] then 0
    else
      var k := |rs| - 1;
      var before := if k == 0 then was else rs[k - 1].current[url];
      var now := rs[k].current[url];
      Changes(was, rs[..k], url, down) + (if before == down && now == !down then 1 else 0)
  }

  /** What one backend has seen and what was said about it agree. */
  ghost predicate Announced(s: State, was: bool, rs: seq<Round>, url: string)
    requires forall r :: r in rs ==> url in r.current
  {
    && Unsilenced(s, url)
    && s.healthy[url] == (if rs == [] then was else rs[|rs| - 1].current[url])
    && Count(s.attempts, Down(url)) == Changes(was, rs, url, true)
    && Count(s.attempts, Up(url)) == Changes(was, rs, url, false)
  }

  lemma RoundAnnounced(s: State, was: bool, rs: seq<Round>, url: string)
    requires rs != [] && (forall r :: r in rs ==> url in r.current) && ValidRound(rs[|rs| - 1]) && Evaluates(rs[|rs| - 1])
    requires Announced(s, was, rs[..|rs| - 1], url)
    ensures Announced(RoundStep(s, rs[|rs| - 1]), was, rs, url)
  {
    RoundAbout(s, rs[|rs| - 1], url);
  }

  /** From the start on, while alerting stays enabled and a backend stays configured, a notification is
      attempted for exactly every observed failure and every observed recovery: no failure is silenced
      by the ones before it. */
  lemma {:induction false} EveryChangeAnnounced(baseline: map<string, bool>, rs: seq<Round>, url: string)
    requires ValidRounds(rs) && url in baseline
    requires forall r :: r in rs ==> Evaluates(r) && url in r.current
    ensures Announced(After(baseline, rs), baseline[url], rs, url)
    decreases |rs|
  {
    if rs != [] {
      var k := |rs| - 1;
      EveryChangeAnnounced(baseline, rs[..k], url);
      RoundAnnounced(After(baseline, rs[..k]), baseline[url], rs, url);
    }
  }

  /** Failures and recoveries alternate, so their numbers differ by at most one. */
  lemma {:induction false} ChangesAlternate(was: bool, rs: seq<Round>, url: string)
    requires forall r :: r in rs ==> url in r.current
    ensures var last := if rs == [] then was else rs[|rs| - 1].current[url];
            Changes(was, rs, url, true) - Changes(was, rs, url, false)
            == (if was then 1 else 0) - (if last then 1 else 0)
    decreases |rs|
  {
    if rs != [] {
      ChangesAlternate(was, rs[..|rs| - 1], url);
    }
  }

  // ----- The other alerts keep their distance -----

  function LastOf(ds: seq<Delivery>, key: Key): Option<Instant> {
    if ds == [] then None
    else if ds[|ds| - 1].key == key then Some(ds[|ds| - 1].at)
    else LastOf(ds[..|ds| - 1], key)
  }

  /** Any two successive deliveries of the key are at least the silence of the later one apart. */
  ghost predicate Spaced(ds: seq<Delivery>, key: Key) {
    ds == [] ||
    (var k := |ds| - 1;
     && Spaced(ds[..k], key)
     && (ds[k].key == key && LastOf(ds[..k], key).Some? ==> ds[k].at - LastOf(ds[..k], key).value >= ds[k].silence))
  }

  /** The record of sent alerts knows the last delivery of the key. */
  ghost predicate Remembers(s: State, key: Key) {
    && Spaced(s.delivered, key)
    && (key in s.lastSent <==> LastOf(s.delivered, key).Some?)
    && (key in s.lastSent ==> LastOf(s.delivered, key) == Some(s.lastSent[key]))
  }

  lemma DeliveredLast(ds: seq<Delivery>, d: Delivery, key: Key)
    ensures LastOf(ds + [d], key) == if d.key == key then Some(d.at) else LastOf(ds, key)
    ensures Spaced(ds + [d], key) <==>
              Spaced(ds, key) && (d.key == key && LastOf(ds, key).Some? ==> d.at - LastOf(ds, key).value >= d.silence)
  {
    assert (ds + [d])[..|ds + [d]| - 1] == ds;
  }

  lemma FireRemembers(s: State, fired: Key, silence: int, t: Tick, key: Key)
    requires Remembers(s, key)
    ensures Remembers(Fire(s, fired, silence, t), key)
  {
    DeliveredLast(s.delivered, Delivery(fired, t.sentAt, silence), key);
  }

  lemma {:induction false} LatenciesRemember(s: State, rules: Rules, averages: seq<Average>, ticks: seq<Tick>, key: Key)
    requires |ticks| == |averages| && Remembers(s, key)
    ensures Remembers(LatencySteps(s, rules, averages, ticks), key)
    decreases |averages|
  {
    if averages != [] {
      var k := |averages| - 1;
      LatenciesRemember(s, rules, averages[..k], ticks[..k], key);
      FireRemembers(LatencySteps(s, rules, averages[..k], ticks[..k]), Latency(averages[k].backend),
                    rules.silenceMinutes * MINUTE, ticks[k], key);
    }
  }

  lemma BackendRemembers(s: State, prev: map<string, bool>, url: string, now: bool, silence: int, t: Tick, key: Key)
    requires (key.ErrorRate? || key.Latency?) && Remembers(s, key)
    ensures Remembers(BackendStep(s, prev, url, now, silence, t), key)
  {
    DeliveredLast(s.delivered, Delivery(Down(url), t.sentAt, silence), key);
    DeliveredLast(s.delivered, Delivery(Up(url), t.sentAt, silence), key);
  }

  lemma {:induction false} BackendsRemember(s: State, prev: map<string, bool>, current: map<string, bool>, order: seq<string>,
                                            silence: int, ticks: seq<Tick>, key: Key)
    requires |ticks| == |order| && (forall u :: u in order ==> u in current)
    requires (key.ErrorRate? || key.Latency?) && Remembers(s, key)
    ensures Remembers(BackendSteps(s, prev, current, order, silence, ticks), key)
    decreases |order|
  {
    if order != [] {
      var k := |order| - 1;
      BackendsRemember(s, prev, current, order[..k], silence, ticks[..k], key);
      BackendRemembers(BackendSteps(s, prev, current, order[..k], silence, ticks[..k]),
                       prev, order[k], current[order[k]], silence, ticks[k], key);
    }
  }

  /** Over any run, whatever the rules, the settings and the failures of sending: successive deliveries of
      an error-rate alert, or of the latency alert of one backend, are at least the silence period in
      force at the later one apart. */
  lemma {:induction false} RepeatedAlertsSpaced(baseline: map<string, bool>, rs: seq<Round>, key: Key)
    requires ValidRounds(rs) && (key.ErrorRate? || key.Latency?)
    ensures Remembers(After(baseline, rs), key)
    ensures Spaced(After(baseline, rs).delivered, key)
    decreases |rs|
  {
    if rs != [] {
      var k := |rs| - 1;
      RepeatedAlertsSpaced(baseline, rs[..k], key);
      RoundRemembers(After(baseline, rs[..k]), rs[k], key);
    }
  }

  lemma RoundRemembers(s: State, r: Round, key: Key)
    requires ValidRound(r) && (key.ErrorRate? || key.Latency?) && Remembers(s, key)
    ensures Remembers(RoundStep(s, r), key)
  {
    if Evaluates(r) {
      var silence := r.rules.silenceMinutes * MINUTE;
      var s0 := s.(healthy := r.current);
      BackendsRemember(s0, s.healthy, r.current, r.order, silence, r.backendTicks, key);
      var s1 := BackendSteps(s0, s.healthy, r.current, r.order, silence, r.backendTicks);
      FireRemembers(s1, ErrorRate, silence, r.errorTick, key);
      var s2 := if ErrorsBreach(r.rules, r.counts) then Fire(s1, ErrorRate, silence, r.errorTick) else s1;
      if r.averages.Some? {
        LatenciesRemember(s2, r.rules, r.averages.value, r.latencyTicks, key);
      }
    }
  }

  /** The same history about one key. */
  ghost predicate SameFor(s: State, s': State, key: Key) {
    && Count(s'.attempts, key) == Count(s.attempts, key)
    && (key in s'.lastSent <==> key in s.lastSent)
    && (key in s.lastSent ==> s'.lastSent[key] == s.lastSent[key])
  }

  lemma BackendOff(s: State, prev: map<string, bool>, url: string, now: bool, silence: int, t: Tick, key: Key)
    requires key.ErrorRate? || key.Latency?
    ensures SameFor(s, BackendStep(s, prev, url, now, silence, t), key)
  {
    CountAppend(s.attempts, Down(url), key);
    CountAppend(s.attempts, Up(url), key);
  }

  lemma {:induction false} BackendsOff(s: State, prev: map<string, bool>, current: map<string, bool>, order: seq<string>,
                                       silence: int, ticks: seq<Tick>, key: Key)
    requires |ticks| == |order| && (forall u :: u in order ==> u in current) && (key.ErrorRate? || key.Latency?)
    ensures SameFor(s, BackendSteps(s, prev, current, order, silence, ticks), key)
    decreases |order|
  {
    if order != [] {
      var k := |order| - 1;
      BackendsOff(s, prev, current, order[..k], silence, ticks[..k], key);
      BackendOff(BackendSteps(s, prev, current, order[..k], silence, ticks[..k]),
                 prev, order[k], current[order[k]], silence, ticks[k], key);
    }
  }

  lemma FireOff(s: State, fired: Key, silence: int, t: Tick, key: Key)
    requires fired != key
    ensures SameFor(s, Fire(s, fired, silence, t), key)
  {
    CountAppend(s.attempts, fired, key);
  }

  lemma {:induction false} LatenciesOff(s: State, rules: Rules, averages: seq<Average>, ticks: seq<Tick>, key: Key)
    requires |ticks| == |averages| && forall i :: 0 <= i < |averages| ==> key != Latency(averages[i].backend)
    ensures SameFor(s, LatencySteps(s, rules, averages, ticks), key)
    decreases |averages|
  {
    if averages != [] {
      var k := |averages| - 1;
      LatenciesOff(s, rules, averages[..k], ticks[..k], key);
      FireOff(LatencySteps(s, rules, averages[..k], ticks[..k]), Latency(averages[k].backend),
              rules.silenceMinutes * MINUTE, ticks[k], key);
    }
  }

  /** One attempt of the key is due: it is counted, and a success is on record. */
  ghost predicate Tried(s: State, s': State, key: Key, due: bool, t: Tick) {
    && Count(s'.attempts, key) == Count(s.attempts, key) + (if due then 1 else 0)
    && (if due && t.ok then key in s'.lastSent && s'.lastSent[key] == t.sentAt
        else (key in s'.lastSent <==> key in s.lastSent) && (key in s.lastSent ==> s'.lastSent[key] == s.lastSent[key]))
  }

  lemma FireTries(s: State, key: Key, silence: int, t: Tick)
    ensures Tried(s, Fire(s, key, silence, t), key, !Silent(s, key, silence, t.checkedAt), t)
  {
    CountAppend(s.attempts, key, key);
  }

  /** What comes before and after leaves the attempt as it is. */
  lemma TriedBetween(s: State, s1: State, s2: State, s3: State, key: Key, due: bool, t: Tick)
    requires SameFor(s, s1, key) && Tried(s1, s2, key, due, t) && SameFor(s2, s3, key)
    ensures Tried(s, s3, key, due, t)
  {
  }

  lemma RoundTriesErrorRate(s: State, r: Round)
    requires ValidRound(r)
    ensures Tried(s, RoundStep(s, r), ErrorRate,
                  Evaluates(r) && ErrorsBreach(r.rules, r.counts)
                  && !Silent(s, ErrorRate, r.rules.silenceMinutes * MINUTE, r.errorTick.checkedAt), r.errorTick)
  {
    if Evaluates(r) {
      var silence := r.rules.silenceMinutes * MINUTE;
      var s0 := s.(healthy := r.current);
      BackendsOff(s0, s.healthy, r.current, r.order, silence, r.backendTicks, ErrorRate);
      var s1 := BackendSteps(s0, s.healthy, r.current, r.order, silence, r.backendTicks);
      var due := ErrorsBreach(r.rules, r.counts) && !Silent(s1, ErrorRate, silence, r.errorTick.checkedAt);
      FireTries(s1, ErrorRate, silence, r.errorTick);
      var s2 := if ErrorsBreach(r.rules, r.counts) then Fire(s1, ErrorRate, silence, r.errorTick) else s1;
      CheckedOff(s2, r.rules, r.averages, r.latencyTicks);
      TriedBetween(s0, s1, s2, CheckedLatency(s2, r.rules, r.averages, r.latencyTicks), ErrorRate, due, r.errorTick);
    }
  }

  lemma CheckedOff(s: State, rules: Rules, averages: Option<seq<Average>>, ticks: seq<Tick>)
    requires averages.Some? ==> |ticks| == |averages.value|
    ensures SameFor(s, CheckedLatency(s, rules, averages, ticks), ErrorRate)
  {
    if averages.Some? {
      LatenciesOff(s, rules, averages.value, ticks, ErrorRate);
    }
  }

  /** A rate in percent, said without the quotient. */
  lemma PercentMeans(errors: real, total: real, pct: real)
    requires total > 0.0
    ensures errors / total * 100.0 >= pct <==> 100.0 * errors >= pct * total
  {
    var q := errors / total;
    var percent := q * 100.0;
    ScaledOrder(pct, percent, total);
    assert percent * total == 100.0 * errors by {
      assert q * total == errors;
    }
  }

  lemma ScaledOrder(a: real, b: real, c: real)
    requires c > 0.0
    ensures a <= b <==> a * c <= b * c
  {
    if a <= b {
      assert (b - a) * c >= 0.0;
    } else {
      assert (a - b) * c > 0.0;
    }
  }

  lemma RateMeans(errors: nat, total: nat, pct: real)
    ensures RateReached(errors, total, pct) <==> total == 0 || 100.0 * errors as real >= pct * total as real
  {
    if total > 0 {
      PercentMeans(errors as real, total as real, pct);
    }
  }

  lemma BreachMeans(rules: Rules, counts: Option<Counts>)
    ensures ErrorsBreach(rules, counts) <==>
              && rules.errorRatePct > 0.0 && counts.Some? && counts.value.total >= rules.minSample
              && (counts.value.total == 0 || 100.0 * counts.value.errors as real >= rules.errorRatePct * counts.value.total as real)
  {
    if counts.Some? {
      RateMeans(counts.value.errors, counts.value.total, rules.errorRatePct);
    }
  }

  /** More errors among as many requests never end a breach. */
  lemma MoreErrorsStillBreach(rules: Rules, total: nat, errors: nat, more: nat)
    requires errors <= more && ErrorsBreach(rules, Some(Counts(total, errors)))
    ensures ErrorsBreach(rules, Some(Counts(total, more)))
  {
    BreachMeans(rules, Some(Counts(total, errors)));
    BreachMeans(rules, Some(Counts(total, more)));
  }

  /** After any run, a round tries the error-rate alert exactly when alerting is enabled and configured, there
      is a threshold, the query was answered over a sufficient sample, the errors are at least that many
      percent of the requests (or there were none at all), and the last delivery, if there was one, is at
      least the silence period old. The alert is then delivered exactly when sending works. */
  lemma ErrorRateExactly(baseline: map<string, bool>, rs: seq<Round>, r: Round)
    requires ValidRounds(rs) && ValidRound(r)
    ensures var s, s' := After(baseline, rs), RoundStep(After(baseline, rs), r);
            var last := LastOf(s.delivered, ErrorRate);
            var due := && r.rules.enabled && r.configured
                       && r.rules.errorRatePct > 0.0 && r.counts.Some? && r.counts.value.total >= r.rules.minSample
                       && (r.counts.value.total == 0
                           || 100.0 * r.counts.value.errors as real >= r.rules.errorRatePct * r.counts.value.total as real)
                       && !(last.Some? && r.errorTick.checkedAt - last.value < r.rules.silenceMinutes * 60_000_000_000);
            && Count(s'.attempts, ErrorRate) == Count(s.attempts, ErrorRate) + (if due then 1 else 0)
            && LastOf(s'.delivered, ErrorRate) == if due && r.errorTick.ok then Some(r.errorTick.sentAt) else last
  {
    var s := After(baseline, rs);
    RepeatedAlertsSpaced(baseline, rs, ErrorRate);
    RoundRemembers(s, r, ErrorRate);
    BreachMeans(r.rules, r.counts);
    RoundTriesErrorRate(s, r);
  }

  ghost predicate DistinctBackends(averages: seq<Average>) {
    forall i, j :: 0 <= i < j < |averages| ==> averages[i].backend != averages[j].backend
  }

  lemma {:induction false} LatenciesTry(s: State, rules: Rules, averages: seq<Average>, ticks: seq<Tick>, k: nat)
    requires |ticks| == |averages| && DistinctBackends(averages) && k < |averages|
    ensures var key := Latency(averages[k].backend);
            Tried(s, LatencySteps(s, rules, averages, ticks), key,
                  averages[k].avgMs >= rules.latencyMs as real
                  && !Silent(s, key, rules.silenceMinutes * MINUTE, ticks[k].checkedAt), ticks[k])
    decreases |averages|
  {
    var last := |averages| - 1;
    var key := Latency(averages[k].backend);
    var before := LatencySteps(s, rules, averages[..last], ticks[..last]);
    if k == last {
      LatenciesOff(s, rules, averages[..last], ticks[..last], key);
      FireTries(before, key, rules.silenceMinutes * MINUTE, ticks[k]);
    } else {
      LatenciesTry(s, rules, averages[..last], ticks[..last], k);
      FireOff(before, Latency(averages[last].backend), rules.silenceMinutes * MINUTE, ticks[last], key);
    }
  }

  lemma RoundTriesLatency(s: State, r: Round, k: nat)
    requires ValidRound(r) && r.averages.Some? && DistinctBackends(r.averages.value) && k < |r.averages.value|
    ensures var key := Latency(r.averages.value[k].backend);
            Tried(s, RoundStep(s, r), key,
                  Evaluates(r) && r.rules.latencyMs > 0 && r.averages.value[k].avgMs >= r.rules.latencyMs as real
                  && !Silent(s, key, r.rules.silenceMinutes * MINUTE, r.latencyTicks[k].checkedAt), r.latencyTicks[k])
  {
    if Evaluates(r) {
      var key := Latency(r.averages.value[k].backend);
      var silence := r.rules.silenceMinutes * MINUTE;
      var s0 := s.(healthy := r.current);
      BackendsOff(s0, s.healthy, r.current, r.order, silence, r.backendTicks, key);
      var s1 := BackendSteps(s0, s.healthy, r.current, r.order, silence, r.backendTicks);
      FireOff(s1, ErrorRate, silence, r.errorTick, key);
      var s2 := if ErrorsBreach(r.rules, r.counts) then Fire(s1, ErrorRate, silence, r.errorTick) else s1;
      LatenciesTry(s2, r.rules, r.averages.value, r.latencyTicks, k);
    }
  }

  /** After any run, a round tries the latency alert of a backend exactly when alerting is enabled and
      configured, there is a threshold, the average of the backend reaches it, and the last delivery of its
      alert, if there was one, is at least the silence period old; it is delivered exactly when sending works. */
  lemma LatencyExactly(baseline: map<string, bool>, rs: seq<Round>, r: Round, k: nat)
    requires ValidRounds(rs) && ValidRound(r)
    requires r.averages.Some? && DistinctBackends(r.averages.value) && k < |r.averages.value|
    ensures var s, s' := After(baseline, rs), RoundStep(After(baseline, rs), r);
            var key, t := Latency(r.averages.value[k].backend), r.latencyTicks[k];
            var last := LastOf(s.delivered, key);
            var due := && r.rules.enabled && r.configured
                       && r.rules.latencyMs > 0 && r.averages.value[k].avgMs >= r.rules.latencyMs as real
                       && !(last.Some? && t.checkedAt - last.value < r.rules.silenceMinutes * 60_000_000_000);
            && Count(s'.attempts, key) == Count(s.attempts, key) + (if due then 1 else 0)
            && LastOf(s'.delivered, key) == if due && t.ok then Some(t.sentAt) else last
  {
    var s := After(baseline, rs);
    var key := Latency(r.averages.value[k].backend);
    RepeatedAlertsSpaced(baseline, rs, key);
    RoundRemembers(s, r, key);
    RoundTriesLatency(s, r, k);
  }

  // ----- Where the guarantee ends -----

  /** A round that sees only the backend "a" and meets no other alert. */
  function OneBackend(enabled: bool, up: bool, at: Instant): Round {
    Round(Rules(enabled, 0.0, 0, 0, 10), true, map["a" := up], ["a"], [Tick(at, at, true)], None, Tick(at, at, true), None, [])
  }

  /** A recovery that happens while alerting is switched off leaves the record of the failure in place:
      the next failure, although observed and within an enabled round, is silenced by the first one. */
  lemma RecoveryWhileDisabledSilences()
    ensures var first := OneBackend(true, false, 0);
            var unseen := OneBackend(false, true, MINUTE);
            var second := OneBackend(true, false, 2 * MINUTE);
            && ValidRounds([first, unseen, second])
            && After(map["a" := true], [first, unseen]).healthy["a"]
            && Evaluates(second) && !second.current["a"]
            && After(map["a" := true], [first, unseen, second]).attempts == [Down("a")]
  {
    var first, unseen, second := OneBackend(true, false, 0), OneBackend(false, true, MINUTE), OneBackend(true, false, 2 * MINUTE);
    var rs := [first, unseen, second];
    var s0 := Started(map["a" := true]);
    OneBackendRound(s0, false, 0);
    var s1 := RoundStep(s0, first);
    assert Down("a") in s1.lastSent && s1.lastSent[Down("a")] == 0 && s1.attempts == [Down("a")];
    var s2 := s1.(healthy := map["a" := true]);
    OneBackendRound(s2, false, 2 * MINUTE);
    assert RoundStep(s2, second).attempts == s2.attempts;
    assert rs[..2] == [first, unseen] && rs[..2][..1] == [first] && [first][..0] == [];
    assert After(map["a" := true], [first]) == s1;
    assert After(map["a" := true], [first, unseen]) == s2;
  }

  lemma OneBackendRound(s: State, up: bool, at: Instant)
    ensures ValidRound(OneBackend(true, up, at))
    ensures RoundStep(s, OneBackend(true, up, at))
            == BackendStep(s.(healthy := map["a" := up]), s.healthy, "a", up, 10 * MINUTE, Tick(at, at, true))
  {
    var r := OneBackend(true, up, at);
    assert r.current["a"] == up;
    var s0 := s.(healthy := r.current);
    assert r.order[..0] == [] && r.backendTicks[..0] == [];
    assert BackendSteps(s0, s.healthy, r.current, [], 10 * MINUTE, []) == s0;
    assert BackendSteps(s0, s.healthy, r.current, r.order, 10 * MINUTE, r.backendTicks)
        == BackendStep(s0, s.healthy, "a", up, 10 * MINUTE, Tick(at, at, true));
  }

  // ----- When an observed failure is tried -----

  /** The round is evaluated and sees the backend recover, or fail. */
  predicate SeesRecovery(was: map<string, bool>, r: Round, url: string) {
    Evaluates(r) && url in was && url in r.current && !was[url] && r.current[url]
  }

  predicate SeesFailure(was: map<string, bool>, r: Round, url: string) {
    Evaluates(r) && url in was && url in r.current && was[url] && !r.current[url]
  }

  /** How many notifications had been delivered when a round last saw the backend recover. */
  function AtRecovery(baseline: map<string, bool>, rs: seq<Round>, url: string): nat
    requires ValidRounds(rs)
  {
    if rs == [] then 0
    else
      var prefix := rs[..|rs| - 1];
      if SeesRecovery(After(baseline, prefix).healthy, rs[|rs| - 1], url) then |After(baseline, rs).delivered|
      else AtRecovery(baseline, prefix, url)
  }

  /** The last delivered failure of the backend that no seen recovery has followed. */
  function OpenFailure(baseline: map<string, bool>, rs: seq<Round>, url: string): Option<Instant>
    requires ValidRounds(rs)
  {
    var ds := After(baseline, rs).delivered;
    var from := AtRecovery(baseline, rs, url);
    if from <= |ds| then LastOf(ds[from..], Down(url)) else None
  }

  /** The record of sent alerts knows exactly that failure, `from` counting the deliveries up to the
      recovery. */
  ghost predicate OnRecord(s: State, from: nat, url: string) {
    && from <= |s.delivered|
    && (Down(url) in s.lastSent <==> LastOf(s.delivered[from..], Down(url)).Some?)
    && (Down(url) in s.lastSent ==> LastOf(s.delivered[from..], Down(url)) == Some(s.lastSent[Down(url)]))
  }

  lemma DeliverOnRecord(s: State, key: Key, silence: int, t: Tick, from: nat, url: string)
    requires OnRecord(s, from, url)
    ensures OnRecord(Deliver(s, key, silence, t), from, url)
  {
    var d := Delivery(key, t.sentAt, silence);
    DeliveredLast(s.delivered[from..], d, Down(url));
    assert (s.delivered + [d])[from..] == s.delivered[from..] + [d];
  }

  lemma BackendOnRecord(s: State, prev: map<string, bool>, other: string, now: bool, silence: int, t: Tick, from: nat, url: string)
    requires OnRecord(s, from, url) && !(other == url && url in prev && !prev[url] && now)
    ensures OnRecord(BackendStep(s, prev, other, now, silence, t), from, url)
  {
    DeliverOnRecord(s, Down(other), silence, t, from, url);
    if other in prev && !prev[other] && now {
      DeliverOnRecord(s.(lastSent := s.lastSent - {Down(other)}), Up(other), silence, t, from, url);
    }
  }

  lemma {:induction false} BackendsOnRecord(s: State, prev: map<string, bool>, current: map<string, bool>, order: seq<string>,
                                            silence: int, ticks: seq<Tick>, from: nat, url: string)
    requires |ticks| == |order| && (forall u :: u in order ==> u in current)
    requires OnRecord(s, from, url) && !(url in prev && url in current && !prev[url] && current[url])
    ensures OnRecord(BackendSteps(s, prev, current, order, silence, ticks), from, url)
    decreases |order|
  {
    if order != [] {
      var k := |order| - 1;
      BackendsOnRecord(s, prev, current, order[..k], silence, ticks[..k], from, url);
      BackendOnRecord(BackendSteps(s, prev, current, order[..k], silence, ticks[..k]),
                      prev, order[k], current[order[k]], silence, ticks[k], from, url);
    }
  }

  lemma {:induction false} LatenciesOnRecord(s: State, rules: Rules, averages: seq<Average>, ticks: seq<Tick>, from: nat, url: string)
    requires |ticks| == |averages| && OnRecord(s, from, url)
    ensures OnRecord(LatencySteps(s, rules, averages, ticks), from, url)
    decreases |averages|
  {
    if averages != [] {
      var k := |averages| - 1;
      LatenciesOnRecord(s, rules, averages[..k], ticks[..k], from, url);
      DeliverOnRecord(LatencySteps(s, rules, averages[..k], ticks[..k]), Latency(averages[k].backend),
                      rules.silenceMinutes * MINUTE, ticks[k], from, url);
    }
  }

  lemma RoundOnRecord(s: State, r: Round, from: nat, url: string)
    requires ValidRound(r) && OnRecord(s, from, url) && !SeesRecovery(s.healthy, r, url)
    ensures OnRecord(RoundStep(s, r), from, url)
  {
    if Evaluates(r) {
      var silence := r.rules.silenceMinutes * MINUTE;
      var s0 := s.(healthy := r.current);
      BackendsOnRecord(s0, s.healthy, r.current, r.order, silence, r.backendTicks, from, url);
      var s1 := BackendSteps(s0, s.healthy, r.current, r.order, silence, r.backendTicks);
      DeliverOnRecord(s1, ErrorRate, silence, r.errorTick, from, url);
      var s2 := if ErrorsBreach(r.rules, r.counts) then Fire(s1, ErrorRate, silence, r.errorTick) else s1;
      if r.averages.Some? {
        LatenciesOnRecord(s2, r.rules, r.averages.value, r.latencyTicks, from, url);
      }
    }
  }

  /** Over any run: what is on record about a backend's failure is its last delivery since the last recovery
      that a round saw. */
  lemma {:induction false} RecordIsOpenFailure(baseline: map<string, bool>, rs: seq<Round>, url: string)
    requires ValidRounds(rs)
    ensures OnRecord(After(baseline, rs), AtRecovery(baseline, rs, url), url)
    decreases |rs|
  {
    if rs != [] {
      var prefix, r := rs[..|rs| - 1], rs[|rs| - 1];
      var s := After(baseline, prefix);
      if SeesRecovery(s.healthy, r, url) {
        RoundAbout(s, r, url);
      } else {
        RecordIsOpenFailure(baseline, prefix, url);
        RoundOnRecord(s, r, AtRecovery(baseline, prefix, url), url);
      }
    }
  }

  lemma {:induction false} BackendsKeepSilence(s: State, prev: map<string, bool>, current: map<string, bool>, order: seq<string>,
                                               silence: int, ticks: seq<Tick>, url: string)
    requires |ticks| == |order| && (forall u :: u in order ==> u in current) && url !in order
    ensures var s' := BackendSteps(s, prev, current, order, silence, ticks);
            && (Down(url) in s'.lastSent <==> Down(url) in s.lastSent)
            && (Down(url) in s.lastSent ==> s'.lastSent[Down(url)] == s.lastSent[Down(url)])
    decreases |order|
  {
    if order != [] {
      var k := |order| - 1;
      BackendsKeepSilence(s, prev, current, order[..k], silence, ticks[..k], url);
    }
  }

  lemma BackendTries(s: State, prev: map<string, bool>, url: string, now: bool, silence: int, t: Tick)
    ensures Count(BackendStep(s, prev, url, now, silence, t).attempts, Down(url)) == Count(s.attempts, Down(url)) +
            (if url in prev && prev[url] && !now && !Silent(s, Down(url), silence, t.checkedAt) then 1 else 0)
  {
    CountAppend(s.attempts, Down(url), Down(url));
    CountAppend(s.attempts, Up(url), Down(url));
  }

  /** Within one pass over the backends. */
  lemma {:induction false} BackendsTry(s: State, prev: map<string, bool>, current: map<string, bool>, order: seq<string>,
                                       silence: int, ticks: seq<Tick>, k: nat)
    requires |ticks| == |order| && Distinct(order) && (forall u :: u in order ==> u in current) && k < |order|
    ensures Count(BackendSteps(s, prev, current, order, silence, ticks).attempts, Down(order[k])) == Count(s.attempts, Down(order[k])) +
            (if order[k] in prev && prev[order[k]] && !current[order[k]] && !Silent(s, Down(order[k]), silence, ticks[k].checkedAt) then 1 else 0)
    decreases |order|
  {
    var last := |order| - 1;
    var before := BackendSteps(s, prev, current, order[..last], silence, ticks[..last]);
    if k == last {
      BackendsKeepSilence(s, prev, current, order[..last], silence, ticks[..last], order[k]);
      BackendsElsewhere(s, prev, current, order[..last], silence, ticks[..last], order[k]);
      BackendTries(before, prev, order[k], current[order[k]], silence, ticks[k]);
    } else {
      BackendsTry(s, prev, current, order[..last], silence, ticks[..last], k);
      BackendElsewhere(before, prev, order[last], current[order[last]], silence, ticks[last], order[k]);
    }
  }

  lemma RoundTriesFailure(s: State, r: Round, k: nat)
    requires ValidRound(r) && k < |r.order|
    ensures Count(RoundStep(s, r).attempts, Down(r.order[k])) == Count(s.attempts, Down(r.order[k])) +
            (if SeesFailure(s.healthy, r, r.order[k])
                && !Silent(s, Down(r.order[k]), r.rules.silenceMinutes * MINUTE, r.backendTicks[k].checkedAt) then 1 else 0)
  {
    if Evaluates(r) {
      var url := r.order[k];
      var silence := r.rules.silenceMinutes * MINUTE;
      var s0 := s.(healthy := r.current);
      BackendsTry(s0, s.healthy, r.current, r.order, silence, r.backendTicks, k);
      var s1 := BackendSteps(s0, s.healthy, r.current, r.order, silence, r.backendTicks);
      FireElsewhere(s1, ErrorRate, silence, r.errorTick, url);
      var s2 := if ErrorsBreach(r.rules, r.counts) then Fire(s1, ErrorRate, silence, r.errorTick) else s1;
      if r.averages.Some? {
        LatenciesElsewhere(s2, r.rules, r.averages.value, r.latencyTicks, url);
      }
    }
  }

  /** After any run, a round tries the failure of its k-th backend exactly when it sees it fail and the last
      delivered failure that no seen recovery has followed, if there is one, is at least the silence period
      old. */
  lemma FailureTriedExactly(baseline: map<string, bool>, rs: seq<Round>, r: Round, k: nat)
    requires ValidRounds(rs) && ValidRound(r) && k < |r.order|
    ensures var s, url := After(baseline, rs), r.order[k];
            var open := OpenFailure(baseline, rs, url);
            Count(RoundStep(s, r).attempts, Down(url)) == Count(s.attempts, Down(url)) +
            (if SeesFailure(s.healthy, r, url)
                && !(open.Some? && r.backendTicks[k].checkedAt - open.value < r.rules.silenceMinutes * MINUTE) then 1 else 0)
  {
    RecordIsOpenFailure(baseline, rs, r.order[k]);
    RoundTriesFailure(After(baseline, rs), r, k);
  }

  // ----- The engine -----

  class Engine {
    var lastSent: map<Key, Instant>
    var healthy: map<string, bool>
    ghost var attempts: seq<Key>
    ghost var delivered: seq<Delivery>

    ghost function Value(): State
      reads this
    {
      State(lastSent, healthy, attempts, delivered)
    }

    /** The baseline is taken before the first round. */
    constructor (snapshot: map<string, bool>)
      ensures Value() == Started(snapshot)
    {
      lastSent := map[];
      healthy := snapshot;
      attempts := [];
      delivered := [];
    }

    method RecordBaseline(snapshot: map<string, bool>)
      modifies this
      ensures Value() == old(Value()).(healthy := snapshot)
    {
      healthy := snapshot;
    }

    method DeliverAlert(key: Key, ghost silence: int, t: Tick)
      modifies this
      ensures Value() == Deliver(old(Value()), key, silence, t)
    {
      attempts := attempts + [key];
      if !t.ok {
        return;
      }
      lastSent := lastSent[key := t.sentAt];
      delivered := delivered + [Delivery(key, t.sentAt, silence)];
    }

    method FireAlert(rules: Rules, key: Key, t: Tick)
      modifies this
      ensures Value() == Fire(old(Value()), key, rules.silenceMinutes * MINUTE, t)
    {
      if key in lastSent && t.checkedAt - lastSent[key] < rules.silenceMinutes * MINUTE {
        return;
      }
      DeliverAlert(key, rules.silenceMinutes * MINUTE, t);
    }

    method CheckBackend(rules: Rules, prev: map<string, bool>, url: string, now: bool, t: Tick)
      modifies this
      ensures Value() == BackendStep(old(Value()), prev, url, now, rules.silenceMinutes * MINUTE, t)
    {
      if url !in prev {
        return;
      }
      if prev[url] && !now {
        FireAlert(rules, Down(url), t);
      } else if !prev[url] && now {
        lastSent := lastSent - {Down(url)};
        DeliverAlert(Up(url), rules.silenceMinutes * MINUTE, t);
      }
    }

    method CheckBackends(rules: Rules, current: map<string, bool>, order: seq<string>, ticks: seq<Tick>)
      requires |ticks| == |order| && forall url :: url in order ==> url in current
      modifies this
      ensures Value() == BackendSteps(old(Value()).(healthy := current), old(healthy), current, order, rules.silenceMinutes * MINUTE, ticks)
    {
      var prev := healthy;
      healthy := current;
      ghost var start := Value();
      var i := 0;
      while i < |order|
        invariant i <= |order|
        invariant Value() == BackendSteps(start, prev, current, order[..i], rules.silenceMinutes * MINUTE, ticks[..i])
      {
        CheckBackend(rules, prev, order[i], current[order[i]], ticks[i]);
        assert order[..i + 1][..i] == order[..i] && ticks[..i + 1][..i] == ticks[..i];
        i := i + 1;
      }
      assert order[..i] == order && ticks[..i] == ticks;
    }

    method CheckErrorRate(rules: Rules, counts: Option<Counts>, t: Tick)
      modifies this
      ensures Value() == if rules.errorRatePct > 0.0 && counts.Some? && counts.value.total >= rules.minSample
                            && (counts.value.total == 0
                                || 100.0 * counts.value.errors as real >= rules.errorRatePct * counts.value.total as real)
                         then Fire(old(Value()), ErrorRate, rules.silenceMinutes * MINUTE, t) else old(Value())
    {
      BreachMeans(rules, counts);
      if rules.errorRatePct <= 0.0 || counts.None? {
        return;
      }
      var total, errors := counts.value.total, counts.value.errors;
      if total < rules.minSample || (total != 0 && errors as real / total as real * 100.0 < rules.errorRatePct) {
        return;
      }
      FireAlert(rules, ErrorRate, t);
    }

    method CheckLatency(rules: Rules, averages: Option<seq<Average>>, ticks: seq<Tick>)
      requires averages.Some? ==> |ticks| == |averages.value|
      modifies this
      ensures Value() == CheckedLatency(old(Value()), rules, averages, ticks)
    {
      if rules.latencyMs <= 0 || averages.None? {
        return;
      }
      var list := averages.value;
      ghost var start := Value();
      var i := 0;
      while i < |list|
        invariant i <= |list|
        invariant Value() == LatencySteps(start, rules, list[..i], ticks[..i])
      {
        assert list[..i + 1][..i] == list[..i] && ticks[..i + 1][..i] == ticks[..i];
        if list[i].avgMs >= rules.latencyMs as real {
          FireAlert(rules, Latency(list[i].backend), ticks[i]);
        }
        i := i + 1;
      }
      assert list[..i] == list && ticks[..i] == ticks;
    }

    /** One round: keep the baseline only, or look at the backends, the error rate and the latencies. */
    method Evaluate(r: Round)
      requires ValidRound(r)
      modifies this
      ensures Value() == RoundStep(old(Value()), r)
    {
      if !r.rules.enabled || !r.configured {
        RecordBaseline(r.current);
        return;
      }
      CheckBackends(r.rules, r.current, r.order, r.backendTicks);
      CheckErrorRate(r.rules, r.counts, r.errorTick);
      CheckLatency(r.rules, r.averages, r.latencyTicks);
    }
  }
}
