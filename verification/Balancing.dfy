/** The load balancer: round robin, random and weighted choice over a list of backends with a health
    map that probes update. */
module Balancing {
  import opened Collections

  datatype Backend = Backend(url: string, weight: int, healthPath: string)

  datatype Strategy = RoundRobin | Random | Weighted

  /** A missing key reads as unhealthy. */
  predicate Up(b: Backend, healthy: map<string, bool>) {
    b.url in healthy && healthy[b.url]
  }

  function Flags(backends: seq<Backend>, healthy: map<string, bool>): (flags: seq<bool>)
    ensures |flags| == |backends|
  {
    seq(|backends|, i requires 0 <= i < |backends| => Up(backends[i], healthy))
  }

  // ----- Round robin -----

  /** Cyclic positions: `x` lies less than two turns away. */
  function Wrap(x: nat, n: nat): nat
    requires x < 2 * n
    ensures Wrap(x, n) < n
  {
    if x < n then x else x - n
  }

  lemma WrapIsMod(x: nat, n: nat)
    requires x < 2 * n
    ensures x % n == Wrap(x, n)
  {
    if x < n {
      SmallMod(x, n);
    } else {
      ModPeriod(x - n, n);
      SmallMod(x - n, n);
    }
  }

  lemma SmallMod(x: nat, n: nat)
    requires x < n
    ensures x % n == x
  {
  }

  lemma ModPeriod(x: nat, n: nat)
    requires n > 0
    ensures (x + n) % n == x % n
  {
    var q, r := x / n, x % n;
    assert x + n == (q + 1) * n + r;
    ModUnique(x + n, q + 1, r, n);
  }

  lemma ModUnique(x: nat, q: nat, r: nat, n: nat)
    requires n > 0 && r < n && x == q * n + r
    ensures x % n == r
  {
    var a := x / n;
    assert x == a * n + x % n;
    assert (q + 1) * n == q * n + n && (a + 1) * n == a * n + n;
    if a > q {
      TimesMonotone(q + 1, a, n);
    } else if a < q {
      TimesMonotone(a + 1, q, n);
    }
  }

  /** The position `k` steps after `at`, cyclically, is up. */
  predicate UpAhead(flags: seq<bool>, at: nat, k: nat)
    requires at < |flags| && k < |flags|
  {
    flags[Wrap(at + k, |flags|)]
  }

  /** The position `k` steps before `j`, cyclically, is up. */
  predicate UpBehind(flags: seq<bool>, j: nat, k: nat)
    requires j < |flags| && 1 <= k <= |flags|
  {
    flags[Wrap(j + |flags| - k, |flags|)]
  }

  /** How far the scan from position `at` walks, having walked `i` already; `n` if nothing is up. */
  function Walk(flags: seq<bool>, at: nat, i: nat): (walked: nat)
    requires at < |flags| && i <= |flags|
    ensures i <= walked <= |flags|
    decreases |flags| - i
  {
    if i == |flags| then i
    else if UpAhead(flags, at, i) then i
    else Walk(flags, at, i + 1)
  }

  /** The position chosen for one counter value; the first backend when nothing is up. */
  function RoundRobinPick(flags: seq<bool>, counter: nat): (i: nat)
    requires |flags| > 0
    ensures i < |flags|
  {
    var at := counter % |flags|;
    var walked := Walk(flags, at, 0);
    if walked == |flags| then 0 else Wrap(at + walked, |flags|)
  }

  /** The number of consecutive positions just before `j`, cyclically, that are down, counted from
      distance `d` on. */
  function DownBefore(flags: seq<bool>, j: nat, d: nat): nat
    requires j < |flags| && 1 <= d <= |flags|
    decreases |flags| - d
  {
    if d < |flags| && !UpBehind(flags, j, d) then DownBefore(flags, j, d + 1) else d - 1
  }

  /** The fair share of position `j`: its own turn and the turns of the down positions before it. */
  function Share(flags: seq<bool>, j: nat): nat
    requires j < |flags|
  {
    1 + DownBefore(flags, j, 1)
  }

  function Distance(at: nat, j: nat, n: nat): nat
    requires at < n && j < n
  {
    Wrap(j + n - at, n)
  }

  lemma {:induction false} WalkStops(flags: seq<bool>, at: nat, i: nat, e: nat)
    requires at < |flags| && i <= e <= |flags|
    requires forall k :: i <= k < e ==> !UpAhead(flags, at, k)
    requires e < |flags| ==> UpAhead(flags, at, e)
    ensures Walk(flags, at, i) == e
    decreases e - i
  {
    if i < e {
      WalkStops(flags, at, i + 1, e);
    }
  }

  lemma {:induction false} WalkSound(flags: seq<bool>, at: nat, i: nat)
    requires at < |flags| && i <= |flags|
    ensures forall k :: i <= k < Walk(flags, at, i) ==> !UpAhead(flags, at, k)
    ensures Walk(flags, at, i) < |flags| ==> UpAhead(flags, at, Walk(flags, at, i))
    decreases |flags| - i
  {
    if i < |flags| && !UpAhead(flags, at, i) {
      WalkSound(flags, at, i + 1);
    }
  }

  lemma {:induction false} DownBeforeSound(flags: seq<bool>, j: nat, d: nat)
    requires j < |flags| && 1 <= d <= |flags|
    ensures var g := DownBefore(flags, j, d);
            && d - 1 <= g < |flags|
            && (forall k :: d <= k <= g ==> !UpBehind(flags, j, k))
            && (g + 1 < |flags| ==> UpBehind(flags, j, g + 1))
    decreases |flags| - d
  {
    if d < |flags| && !UpBehind(flags, j, d) {
      DownBeforeSound(flags, j, d + 1);
    }
  }

  /** From a given start, a position that is up is chosen if and only if it is reached over down
      positions only. */
  lemma PickedByDistance(flags: seq<bool>, at: nat, j: nat)
    requires at < |flags| && j < |flags| && flags[j]
    ensures (var walked := Walk(flags, at, 0); walked < |flags| && Wrap(at + walked, |flags|) == j)
            <==> Distance(at, j, |flags|) <= DownBefore(flags, j, 1)
  {
    var n := |flags|;
    var e := Distance(at, j, n);
    var g := DownBefore(flags, j, 1);
    DownBeforeSound(flags, j, 1);
    if e <= g {
      forall k | 0 <= k < e
        ensures !UpAhead(flags, at, k)
      {
        SamePosition(flags, at, j, k);
      }
      WalkStops(flags, at, 0, e);
    } else {
      WalkSound(flags, at, 0);
      SamePosition(flags, at, j, e - (g + 1));
    }
  }

  /** Walking from `at` to `j` one passes the positions behind `j`. */
  lemma SamePosition(flags: seq<bool>, at: nat, j: nat, k: nat)
    requires at < |flags| && j < |flags| && k < Distance(at, j, |flags|)
    ensures UpAhead(flags, at, k) == UpBehind(flags, j, Distance(at, j, |flags|) - k)
  {
  }

  /** How often `j` is chosen over the counter values `start .. stop` (`stop` excluded). */
  function Hits(flags: seq<bool>, j: nat, start: nat, stop: nat): nat
    requires |flags| > 0 && start <= stop
    decreases stop
  {
    if start == stop then 0
    else Hits(flags, j, start, stop - 1) + (if RoundRobinPick(flags, stop - 1) == j then 1 else 0)
  }

  lemma {:induction false} HitsFromFront(flags: seq<bool>, j: nat, start: nat, stop: nat)
    requires |flags| > 0 && start < stop
    ensures Hits(flags, j, start, stop) == (if RoundRobinPick(flags, start) == j then 1 else 0) + Hits(flags, j, start + 1, stop)
    decreases stop - start
  {
    if start + 1 < stop {
      HitsFromFront(flags, j, start, stop - 1);
    }
  }

  lemma TurnsAlike(flags: seq<bool>, j: nat, start: nat)
    requires |flags| > 0
    ensures Hits(flags, j, start, start + |flags|) == Hits(flags, j, start + 1, start + 1 + |flags|)
  {
    var n := |flags|;
    HitsFromFront(flags, j, start, start + n);
    ModPeriod(start, n);
    assert RoundRobinPick(flags, start + n) == RoundRobinPick(flags, start);
  }

  lemma {:induction false} AnyTurn(flags: seq<bool>, j: nat, a: nat, b: nat)
    requires |flags| > 0 && a <= b
    ensures Hits(flags, j, a, a + |flags|) == Hits(flags, j, b, b + |flags|)
    decreases b - a
  {
    if a < b {
      TurnsAlike(flags, j, a);
      AnyTurn(flags, j, a + 1, b);
    }
  }

  lemma PickFrom(flags: seq<bool>, counter: nat, at: nat, j: nat)
    requires j < |flags| && flags[j] && at < |flags| && counter % |flags| == at
    ensures RoundRobinPick(flags, counter) == j <==> Distance(at, j, |flags|) <= DownBefore(flags, j, 1)
  {
    PickedByDistance(flags, at, j);
    SomeIsFound(flags, at, j);
  }

  lemma DistanceAfter(j: nat, k: nat, n: nat)
    requires j < n && k < n
    ensures Distance(Wrap(j + 1 + k, n), j, n) == n - 1 - k
  {
  }

  lemma PickAfter(flags: seq<bool>, j: nat, k: nat)
    requires j < |flags| && flags[j] && k < |flags|
    ensures RoundRobinPick(flags, j + 1 + k) == j <==> |flags| - 1 - k <= DownBefore(flags, j, 1)
  {
    var n := |flags|;
    WrapIsMod(j + 1 + k, n);
    DistanceAfter(j, k, n);
    PickFrom(flags, j + 1 + k, Wrap(j + 1 + k, n), j);
  }

  lemma SomeIsFound(flags: seq<bool>, at: nat, j: nat)
    requires at < |flags| && j < |flags| && flags[j]
    ensures Walk(flags, at, 0) < |flags|
  {
    WalkSound(flags, at, 0);
    assert UpAhead(flags, at, Distance(at, j, |flags|));
  }

  lemma {:induction false} HitsAfter(flags: seq<bool>, j: nat, k: nat)
    requires j < |flags| && flags[j] && k <= |flags|
    ensures var quiet := |flags| - Share(flags, j);
            quiet >= 0 && Hits(flags, j, j + 1, j + 1 + k) == if k <= quiet then 0 else k - quiet
    decreases k
  {
    DownBeforeSound(flags, j, 1);
    if k > 0 {
      HitsAfter(flags, j, k - 1);
      PickAfter(flags, j, k - 1);
    }
  }

  /** Exact share: over any `n` consecutive counter values, a backend that is up is chosen exactly once
      for itself and once for each of the down backends cyclically just before it. */
  lemma RoundRobinShare(flags: seq<bool>, j: nat, start: nat)
    requires j < |flags| && flags[j]
    ensures Hits(flags, j, start, start + |flags|) == Share(flags, j)
  {
    HitsAfter(flags, j, |flags|);
    if start <= j + 1 {
      AnyTurn(flags, j, start, j + 1);
    } else {
      AnyTurn(flags, j, j + 1, start);
    }
  }

  /** A backend that is down is never chosen while another one is up. */
  lemma DownNeverChosen(flags: seq<bool>, counter: nat, up: nat)
    requires up < |flags| && flags[up]
    ensures flags[RoundRobinPick(flags, counter)]
  {
    var at := counter % |flags|;
    WalkSound(flags, at, 0);
    SomeIsFound(flags, at, up);
  }

  /** The backend that the scan tests after `i` steps. */
  lemma CandidateUp(backends: seq<Backend>, healthy: map<string, bool>, at: nat, i: nat)
    requires at < |backends| && i < |backends|
    ensures (at + i) % |backends| == Wrap(at + i, |backends|)
    ensures Up(backends[(at + i) % |backends|], healthy) == UpAhead(Flags(backends, healthy), at, i)
  {
    WrapIsMod(at + i, |backends|);
  }

  // ----- Weighted choice -----

  /** The weight that counts: zero unless the backend is up and its weight positive. */
  function Effective(b: Backend, healthy: map<string, bool>): nat {
    if Up(b, healthy) && b.weight > 0 then b.weight else 0
  }

  function Weights(backends: seq<Backend>, healthy: map<string, bool>): (ws: seq<nat>)
    ensures |ws| == |backends|
  {
    seq(|backends|, i requires 0 <= i < |backends| => Effective(backends[i], healthy))
  }

  /** The sum of the first `k` weights. */
  function Sum(ws: seq<nat>, k: nat): nat
    requires k <= |ws|
  {
    if k == 0 then 0 else Sum(ws, k - 1) + ws[k - 1]
  }

  /** The entry that the subtracting scan selects for the drawn number: the one whose stretch of the
      number line holds it. */
  ghost predicate Selects(ws: seq<nat>, p: int, j: nat) {
    j < |ws| && Sum(ws, j) <= p < Sum(ws, j + 1)
  }

  lemma {:induction false} SumMonotone(ws: seq<nat>, a: nat, b: nat)
    requires a <= b <= |ws|
    ensures Sum(ws, a) <= Sum(ws, b)
    decreases b
  {
    if a < b {
      SumMonotone(ws, a, b - 1);
    }
  }

  lemma SelectsOne(ws: seq<nat>, p: int, i: nat, j: nat)
    requires Selects(ws, p, i) && Selects(ws, p, j)
    ensures i == j
  {
    if i < j {
      SumMonotone(ws, i + 1, j);
    } else if j < i {
      SumMonotone(ws, j + 1, i);
    }
  }

  /** The scan of the source: subtract each weight in turn until the number is negative. */
  function Scan(ws: seq<nat>, p: int, i: nat): nat
    requires i <= |ws|
    decreases |ws| - i
  {
    if i == |ws| then i
    else if p - ws[i] < 0 then i
    else Scan(ws, p - ws[i], i + 1)
  }

  lemma {:induction false} ScanSelects(ws: seq<nat>, p: int, i: nat)
    requires i <= |ws| && 0 <= p && Sum(ws, i) + p < Sum(ws, |ws|)
    ensures Selects(ws, Sum(ws, i) + p, Scan(ws, p, i))
    decreases |ws| - i
  {
    if i < |ws| && p - ws[i] >= 0 {
      ScanSelects(ws, p - ws[i], i + 1);
    }
  }

  /** For how many of the drawn numbers `0 .. limit` the scan selects `j`. */
  function Draws(ws: seq<nat>, j: nat, limit: nat): nat {
    if limit == 0 then 0 else Draws(ws, j, limit - 1) + (if Scan(ws, limit - 1, 0) == j then 1 else 0)
  }

  lemma {:induction false} DrawsSoFar(ws: seq<nat>, j: nat, limit: nat)
    requires j < |ws| && limit <= Sum(ws, |ws|)
    ensures Draws(ws, j, limit) == if limit <= Sum(ws, j) then 0
                                   else if limit >= Sum(ws, j + 1) then ws[j] else limit - Sum(ws, j)
    decreases limit
  {
    if limit > 0 {
      DrawsSoFar(ws, j, limit - 1);
      var p := limit - 1;
      ScanSelects(ws, p, 0);
      if Selects(ws, p, j) {
        SelectsOne(ws, p, j, Scan(ws, p, 0));
      }
    }
  }

  /** Exact weighted share: over all numbers that can be drawn, every entry is selected for exactly as
      many of them as its effective weight, and the scan never falls off the end. */
  lemma WeightedShare(ws: seq<nat>, j: nat)
    requires j < |ws|
    ensures Draws(ws, j, Sum(ws, |ws|)) == ws[j]
    ensures forall p :: 0 <= p < Sum(ws, |ws|) ==> Scan(ws, p, 0) < |ws| && ws[Scan(ws, p, 0)] > 0
  {
    SumMonotone(ws, j + 1, |ws|);
    DrawsSoFar(ws, j, Sum(ws, |ws|));
    forall p | 0 <= p < Sum(ws, |ws|)
      ensures Scan(ws, p, 0) < |ws| && ws[Scan(ws, p, 0)] > 0
    {
      ScanSelects(ws, p, 0);
    }
  }

  // ----- Random choice -----

  /** The urls of the backends that are up among the first `k`, in list order. */
  function UpUrls(backends: seq<Backend>, healthy: map<string, bool>, k: nat): seq<string>
    requires k <= |backends|
  {
    if k == 0 then []
    else UpUrls(backends, healthy, k - 1) + (if Up(backends[k - 1], healthy) then [backends[k - 1].url] else [])
  }

  /** Every backend that is up is chosen by exactly one draw: the one that counts the up backends before
      it; and there are no other draws. */
  lemma {:induction false} RandomShare(backends: seq<Backend>, healthy: map<string, bool>, j: nat, k: nat)
    requires j < k <= |backends| && Up(backends[j], healthy)
    ensures var draw := |UpUrls(backends, healthy, j)|;
            draw < |UpUrls(backends, healthy, k)| && UpUrls(backends, healthy, k)[draw] == backends[j].url
    decreases k
  {
    if j + 1 < k {
      RandomShare(backends, healthy, j, k - 1);
    }
  }

  lemma {:induction false} UpUrlsAreUp(backends: seq<Backend>, healthy: map<string, bool>, k: nat, draw: nat) returns (j: nat)
    requires k <= |backends| && draw < |UpUrls(backends, healthy, k)|
    ensures j < k && Up(backends[j], healthy)
    ensures backends[j].url == UpUrls(backends, healthy, k)[draw] && draw == |UpUrls(backends, healthy, j)|
    decreases k
  {
    if draw < |UpUrls(backends, healthy, k - 1)| {
      j := UpUrlsAreUp(backends, healthy, k - 1, draw);
    } else {
      j := k - 1;
    }
  }

  // ----- The balancer object -----

  const INT64_LIMIT: nat := 0x8000_0000_0000_0000
  const UINT64_LIMIT: nat := 0x1_0000_0000_0000_0000

  /** What Next returns; an index out of range crashes the process. */
  datatype Choice = Chosen(url: string) | Crash

  /** Round robin for a 64-bit counter: read as a signed number, the upper half is negative, its
      remainder is not positive, and a negative index crashes. */
  function RoundRobinChoice(backends: seq<Backend>, healthy: map<string, bool>, counter: nat): Choice
    requires |backends| > 0 && counter < UINT64_LIMIT
  {
    var flags := Flags(backends, healthy);
    if counter < INT64_LIMIT then Chosen(backends[RoundRobinPick(flags, counter)].url)
    else if (UINT64_LIMIT - counter) % |backends| != 0 then Crash
    else Chosen(backends[RoundRobinPick(flags, 0)].url)
  }

  function RandomChoice(backends: seq<Backend>, healthy: map<string, bool>, intn: int -> int): Choice
    requires |backends| > 0
    requires forall n :: n > 0 ==> 0 <= intn(n) < n
  {
    var up := UpUrls(backends, healthy, |backends|);
    Chosen(if up == [] then backends[intn(|backends|)].url else up[intn(|up|)])
  }

  function WeightedChoice(backends: seq<Backend>, healthy: map<string, bool>, intn: int -> int): Choice
    requires forall n :: n > 0 ==> 0 <= intn(n) < n
  {
    var ws := Weights(backends, healthy);
    var total := Sum(ws, |ws|);
    var j := if total > 0 then Scan(ws, intn(total), 0) else |ws|;
    Chosen(if j < |ws| then backends[j].url else "")
  }

  // ----- What the choices return -----

  /** How many of the draws `0 .. limit` return the url. */
  ghost function Times(choice: nat -> Choice, url: string, limit: nat): nat {
    if limit == 0 then 0 else Times(choice, url, limit - 1) + (if choice(limit - 1) == Chosen(url) then 1 else 0)
  }

  /** The random number `d`, wherever it may be drawn. */
  function Draw(d: nat): (intn: int -> int)
    ensures forall n :: n > 0 ==> 0 <= intn(n) < n
    ensures forall n :: d < n ==> intn(n) == d
  {
    n => if d < n then d else 0
  }

  /** The settings accept no list in which an address is repeated. */
  ghost predicate DistinctUrls(backends: seq<Backend>) {
    forall i, j :: 0 <= i < j < |backends| ==> backends[i].url != backends[j].url
  }

  lemma {:induction false} SumPositive(ws: seq<nat>, k: nat) returns (j: nat)
    requires k <= |ws| && Sum(ws, k) > 0
    ensures j < k && ws[j] > 0
    decreases k
  {
    if ws[k - 1] > 0 {
      j := k - 1;
    } else {
      j := SumPositive(ws, k - 1);
    }
  }

  /** The weighted choice returns a backend that is up and has a positive weight, and nothing if and only if
      there is none. */
  lemma WeightedIsUp(backends: seq<Backend>, healthy: map<string, bool>, intn: int -> int)
    requires forall n :: n > 0 ==> 0 <= intn(n) < n
    ensures var r := WeightedChoice(backends, healthy, intn);
            if exists j :: 0 <= j < |backends| && backends[j].url in healthy && healthy[backends[j].url] && backends[j].weight > 0
            then exists j :: 0 <= j < |backends| && r == Chosen(backends[j].url)
                             && backends[j].url in healthy && healthy[backends[j].url] && backends[j].weight > 0
            else r == Chosen("")
  {
    var ws := Weights(backends, healthy);
    var total := Sum(ws, |ws|);
    if total > 0 {
      var k := SumPositive(ws, |ws|);
      WeightedShare(ws, k);
      var j := Scan(ws, intn(total), 0);
      assert ws[j] > 0 && backends[j].url in healthy && healthy[backends[j].url] && backends[j].weight > 0;
    } else {
      forall j | 0 <= j < |backends|
        ensures ws[j] == 0
      {
        SumMonotone(ws, j + 1, |ws|);
      }
      assert forall j :: 0 <= j < |backends| ==> ws[j] == Effective(backends[j], healthy);
    }
  }

  lemma {:induction false} WeightedDraws(backends: seq<Backend>, healthy: map<string, bool>, j: nat, limit: nat)
    requires DistinctUrls(backends) && j < |backends|
    requires limit <= Sum(Weights(backends, healthy), |backends|)
    ensures Times((d: nat) => WeightedChoice(backends, healthy, Draw(d)), backends[j].url, limit)
         == Draws(Weights(backends, healthy), j, limit)
    decreases limit
  {
    if limit > 0 {
      var ws := Weights(backends, healthy);
      var d: nat := limit - 1;
      WeightedDraws(backends, healthy, j, d);
      ScanSelects(ws, d, 0);
      assert WeightedChoice(backends, healthy, Draw(d)) == Chosen(backends[Scan(ws, d, 0)].url);
    }
  }

  /** Exact weighted share, said on the backends: over all numbers that can be drawn, a backend that is up is
      returned as often as its weight says, if that is positive, and any other backend never. */
  lemma WeightedIsFair(backends: seq<Backend>, healthy: map<string, bool>, j: nat)
    requires DistinctUrls(backends) && j < |backends|
    ensures var b, total := backends[j], Sum(Weights(backends, healthy), |backends|);
            Times((d: nat) => WeightedChoice(backends, healthy, Draw(d)), b.url, total)
            == if b.url in healthy && healthy[b.url] && b.weight > 0 then b.weight else 0
  {
    var ws := Weights(backends, healthy);
    WeightedDraws(backends, healthy, j, Sum(ws, |ws|));
    WeightedShare(ws, j);
  }

  /** The random choice returns a backend that is up if there is one, and any of the list otherwise. */
  lemma RandomIsUp(backends: seq<Backend>, healthy: map<string, bool>, intn: int -> int)
    requires |backends| > 0 && forall n :: n > 0 ==> 0 <= intn(n) < n
    ensures var r := RandomChoice(backends, healthy, intn);
            if exists j :: 0 <= j < |backends| && backends[j].url in healthy && healthy[backends[j].url]
            then exists j :: 0 <= j < |backends| && r == Chosen(backends[j].url)
                             && backends[j].url in healthy && healthy[backends[j].url]
            else r == Chosen(backends[intn(|backends|)].url)
  {
    var n := |backends|;
    var up := UpUrls(backends, healthy, n);
    if up == [] {
      if j: nat :| j < n && backends[j].url in healthy && healthy[backends[j].url] {
        RandomShare(backends, healthy, j, n);
      }
    } else {
      var j := UpUrlsAreUp(backends, healthy, n, intn(|up|));
      assert backends[j].url in healthy && healthy[backends[j].url];
    }
  }

  lemma {:induction false} RandomDraws(backends: seq<Backend>, healthy: map<string, bool>, j: nat, limit: nat)
    requires DistinctUrls(backends) && j < |backends| && backends[j].url in healthy && healthy[backends[j].url]
    requires limit <= |UpUrls(backends, healthy, |backends|)|
    ensures Times((d: nat) => RandomChoice(backends, healthy, Draw(d)), backends[j].url, limit)
         == if limit <= |UpUrls(backends, healthy, j)| then 0 else 1
    decreases limit
  {
    if limit > 0 {
      var n, d: nat := |backends|, limit - 1;
      RandomDraws(backends, healthy, j, d);
      RandomShare(backends, healthy, j, n);
      var i := UpUrlsAreUp(backends, healthy, n, d);
      assert RandomChoice(backends, healthy, Draw(d)) == Chosen(backends[i].url);
      assert backends[i].url == backends[j].url ==> i == j;
    }
  }

  /** Each of the backends that are up is returned by exactly one of the numbers that can be drawn, of which
      there are as many as such backends. */
  lemma RandomIsFair(backends: seq<Backend>, healthy: map<string, bool>, j: nat)
    requires DistinctUrls(backends) && j < |backends| && backends[j].url in healthy && healthy[backends[j].url]
    ensures Times((d: nat) => RandomChoice(backends, healthy, Draw(d)), backends[j].url, |UpUrls(backends, healthy, |backends|)|) == 1
    ensures |UpUrls(backends, healthy, |backends|)|
         == |set i | 0 <= i < |backends| && backends[i].url in healthy && healthy[backends[i].url]|
  {
    RandomShare(backends, healthy, j, |backends|);
    RandomDraws(backends, healthy, j, |UpUrls(backends, healthy, |backends|)|);
    UpCount(backends, healthy, |backends|);
  }

  lemma {:induction false} UpCount(backends: seq<Backend>, healthy: map<string, bool>, k: nat)
    requires k <= |backends|
    ensures |UpUrls(backends, healthy, k)| == |set i | 0 <= i < k && backends[i].url in healthy && healthy[backends[i].url]|
    decreases k
  {
    if k > 0 {
      UpCount(backends, healthy, k - 1);
      var before := set i | 0 <= i < k - 1 && backends[i].url in healthy && healthy[backends[i].url];
      var all := set i | 0 <= i < k && backends[i].url in healthy && healthy[backends[i].url];
      assert all == before + (if Up(backends[k - 1], healthy) then {k - 1} else {});
    }
  }

  /** Round robin returns the backend whose turn it is if that is up, and a backend that is up in any case if
      there is one; a counter in the upper half crashes unless its distance to the end is a multiple of the
      number of backends. */
  lemma RoundRobinIsUp(backends: seq<Backend>, healthy: map<string, bool>, counter: nat)
    requires |backends| > 0 && counter < UINT64_LIMIT
    ensures var n := |backends|;
            var r := RoundRobinChoice(backends, healthy, counter);
            && (r == Crash <==> counter >= 0x8000_0000_0000_0000 && (0x1_0000_0000_0000_0000 - counter) % n != 0)
            && (r.Chosen? ==>
                  var own := backends[if counter < 0x8000_0000_0000_0000 then counter % n else 0];
                  if own.url in healthy && healthy[own.url] then r.url == own.url
                  else if exists j :: 0 <= j < n && backends[j].url in healthy && healthy[backends[j].url]
                  then exists j :: 0 <= j < n && r.url == backends[j].url && backends[j].url in healthy && healthy[backends[j].url]
                  else r.url == backends[0].url)
  {
    var n := |backends|;
    if RoundRobinChoice(backends, healthy, counter).Chosen? {
      SmallMod(0, n);
      PickIsUp(backends, healthy, if counter < INT64_LIMIT then counter else 0);
    }
  }

  lemma PickIsUp(backends: seq<Backend>, healthy: map<string, bool>, counter: nat)
    requires |backends| > 0
    ensures var n, i := |backends|, RoundRobinPick(Flags(backends, healthy), counter);
            if Up(backends[counter % n], healthy) then i == counter % n
            else if exists j :: 0 <= j < n && Up(backends[j], healthy) then Up(backends[i], healthy)
            else i == 0
  {
    var flags, at := Flags(backends, healthy), counter % |backends|;
    assert forall j :: 0 <= j < |flags| ==> flags[j] == Up(backends[j], healthy);
    WalkSound(flags, at, 0);
    if flags[at] {
      assert UpAhead(flags, at, 0);
    } else if j: nat :| j < |flags| && flags[j] {
      DownNeverChosen(flags, counter, j);
    }
  }

  /** The backend `k` places before the `j`-th one in the circle. */
  function PlacesBefore(backends: seq<Backend>, j: nat, k: nat): Backend
    requires j < |backends| && k <= |backends|
  {
    backends[if j >= k then j - k else j + |backends| - k]
  }

  lemma FlagBehind(backends: seq<Backend>, healthy: map<string, bool>, j: nat, k: nat)
    requires j < |backends| && 1 <= k <= |backends|
    ensures UpBehind(Flags(backends, healthy), j, k) == Up(PlacesBefore(backends, j, k), healthy)
  {
  }

  lemma DownBeforeBackends(backends: seq<Backend>, healthy: map<string, bool>, j: nat, down: nat)
    requires j < |backends| && down < |backends|
    requires forall k :: 1 <= k <= down ==> !Up(PlacesBefore(backends, j, k), healthy)
    requires down + 1 < |backends| ==> Up(PlacesBefore(backends, j, down + 1), healthy)
    ensures DownBefore(Flags(backends, healthy), j, 1) == down
  {
    var flags := Flags(backends, healthy);
    forall k | 1 <= k <= down
      ensures !UpBehind(flags, j, k)
    {
      FlagBehind(backends, healthy, j, k);
      assert !Up(PlacesBefore(backends, j, k), healthy);
    }
    if down + 1 < |flags| {
      FlagBehind(backends, healthy, j, down + 1);
    }
    DownBeforeIs(flags, j, 1, down);
  }

  /** Exact round-robin share, said on the backends: of any `n` consecutive calls below the signed limit, a
      backend that is up gets its own and one for each of the `down` backends just before it in the circle. */
  lemma RoundRobinIsFair(backends: seq<Backend>, healthy: map<string, bool>, j: nat, start: nat, down: nat)
    requires DistinctUrls(backends) && j < |backends| && start + |backends| <= INT64_LIMIT
    requires backends[j].url in healthy && healthy[backends[j].url] && down < |backends|
    requires forall k :: 1 <= k <= down ==>
               var b := PlacesBefore(backends, j, k); !(b.url in healthy && healthy[b.url])
    requires down + 1 < |backends| ==>
               var b := PlacesBefore(backends, j, down + 1); b.url in healthy && healthy[b.url]
    ensures Times((i: nat) => RoundRobinAt(backends, healthy, start + i), backends[j].url, |backends|) == 1 + down
  {
    RoundRobinTurns(backends, healthy, j, start);
    assert DownBefore(Flags(backends, healthy), j, 1) == down by {
      forall k | 1 <= k <= down
        ensures !Up(PlacesBefore(backends, j, k), healthy)
      {
        var b := PlacesBefore(backends, j, k);
        assert !(b.url in healthy && healthy[b.url]);
      }
      DownBeforeBackends(backends, healthy, j, down);
    }
  }

  lemma RoundRobinTurns(backends: seq<Backend>, healthy: map<string, bool>, j: nat, start: nat)
    requires DistinctUrls(backends) && j < |backends| && start + |backends| <= INT64_LIMIT && Up(backends[j], healthy)
    ensures Times((i: nat) => RoundRobinAt(backends, healthy, start + i), backends[j].url, |backends|)
         == 1 + DownBefore(Flags(backends, healthy), j, 1)
  {
    var flags := Flags(backends, healthy);
    RoundRobinShare(flags, j, start);
    RoundRobinHits(backends, healthy, j, start, |backends|);
  }

  lemma {:induction false} DownBeforeIs(flags: seq<bool>, j: nat, d: nat, down: nat)
    requires j < |flags| && 1 <= d <= down + 1 <= |flags|
    requires forall k :: d <= k <= down ==> !UpBehind(flags, j, k)
    requires down + 1 < |flags| ==> UpBehind(flags, j, down + 1)
    ensures DownBefore(flags, j, d) == down
    decreases down - d
  {
    if d <= down {
      DownBeforeIs(flags, j, d + 1, down);
    }
  }

  function RoundRobinAt(backends: seq<Backend>, healthy: map<string, bool>, counter: nat): Choice {
    if |backends| > 0 && counter < UINT64_LIMIT then RoundRobinChoice(backends, healthy, counter) else Crash
  }

  lemma {:induction false} RoundRobinHits(backends: seq<Backend>, healthy: map<string, bool>, j: nat, start: nat, k: nat)
    requires DistinctUrls(backends) && j < |backends| && start + k <= INT64_LIMIT
    ensures Times((i: nat) => RoundRobinAt(backends, healthy, start + i), backends[j].url, k)
         == Hits(Flags(backends, healthy), j, start, start + k)
    decreases k
  {
    if k > 0 {
      RoundRobinHits(backends, healthy, j, start, k - 1);
      var i := RoundRobinPick(Flags(backends, healthy), start + k - 1);
      assert RoundRobinAt(backends, healthy, start + (k - 1)) == Chosen(backends[i].url);
      assert backends[i].url == backends[j].url ==> i == j;
    }
  }

  function ParseStrategy(s: string): (r: Strategy) {
    if s == "random" then Random else if s == "weighted" then Weighted else RoundRobin
  }

  class Balancer {
    var strategy: Strategy
    var backends: seq<Backend>
    var healthy: map<string, bool>
    var counter: nat

    /** The health map speaks about exactly the configured backends. */
    ghost predicate Valid()
      reads this
    {
      && healthy.Keys == (set b | b in backends :: b.url)
      && counter < UINT64_LIMIT
    }

    constructor (strategy: string, backends: seq<Backend>)
      ensures Valid() && this.backends == backends && counter == 0
      ensures this.strategy == if strategy == "random" then Random else if strategy == "weighted" then Weighted else RoundRobin
      ensures forall url :: url in healthy ==> healthy[url]
    {
      this.strategy := ParseStrategy(strategy);
      this.backends := backends;
      healthy := map b | b in backends :: b.url := true;
      counter := 0;
    }

    /** `intn(n)` is the random number below `n` that the call draws. */
    method Next(intn: int -> int) returns (r: Choice)
      requires Valid()
      requires forall n :: n > 0 ==> 0 <= intn(n) < n
      modifies this`counter
      ensures Valid()
      ensures backends == [] ==> r == Chosen("")
      ensures backends != [] ==>
                r == match strategy
                     case Random => RandomChoice(backends, healthy, intn)
                     case Weighted => WeightedChoice(backends, healthy, intn)
                     case RoundRobin => RoundRobinChoice(backends, healthy, old(counter))
      ensures r.Chosen? && (exists j :: 0 <= j < |backends| && backends[j].url in healthy && healthy[backends[j].url]
                                        && (strategy.Weighted? ==> backends[j].weight > 0)) ==>
                exists j :: 0 <= j < |backends| && r.url == backends[j].url && backends[j].url in healthy && healthy[backends[j].url]
                            && (strategy.Weighted? ==> backends[j].weight > 0)
      ensures counter == if backends != [] && strategy.RoundRobin? then (old(counter) + 1) % UINT64_LIMIT else old(counter)
    {
      if |backends| == 0 {
        return Chosen("");
      }
      match strategy {
        case Random =>
          r := NextRandom(intn);
          RandomIsUp(backends, healthy, intn);
        case Weighted =>
          r := NextWeighted(intn);
          WeightedIsUp(backends, healthy, intn);
        case RoundRobin =>
          var current := counter;
          counter := (counter + 1) % UINT64_LIMIT;
          r := NextRoundRobin(current);
          RoundRobinIsUp(backends, healthy, current);
      }
    }

    method NextRandom(intn: int -> int) returns (r: Choice)
      requires |backends| > 0
      requires forall n :: n > 0 ==> 0 <= intn(n) < n
      ensures r == RandomChoice(backends, healthy, intn)
    {
      var up := [];
      for i := 0 to |backends|
        invariant up == UpUrls(backends, healthy, i)
      {
        if backends[i].url in healthy && healthy[backends[i].url] {
          up := up + [backends[i].url];
        }
      }
      if |up| == 0 {
        return Chosen(backends[intn(|backends|)].url);
      }
      r := Chosen(up[intn(|up|)]);
    }

    method NextWeighted(intn: int -> int) returns (r: Choice)
      requires forall n :: n > 0 ==> 0 <= intn(n) < n
      ensures r == WeightedChoice(backends, healthy, intn)
    {
      ghost var ws := Weights(backends, healthy);
      var total := 0;
      for i := 0 to |backends|
        invariant total == Sum(ws, i)
      {
        if backends[i].url in healthy && healthy[backends[i].url] && backends[i].weight > 0 {
          total := total + backends[i].weight;
        }
      }
      if total == 0 {
        return Chosen("");
      }
      var p := intn(total);
      ghost var drawn := p;
      ScanSelects(ws, drawn, 0);
      for i := 0 to |backends|
        invariant 0 <= p && Scan(ws, drawn, 0) == Scan(ws, p, i)
      {
        if !(backends[i].url in healthy && healthy[backends[i].url]) || backends[i].weight <= 0 {
          continue;
        }
        p := p - backends[i].weight;
        if p < 0 {
          return Chosen(backends[i].url);
        }
      }
      assert false;
      r := Chosen("");
    }

    method NextRoundRobin(current: nat) returns (r: Choice)
      requires |backends| > 0 && current < UINT64_LIMIT
      ensures r == RoundRobinChoice(backends, healthy, current)
    {
      var n := |backends|;
      if current >= INT64_LIMIT && (UINT64_LIMIT - current) % n != 0 {
        return Crash;
      }
      var idx := if current < INT64_LIMIT then current % n else 0;
      ghost var flags := Flags(backends, healthy);
      SmallMod(0, n);
      for i := 0 to n
        invariant Walk(flags, idx, 0) == Walk(flags, idx, i)
      {
        CandidateUp(backends, healthy, idx, i);
        var candidate := backends[(idx + i) % n];
        if candidate.url in healthy && healthy[candidate.url] {
          return Chosen(candidate.url);
        }
      }
      r := Chosen(backends[0].url);
    }

    method MarkDown(url: string)
      requires Valid()
      modifies this`healthy
      ensures Valid() && healthy == if url in old(healthy) then old(healthy)[url := false] else old(healthy)
    {
      if url in healthy {
        healthy := healthy[url := false];
      }
    }

    method MarkUp(url: string)
      requires Valid()
      modifies this`healthy
      ensures Valid() && healthy == if url in old(healthy) then old(healthy)[url := true] else old(healthy)
    {
      if url in healthy {
        healthy := healthy[url := true];
      }
    }

    /** Replaces the list; every backend starts healthy again, also one that was down. */
    method SetBackends(backends: seq<Backend>)
      modifies this`backends, this`healthy
      requires counter < UINT64_LIMIT
      ensures Valid() && this.backends == backends
      ensures forall b :: b in backends ==> Up(b, healthy)
    {
      var fresh' := map[];
      for i := 0 to |backends|
        invariant fresh'.Keys == (set b | b in backends[..i] :: b.url)
        invariant forall url :: url in fresh' ==> fresh'[url]
      {
        fresh' := fresh'[backends[i].url := true];
        assert backends[..i + 1] == backends[..i] + [backends[i]];
      }
      assert backends[..|backends|] == backends;
      this.backends := backends;
      healthy := fresh';
    }

    method SetStrategy(strategy: string) returns (ok: bool)
      modifies this`strategy
      ensures ok <==> strategy in {"round_robin", "random", "weighted"}
      ensures !ok ==> this.strategy == old(this.strategy)
      ensures strategy == "round_robin" ==> this.strategy == RoundRobin
      ensures strategy == "random" ==> this.strategy == Random
      ensures strategy == "weighted" ==> this.strategy == Weighted
    {
      if strategy != "round_robin" && strategy != "random" && strategy != "weighted" {
        return false;
      }
      this.strategy := ParseStrategy(strategy);
      ok := true;
    }
  }

  /** The outcome of a probe: no answer and server errors count as down. */
  method ApplyProbe(b: Balancer, url: string, answered: bool, status: int)
    requires b.Valid()
    modifies b`healthy
    ensures b.Valid()
    ensures b.healthy == if url in old(b.healthy) then old(b.healthy)[url := answered && status < 500] else old(b.healthy)
  {
    if answered && status < 500 {
      b.MarkUp(url);
    } else {
      b.MarkDown(url);
    }
  }
}
