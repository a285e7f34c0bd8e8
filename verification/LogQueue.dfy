/** The asynchronous log writer: request handlers append to a bounded buffer under a lock and leave a
    wake-up token in a channel of capacity one; a single flusher takes whole batches to the database.
    Every lock section and every channel operation is one step. */
module LogQueue {

  datatype Record = Record(text: string)

  const FLUSH_BATCH: nat := 100

  // ----- The lock sections, as functions of the buffer -----

  /** How many of the oldest records a write evicts; a non-positive capacity means unlimited. */
  function Evictions(buffered: nat, capacity: int): (drop: nat)
    ensures drop <= buffered
    ensures capacity > 0 && buffered >= capacity ==> drop > 0
  {
    if capacity > 0 && buffered >= capacity then
      if FLUSH_BATCH > buffered then buffered else FLUSH_BATCH
    else 0
  }

  function Appended(buffer: seq<Record>, rec: Record, capacity: int): seq<Record> {
    buffer[Evictions(|buffer|, capacity)..] + [rec]
  }

  // ----- The protocol -----

  datatype Fate = Evicted | Handed | Stored | Lost

  /** A stretch of consecutive accepted records that left the buffer together. */
  datatype Segment = Segment(fate: Fate, recs: seq<Record>)

  datatype Flusher =
    | Waiting
    | Woken(last: bool)                  // left the select, has not locked the buffer yet
    | Inserting(at: nat, last: bool)     // holds a batch, which is segment number `at`
    | Exited

  datatype WriterId = WriterId(n: nat)

  /** `writers` are the calls of Write between unlocking the buffer and signalling, with their
      decision to signal. The last six fields record history: the accepted records in lock order,
      how they left the buffer, the database, the evictions reported in the log, and how many records
      had been accepted when the writer was closed and when the flusher took its last batch. */
  datatype State = State(
    buffer: seq<Record>,
    dropped: nat,
    token: bool,
    closed: bool,
    flusher: Flusher,
    writers: map<WriterId, bool>,
    accepted: seq<Record>,
    segments: seq<Segment>,
    stored: seq<Record>,
    reported: nat,
    closeMark: nat,
    finalMark: nat)

  datatype Event =
    | Append(w: WriterId, rec: Record)   // lock section of Write
    | Signal(w: WriterId)                // non-blocking send
    | Tick                               // the periodic timer wakes the flusher
    | Receive                            // the token wakes the flusher
    | SeeClosed                          // the closed channel wakes the flusher for the last time
    | Take                               // lock section of flush
    | Insert(ok: bool)                   // the transaction commits or fails as a whole
    | Close

  predicate Enabled(s: State, e: Event) {
    match e
    case Append(w, _) => w !in s.writers
    case Signal(w) => w in s.writers
    case Tick => s.flusher.Waiting?
    case Receive => s.flusher.Waiting? && s.token
    case SeeClosed => s.flusher.Waiting? && s.closed
    case Take => s.flusher.Woken?
    case Insert(_) => s.flusher.Inserting? && s.flusher.at < |s.segments|
    case Close => !s.closed
  }

  function Left(segments: seq<Segment>, fate: Fate, recs: seq<Record>): seq<Segment> {
    if recs == [] then segments else segments + [Segment(fate, recs)]
  }

  function Step(s: State, e: Event, capacity: int): State
    requires Enabled(s, e)
  {
    match e
    case Append(w, rec) =>
      var drop := Evictions(|s.buffer|, capacity);
      var buffer := Appended(s.buffer, rec, capacity);
      s.(buffer := buffer, dropped := s.dropped + drop, accepted := s.accepted + [rec],
         segments := Left(s.segments, Evicted, s.buffer[..drop]),
         writers := s.writers[w := |buffer| >= FLUSH_BATCH])
    case Signal(w) => s.(token := s.token || s.writers[w], writers := s.writers - {w})
    case Tick => s.(flusher := Woken(false))
    case Receive => s.(token := false, flusher := Woken(false))
    case SeeClosed => s.(flusher := Woken(true))
    case Take =>
      var last := s.flusher.last;
      s.(buffer := [], dropped := 0, reported := s.reported + s.dropped,
         segments := Left(s.segments, Handed, s.buffer),
         flusher := if s.buffer != [] then Inserting(|s.segments|, last) else if last then Exited else Waiting,
         finalMark := if last then |s.accepted| else s.finalMark)
    case Insert(ok) =>
      var at := s.flusher.at;
      var batch := s.segments[at].recs;
      s.(segments := s.segments[at := Segment(if ok then Stored else Lost, batch)],
         stored := if ok then s.stored + batch else s.stored,
         flusher := if s.flusher.last then Exited else Waiting)
    case Close => s.(closed := true, closeMark := |s.accepted|)
  }

  const INITIAL := State([], 0, false, false, Waiting, map[], [], [], [], 0, 0, 0)

  predicate Run(es: seq<Event>, capacity: int)
    decreases |es|, 0
  {
    es == [] ||
    (var prefix := es[..|es| - 1];
     Run(prefix, capacity) && Enabled(After(prefix, capacity), es[|es| - 1]))
  }

  function After(es: seq<Event>, capacity: int): State
    requires Run(es, capacity)
    decreases |es|, 1
  {
    if es == [] then INITIAL
    else Step(After(es[..|es| - 1], capacity), es[|es| - 1], capacity)
  }

  // ----- What every reachable state satisfies -----

  function Flatten(segments: seq<Segment>): seq<Record> {
    if segments == [] then [] else Flatten(segments[..|segments| - 1]) + segments[|segments| - 1].recs
  }

  /** The records of the segments with one fate, in order. */
  function WithFate(segments: seq<Segment>, fate: Fate): seq<Record> {
    if segments == [] then []
    else
      var last := segments[|segments| - 1];
      WithFate(segments[..|segments| - 1], fate) + (if last.fate == fate then last.recs else [])
  }

  ghost predicate Conserved(s: State) {
    && s.accepted == Flatten(s.segments) + s.buffer
    && s.stored == WithFate(s.segments, Stored)
    && s.reported + s.dropped == |WithFate(s.segments, Evicted)|
  }

  /** At most one batch is in flight, and only evictions happened since it was taken. */
  ghost predicate OneInFlight(s: State) {
    if s.flusher.Inserting? then
      && s.flusher.at < |s.segments| && s.segments[s.flusher.at].fate.Handed?
      && (forall k :: 0 <= k < s.flusher.at ==> !s.segments[k].fate.Handed?)
      && (forall k :: s.flusher.at < k < |s.segments| ==> s.segments[k].fate.Evicted?)
    else
      forall k :: 0 <= k < |s.segments| ==> !s.segments[k].fate.Handed?
  }

  ghost predicate WakeUpPending(s: State) {
    s.token || s.flusher.Woken? || exists w :: w in s.writers && s.writers[w]
  }

  ghost predicate NoLostWakeUp(s: State) {
    !s.flusher.Exited? && |s.buffer| >= FLUSH_BATCH ==> WakeUpPending(s)
  }

  predicate FinalTaken(s: State) {
    s.flusher.Exited? || (s.flusher.Inserting? && s.flusher.last)
  }

  ghost predicate Marks(s: State) {
    && (s.flusher.Woken? && s.flusher.last ==> s.closed)
    && (s.closed ==> s.closeMark <= |s.accepted|)
    && (FinalTaken(s) ==>
          && s.closed && s.closeMark <= s.finalMark <= |s.accepted|
          && |s.buffer| + s.dropped == |s.accepted| - s.finalMark)
  }

  ghost predicate Inv(s: State, capacity: int) {
    && Conserved(s) && OneInFlight(s) && NoLostWakeUp(s) && Marks(s)
    && (capacity > 0 ==> |s.buffer| <= capacity)
  }

  lemma LeftFlattens(segments: seq<Segment>, fate: Fate, recs: seq<Record>)
    ensures Flatten(Left(segments, fate, recs)) == Flatten(segments) + recs
    ensures forall f :: WithFate(Left(segments, fate, recs), f)
                     == WithFate(segments, f) + (if f == fate then recs else [])
  {
    if recs == [] {
      assert Flatten(segments) + recs == Flatten(segments);
    } else {
      var more := segments + [Segment(fate, recs)];
      assert more[..|more| - 1] == segments;
    }
  }

  /** Settling segment `at` keeps the flattening, and moves its records to the new fate. */
  lemma {:induction false} SettleFlattens(segments: seq<Segment>, at: nat, fate: Fate)
    requires at < |segments| && segments[at].fate.Handed? && (fate.Stored? || fate.Lost?)
    requires forall k :: at < k < |segments| ==> segments[k].fate.Evicted?
    ensures var settled := segments[at := Segment(fate, segments[at].recs)];
            && Flatten(settled) == Flatten(segments)
            && WithFate(settled, Evicted) == WithFate(segments, Evicted)
            && WithFate(settled, Stored)
               == WithFate(segments, Stored) + (if fate.Stored? then segments[at].recs else [])
    decreases |segments|
  {
    var settled := segments[at := Segment(fate, segments[at].recs)];
    var prefix := segments[..|segments| - 1];
    if at == |segments| - 1 {
      assert settled[..|settled| - 1] == prefix;
    } else {
      SettleFlattens(prefix, at, fate);
      assert settled[..|settled| - 1] == prefix[at := Segment(fate, prefix[at].recs)];
    }
  }

  lemma AppendConserves(s: State, w: WriterId, rec: Record, capacity: int)
    requires Conserved(s) && Enabled(s, Append(w, rec))
    ensures Conserved(Step(s, Append(w, rec), capacity))
  {
    var drop := Evictions(|s.buffer|, capacity);
    var out, rest := s.buffer[..drop], s.buffer[drop..];
    LeftFlattens(s.segments, Evicted, out);
    assert s.buffer == out + rest;
    assert Flatten(s.segments) + s.buffer + [rec] == Flatten(s.segments) + out + (rest + [rec]);
    assert s.stored + [] == s.stored;
  }

  lemma AppendKeeps(s: State, w: WriterId, rec: Record, capacity: int)
    requires Inv(s, capacity) && Enabled(s, Append(w, rec))
    ensures Inv(Step(s, Append(w, rec), capacity), capacity)
  {
    var s' := Step(s, Append(w, rec), capacity);
    AppendConserves(s, w, rec, capacity);
    if |s'.buffer| >= FLUSH_BATCH {
      assert w in s'.writers && s'.writers[w];
    }
  }

  lemma TakeConserves(s: State, capacity: int)
    requires Conserved(s) && Enabled(s, Take)
    ensures Conserved(Step(s, Take, capacity))
  {
    LeftFlattens(s.segments, Handed, s.buffer);
    assert WithFate(s.segments, Stored) + [] == WithFate(s.segments, Stored);
    assert WithFate(s.segments, Evicted) + [] == WithFate(s.segments, Evicted);
  }

  /** The batch that was taken is the only one in flight. */
  lemma TakeIsOne(s: State, capacity: int)
    requires OneInFlight(s) && Enabled(s, Take)
    ensures OneInFlight(Step(s, Take, capacity))
  {
  }

  lemma TakeKeeps(s: State, capacity: int)
    requires Inv(s, capacity) && Enabled(s, Take)
    ensures Inv(Step(s, Take, capacity), capacity)
  {
    TakeConserves(s, capacity);
    TakeIsOne(s, capacity);
  }

  lemma InsertKeeps(s: State, ok: bool, capacity: int)
    requires Inv(s, capacity) && Enabled(s, Insert(ok))
    ensures Inv(Step(s, Insert(ok), capacity), capacity)
  {
    SettleFlattens(s.segments, s.flusher.at, if ok then Stored else Lost);
    assert s.stored + [] == s.stored;
  }

  lemma SignalKeeps(s: State, w: WriterId, capacity: int)
    requires Inv(s, capacity) && Enabled(s, Signal(w))
    ensures Inv(Step(s, Signal(w), capacity), capacity)
  {
    var s' := Step(s, Signal(w), capacity);
    if WakeUpPending(s) && !s'.token && !s'.flusher.Woken? {
      var w' :| w' in s.writers && s.writers[w'];
      assert w' in s'.writers && s'.writers[w'];
    }
  }

  lemma StepKeeps(s: State, e: Event, capacity: int)
    requires Inv(s, capacity) && Enabled(s, e)
    ensures Inv(Step(s, e, capacity), capacity)
  {
    match e
    case Append(w, rec) => AppendKeeps(s, w, rec, capacity);
    case Signal(w) => SignalKeeps(s, w, capacity);
    case Take => TakeKeeps(s, capacity);
    case Insert(ok) => InsertKeeps(s, ok, capacity);
    case _ =>
  }

  lemma {:induction false} RunInv(es: seq<Event>, capacity: int)
    requires Run(es, capacity)
    ensures Inv(After(es, capacity), capacity)
    decreases |es|
  {
    if es != [] {
      RunInv(es[..|es| - 1], capacity);
      StepKeeps(After(es[..|es| - 1], capacity), es[|es| - 1], capacity);
    }
  }

  ghost predicate Reachable(s: State, capacity: int) {
    exists es :: Run(es, capacity) && After(es, capacity) == s
  }

  lemma ReachableInv(s: State, capacity: int)
    requires Reachable(s, capacity)
    ensures Inv(s, capacity)
  {
    var es :| Run(es, capacity) && After(es, capacity) == s;
    RunInv(es, capacity);
  }

  // ----- Main results -----

  ghost predicate Subsequence(a: seq<Record>, b: seq<Record>)
    decreases |b|
  {
    a == [] ||
    (b != [] &&
     (Subsequence(a, b[..|b| - 1])
      || (a[|a| - 1] == b[|b| - 1] && Subsequence(a[..|a| - 1], b[..|b| - 1]))))
  }

  lemma DropLast(a: seq<Record>, more: seq<Record>)
    requires more != []
    ensures (a + more)[..|a + more| - 1] == a + more[..|more| - 1] && (a + more)[|a + more| - 1] == more[|more| - 1]
  {
  }

  lemma {:induction false} SubsequenceExtends(a: seq<Record>, b: seq<Record>, more: seq<Record>, both: bool)
    requires Subsequence(a, b)
    ensures Subsequence(if both then a + more else a, b + more)
    decreases |more|
  {
    if more == [] {
      assert a + more == a && b + more == b;
    } else {
      var init := more[..|more| - 1];
      SubsequenceExtends(a, b, init, both);
      DropLast(b, more);
      if both {
        DropLast(a, more);
      }
    }
  }

  lemma {:induction false} FateIsSubsequence(segments: seq<Segment>, fate: Fate)
    ensures Subsequence(WithFate(segments, fate), Flatten(segments))
    decreases |segments|
  {
    if segments != [] {
      var prefix := segments[..|segments| - 1];
      var last := segments[|segments| - 1];
      FateIsSubsequence(prefix, fate);
      SubsequenceExtends(WithFate(prefix, fate), Flatten(prefix), last.recs, last.fate == fate);
      assert WithFate(prefix, fate) + [] == WithFate(prefix, fate);
    }
  }

  lemma StoredInOrder(s: State)
    requires Conserved(s)
    ensures Subsequence(s.stored, s.accepted)
  {
    FateIsSubsequence(s.segments, Stored);
    SubsequenceExtends(s.stored, Flatten(s.segments), s.buffer, false);
  }

  /** Conservation and order, in every reachable state: the accepted records in lock order are exactly
      the evicted and handed-over stretches followed by the buffer; the database holds the stored
      batches in that order; the eviction counts reported and pending add up; and a positive capacity
      is never exceeded. */
  lemma RecordsConserved(s: State, capacity: int)
    requires Reachable(s, capacity)
    ensures && s.accepted == Flatten(s.segments) + s.buffer
            && s.stored == WithFate(s.segments, Stored)
            && Subsequence(s.stored, s.accepted)
            && s.reported + s.dropped == |WithFate(s.segments, Evicted)|
            && (capacity > 0 ==> |s.buffer| <= capacity)
  {
    ReachableInv(s, capacity);
    StoredInOrder(s);
  }

  /** A transaction that commits stores exactly the batch that was taken, one that fails loses it. */
  lemma InsertExactly(s: State, ok: bool, capacity: int)
    requires Reachable(s, capacity) && Enabled(s, Insert(ok))
    ensures var s' := Step(s, Insert(ok), capacity);
            var batch := s.segments[s.flusher.at].recs;
            && s'.stored == s.stored + (if ok then batch else [])
            && s'.segments == s.segments[s.flusher.at := Segment(if ok then Stored else Lost, batch)]
            && s.segments[s.flusher.at].fate.Handed?
  {
    ReachableInv(s, capacity);
    assert s.stored + [] == s.stored;
  }

  lemma FateStep(s: State, e: Event, capacity: int, k: nat)
    requires Enabled(s, e) && k < |Step(s, e, capacity).segments|
    ensures var fate := Step(s, e, capacity).segments[k].fate;
            && (fate.Lost? ==> e == Insert(false) || (k < |s.segments| && s.segments[k].fate.Lost?))
            && (fate.Stored? ==> e == Insert(true) || (k < |s.segments| && s.segments[k].fate.Stored?))
  {
  }

  /** Over any run, nothing is lost unless a transaction fails, and nothing stored unless one commits. */
  lemma {:induction false} FatesAreEarned(es: seq<Event>, capacity: int, k: nat)
    requires Run(es, capacity) && k < |After(es, capacity).segments|
    ensures After(es, capacity).segments[k].fate.Lost? ==> Insert(false) in es
    ensures After(es, capacity).segments[k].fate.Stored? ==> Insert(true) in es
    decreases |es|
  {
    if es != [] {
      var prefix, e := es[..|es| - 1], es[|es| - 1];
      FateStep(After(prefix, capacity), e, capacity, k);
      if k < |After(prefix, capacity).segments| {
        FatesAreEarned(prefix, capacity, k);
      }
      assert e in es;
    }
  }

  /** The stretch was evicted as a whole: one hundred records, or the whole buffer if its capacity is less. */
  predicate EvictedWhole(seg: Segment, capacity: int) {
    seg.fate.Evicted? ==> capacity > 0 && |seg.recs| == if capacity < 100 then capacity else 100
  }

  ghost predicate AllEvictedWhole(segments: seq<Segment>, capacity: int) {
    forall k :: 0 <= k < |segments| ==> EvictedWhole(segments[k], capacity)
  }

  lemma {:induction false} EvictionsWhole(es: seq<Event>, capacity: int)
    requires Run(es, capacity)
    ensures AllEvictedWhole(After(es, capacity).segments, capacity)
    decreases |es|
  {
    if es != [] {
      EvictionsWhole(es[..|es| - 1], capacity);
      RunInv(es[..|es| - 1], capacity);
    }
  }

  /** Over any run, evictions take exactly one hundred records each, or the whole buffer if its capacity is
      less, and there are none without a capacity; a write evicts if and only if it finds the buffer full, and
      then the oldest records. */
  lemma EvictionsExactly(s: State, w: WriterId, rec: Record, capacity: int)
    requires Reachable(s, capacity) && Enabled(s, Append(w, rec))
    ensures AllEvictedWhole(s.segments, capacity)
    ensures var s' := Step(s, Append(w, rec), capacity);
            && s'.accepted == s.accepted + [rec]
            && if capacity > 0 && |s.buffer| == capacity then
                 var drop := if capacity < 100 then capacity else 100;
                 && s'.buffer == s.buffer[drop..] + [rec] && s'.dropped == s.dropped + drop
                 && s'.segments == s.segments + [Segment(Evicted, s.buffer[..drop])]
               else s'.buffer == s.buffer + [rec] && s'.dropped == s.dropped && s'.segments == s.segments
  {
    var es :| Run(es, capacity) && After(es, capacity) == s;
    EvictionsWhole(es, capacity);
    ReachableInv(s, capacity);
    assert s.buffer[0..] == s.buffer;
  }

  /** Steps that happen by themselves: no new write, no timer, no shutdown request. */
  predicate Internal(e: Event) {
    e.Signal? || e.Receive? || e.SeeClosed? || e.Take? || e.Insert?
  }

  ghost predicate Quiescent(s: State) {
    forall e: Event :: Internal(e) ==> !Enabled(s, e)
  }

  lemma RestingState(s: State)
    requires Quiescent(s) && OneInFlight(s) && NoLostWakeUp(s)
    ensures if s.closed then s.flusher.Exited? else |s.buffer| < FLUSH_BATCH || s.flusher.Exited?
  {
    assert !Enabled(s, Take) && !Enabled(s, Receive) && !Enabled(s, SeeClosed) && !Enabled(s, Insert(true));
    if WakeUpPending(s) && !s.token && !s.flusher.Woken? {
      var w :| w in s.writers && s.writers[w];
      assert Enabled(s, Signal(w));
    }
  }

  /** No lost wake-up: a full batch in the buffer is always about to be flushed, so a writer that came
      to rest without being closed holds less than a batch, and a closed one has exited. */
  lemma NoBatchLeftBehind(s: State, capacity: int)
    requires Reachable(s, capacity)
    ensures && (!s.flusher.Exited? && |s.buffer| >= FLUSH_BATCH ==> WakeUpPending(s))
            && (Quiescent(s) ==> if s.closed then s.flusher.Exited? else |s.buffer| < FLUSH_BATCH)
  {
    ReachableInv(s, capacity);
    if Quiescent(s) {
      RestingState(s);
    }
  }

  /** Bounds how many internal steps remain. */
  function Work(s: State): nat {
    4 * |s.writers| + (if s.token then 3 else 0) +
    match s.flusher
    case Waiting => 3
    case Woken(last) => if last then 2 else 5
    case Inserting(_, last) => if last then 1 else 4
    case Exited => 0
  }

  /** Rest is always reached: every internal step uses up work, so no more than `Work(s)` of them can
      follow each other. */
  lemma InternalStepsEnd(s: State, e: Event, capacity: int)
    requires Enabled(s, e) && Internal(e)
    ensures Work(Step(s, e, capacity)) < Work(s)
  {
    if e.Signal? {
      var left := s.writers - {e.w};
      assert s.writers.Keys == left.Keys + {e.w};
    }
  }

  /** Shutdown: when the flusher has exited and nothing was written after Close, the buffer is empty,
      all evictions have been reported, and every record ever accepted was stored, lost with a failed
      batch, or reported as evicted. */
  lemma NothingLeftAfterClose(s: State, capacity: int)
    requires Reachable(s, capacity)
    requires s.flusher.Exited? && |s.accepted| == s.closeMark
    ensures && s.buffer == []
            && s.accepted == Flatten(s.segments)
            && s.reported == |WithFate(s.segments, Evicted)|
            && |s.accepted| == |s.stored| + |WithFate(s.segments, Lost)| + s.reported
  {
    ReachableInv(s, capacity);
    FatesAddUp(s.segments);
    assert WithFate(s.segments, Handed) == [] by {
      NoneHanded(s.segments);
    }
  }

  /** Shutdown, exactly, whatever was written meanwhile: the records accepted before the last flush, and no
      others, were stored, lost with a failed batch, or reported as evicted. Those accepted later are still
      in the buffer or were evicted unreported, so nothing is left if and only if there are none. */
  lemma ShutdownLossExactly(s: State, capacity: int)
    requires Reachable(s, capacity) && s.flusher.Exited?
    ensures s.closed && s.closeMark <= s.finalMark <= |s.accepted|
    ensures |s.stored| + |WithFate(s.segments, Lost)| + s.reported == s.finalMark
    ensures |s.buffer| + s.dropped == |s.accepted| - s.finalMark
    ensures s.buffer == [] && s.dropped == 0 <==> s.finalMark == |s.accepted|
  {
    ReachableInv(s, capacity);
    FatesAddUp(s.segments);
    NoneHanded(s.segments);
  }

  lemma ReachableStep(s: State, e: Event, capacity: int)
    requires Reachable(s, capacity) && Enabled(s, e)
    ensures Reachable(Step(s, e, capacity), capacity)
  {
    var es :| Run(es, capacity) && After(es, capacity) == s;
    assert (es + [e])[..|es + [e]| - 1] == es;
    assert Run(es + [e], capacity) && After(es + [e], capacity) == Step(s, e, capacity);
  }

  /** There can be some: a record written while the writer shuts down may stay in the buffer for good. */
  lemma LateWriteStays(w: WriterId, rec: Record, capacity: int) returns (s: State)
    ensures Reachable(s, capacity) && s.flusher.Exited?
    ensures s.accepted == s.buffer == [rec] && s.stored == [] && s.finalMark == 0
  {
    assert Run([], capacity) && After([], capacity) == INITIAL;
    ReachableStep(INITIAL, Close, capacity);
    var s1 := Step(INITIAL, Close, capacity);
    ReachableStep(s1, SeeClosed, capacity);
    var s2 := Step(s1, SeeClosed, capacity);
    ReachableStep(s2, Take, capacity);
    var s3 := Step(s2, Take, capacity);
    ReachableStep(s3, Append(w, rec), capacity);
    s := Step(s3, Append(w, rec), capacity);
  }

  lemma {:induction false} FatesAddUp(segments: seq<Segment>)
    ensures |Flatten(segments)| == |WithFate(segments, Evicted)| + |WithFate(segments, Handed)|
                                   + |WithFate(segments, Stored)| + |WithFate(segments, Lost)|
    decreases |segments|
  {
    if segments != [] {
      FatesAddUp(segments[..|segments| - 1]);
    }
  }

  lemma {:induction false} NoneHanded(segments: seq<Segment>)
    requires forall k :: 0 <= k < |segments| ==> !segments[k].fate.Handed?
    ensures WithFate(segments, Handed) == []
    decreases |segments|
  {
    if segments != [] {
      NoneHanded(segments[..|segments| - 1]);
    }
  }

  // ----- The writer object -----

  class Writer {
    const queueCapacity: int
    const sampleRate: real
    var buffer: seq<Record>
    var droppedCount: nat
    var seqNo: nat
    var flushCh: bool  // the channel of capacity one holds a token

    constructor (sampleRate: real, queueCapacity: int)
      ensures this.sampleRate == sampleRate && this.queueCapacity == queueCapacity
      ensures buffer == [] && droppedCount == 0 && seqNo == 0 && !flushCh
    {
      this.sampleRate, this.queueCapacity := sampleRate, queueCapacity;
      buffer, droppedCount, seqNo, flushCh := [], 0, 0, false;
    }

    /** The lock section of Write: the event Append. */
    method Append(rec: Record) returns (needFlush: bool)
      modifies this`buffer, this`droppedCount
      ensures buffer == Appended(old(buffer), rec, queueCapacity)
      ensures var n := |old(buffer)|;
              var drop := if queueCapacity > 0 && n >= queueCapacity then (if n < 100 then n else 100) else 0;
              buffer == old(buffer)[drop..] + [rec] && droppedCount == old(droppedCount) + drop
      ensures needFlush <==> |buffer| >= 100
    {
      if queueCapacity > 0 && |buffer| >= queueCapacity {
        var drop := FLUSH_BATCH;
        if drop > |buffer| {
          drop := |buffer|;
        }
        buffer := buffer[drop..];
        droppedCount := droppedCount + drop;
      }
      buffer := buffer + [rec];
      needFlush := |buffer| >= FLUSH_BATCH;
    }

    /** A whole undisturbed call of Write: append, number the broadcast copy, leave a token; sampling drops the
        record when the drawn number exceeds the rate. */
    method Write(rec: Record, draw: real) returns (broadcastId: nat)
      modifies this
      ensures if sampleRate < 1.0 && (sampleRate <= 0.0 || draw > sampleRate) then unchanged(this)
              else
                var n := |old(buffer)|;
                var drop := if queueCapacity > 0 && n >= queueCapacity then (if n < 100 then n else 100) else 0;
                && buffer == old(buffer)[drop..] + [rec]
                && droppedCount == old(droppedCount) + drop
                && broadcastId == seqNo == old(seqNo) + 1
                && flushCh == (old(flushCh) || |buffer| >= 100)
    {
      if sampleRate < 1.0 {
        if sampleRate <= 0.0 || draw > sampleRate {
          return 0;
        }
      }
      var needFlush := Append(rec);
      seqNo := seqNo + 1;
      broadcastId := seqNo;
      if needFlush {
        flushCh := true;
      }
    }

    /** The lock section of flush: the event Take. */
    method TakeBatch() returns (batch: seq<Record>, dropped: nat)
      modifies this`buffer, this`droppedCount
      ensures batch == old(buffer) && dropped == old(droppedCount)
      ensures buffer == [] && droppedCount == 0
    {
      dropped := droppedCount;
      droppedCount := 0;
      batch := buffer;
      buffer := [];
    }

    /** A whole undisturbed flush: the batch reaches the database entirely or not at all. */
    method Flush(db: Database, ok: bool) returns (reported: nat)
      modifies this`buffer, this`droppedCount, db
      ensures buffer == [] && droppedCount == 0 && reported == old(droppedCount)
      ensures db.rows == old(db.rows) + (if ok then old(buffer) else [])
    {
      var batch;
      batch, reported := TakeBatch();
      if batch != [] {
        var _ := db.InsertLogs(batch, ok);
      }
    }
  }

  class Database {
    var rows: seq<Record>

    constructor ()
      ensures rows == []
    {
      rows := [];
    }

    /** One transaction: rolled back as a whole when it does not commit. */
    method InsertLogs(recs: seq<Record>, commits: bool) returns (ok: bool)
      modifies this
      ensures ok <==> recs == [] || commits
      ensures rows == old(rows) + (if commits then recs else [])
    {
      if recs == [] {
        return true;
      }
      if commits {
        rows := rows + recs;
      }
      ok := commits;
    }
  }
}
