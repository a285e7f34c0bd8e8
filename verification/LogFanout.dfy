/** Live fan-out of log records to subscriber channels. Broadcasts hold a read lock and may run side
    by side; subscribing and cancelling hold the write lock. Sending on a closed channel or closing
    one twice would crash the process. */
module LogFanout {
  import opened Collections

  const SUB_BUFFER: nat := 256

  datatype ChannelId = ChannelId(n: nat)

  /** The copy of a record that one broadcast sends; broadcasts are numbered uniquely. */
  datatype Copy = Copy(id: nat, text: string)

  /** `taken` and `missed` record history: what the reader received, and which broadcasts found the
      channel full. `begun` are the broadcasts that started while it was subscribed. */
  datatype Channel = Channel(queue: seq<Copy>, closed: bool, taken: seq<Copy>, missed: set<nat>, begun: set<nat>)

  datatype Broadcast = Broadcast(copy: Copy, remaining: set<ChannelId>)

  datatype State = State(
    channels: map<ChannelId, Channel>,
    subscribers: set<ChannelId>,
    broadcasts: map<nat, Broadcast>,  // those holding the read lock
    used: set<nat>,
    crashed: bool)

  datatype Event =
    | Subscribe(ch: ChannelId)
    | Cancel(ch: ChannelId)          // the cancel function may be called again and again
    | Begin(id: nat, text: string)   // takes the read lock
    | Send(id: nat, ch: ChannelId)   // non-blocking send to one subscriber
    | End(id: nat)                   // releases the read lock
    | Receive(ch: ChannelId)

  predicate Enabled(s: State, e: Event) {
    match e
    case Subscribe(ch) => ch !in s.channels && s.broadcasts == map[]
    case Cancel(ch) => ch in s.channels && s.broadcasts == map[]
    case Begin(id, _) => id !in s.used
    case Send(id, ch) => id in s.broadcasts && ch in s.broadcasts[id].remaining && ch in s.channels
    case End(id) => id in s.broadcasts && s.broadcasts[id].remaining == {}
    case Receive(ch) => ch in s.channels && s.channels[ch].queue != []
  }

  function Offered(c: Channel, copy: Copy): Channel {
    if |c.queue| < SUB_BUFFER then c.(queue := c.queue + [copy]) else c.(missed := c.missed + {copy.id})
  }

  function Step(s: State, e: Event): State
    requires Enabled(s, e)
  {
    match e
    case Subscribe(ch) =>
      s.(channels := s.channels[ch := Channel([], false, [], {}, {})], subscribers := s.subscribers + {ch})
    case Cancel(ch) =>
      if ch in s.subscribers then
        s.(channels := s.channels[ch := s.channels[ch].(closed := true)],
           subscribers := s.subscribers - {ch},
           crashed := s.crashed || s.channels[ch].closed)
      else s
    case Begin(id, text) =>
      s.(broadcasts := s.broadcasts[id := Broadcast(Copy(id, text), s.subscribers)],
         used := s.used + {id},
         channels := map ch | ch in s.channels ::
           if ch in s.subscribers then s.channels[ch].(begun := s.channels[ch].begun + {id}) else s.channels[ch])
    case Send(id, ch) =>
      var b := s.broadcasts[id];
      s.(channels := s.channels[ch := Offered(s.channels[ch], b.copy)],
         broadcasts := s.broadcasts[id := b.(remaining := b.remaining - {ch})],
         crashed := s.crashed || s.channels[ch].closed)
    case End(id) => s.(broadcasts := s.broadcasts - {id})
    case Receive(ch) =>
      var c := s.channels[ch];
      s.(channels := s.channels[ch := c.(queue := c.queue[1..], taken := c.taken + [c.queue[0]])])
  }

  const INITIAL := State(map[], {}, map[], {}, false)

  predicate Run(es: seq<Event>)
    decreases |es|, 0
  {
    es == [] || (var prefix := es[..|es| - 1]; Run(prefix) && Enabled(After(prefix), es[|es| - 1]))
  }

  function After(es: seq<Event>): State
    requires Run(es)
    decreases |es|, 1
  {
    if es == [] then INITIAL else Step(After(es[..|es| - 1]), es[|es| - 1])
  }

  ghost predicate Reachable(s: State) {
    exists es :: Run(es) && After(es) == s
  }

  // ----- What every reachable state satisfies -----

  /** Everything ever accepted by the channel, in order. */
  function Delivered(c: Channel): seq<Copy> {
    c.taken + c.queue
  }

  ghost predicate Distinct(copies: seq<Copy>) {
    forall i, j :: 0 <= i < j < |copies| ==> copies[i].id != copies[j].id
  }

  function Ids(copies: seq<Copy>): set<nat> {
    set c | c in copies :: c.id
  }

  /** The broadcast has started while the channel was subscribed and has not reached it yet. */
  ghost predicate Pending(s: State, id: nat, ch: ChannelId) {
    id in s.broadcasts && ch in s.broadcasts[id].remaining
  }

  ghost predicate ChannelOk(s: State, ch: ChannelId)
    requires ch in s.channels
  {
    var c := s.channels[ch];
    && |c.queue| <= SUB_BUFFER
    && (ch in s.subscribers <==> !c.closed)
    && Distinct(Delivered(c))
    && Ids(Delivered(c)) !! c.missed
    && Ids(Delivered(c)) <= c.begun && c.missed <= c.begun && c.begun <= s.used
    && forall id :: id in c.begun ==> (Pending(s, id, ch) <==> id !in Ids(Delivered(c)) && id !in c.missed)
  }

  ghost predicate Inv(s: State) {
    && !s.crashed
    && s.subscribers <= s.channels.Keys
    && (forall id :: id in s.broadcasts ==>
          && id in s.used
          && s.broadcasts[id].copy.id == id
          && s.broadcasts[id].remaining <= s.subscribers)
    && (forall id, ch :: Pending(s, id, ch) ==> ch in s.channels && id in s.channels[ch].begun)
    && (forall ch :: ch in s.channels ==> ChannelOk(s, ch))
  }

  lemma IdsAppend(copies: seq<Copy>, copy: Copy)
    ensures Ids(copies + [copy]) == Ids(copies) + {copy.id}
    ensures copy.id !in Ids(copies) && Distinct(copies) ==> Distinct(copies + [copy])
  {
    forall id | id in Ids(copies) + {copy.id}
      ensures id in Ids(copies + [copy])
    {
      if id == copy.id {
        assert copy in copies + [copy];
      } else {
        var c :| c in copies && c.id == id;
        assert c in copies + [copy];
      }
    }
    if copy.id !in Ids(copies) {
      forall i | 0 <= i < |copies|
        ensures copies[i].id != copy.id
      {
        assert copies[i] in copies;
      }
    }
  }

  lemma SendKeeps(s: State, id: nat, ch: ChannelId)
    requires Inv(s) && Enabled(s, Send(id, ch))
    ensures Inv(Step(s, Send(id, ch)))
  {
    var s' := Step(s, Send(id, ch));
    var c := s.channels[ch];
    var c' := s'.channels[ch];
    var copy := s.broadcasts[id].copy;
    assert Pending(s, id, ch);
    IdsAppend(Delivered(c), copy);
    if |c.queue| < SUB_BUFFER {
      assert Delivered(c') == Delivered(c) + [copy];
    }
    forall x, other | Pending(s', x, other)
      ensures Pending(s, x, other)
    {
    }
    forall x, other | other != ch || x != id
      ensures Pending(s', x, other) <==> Pending(s, x, other)
    {
    }
    forall other | other in s'.channels
      ensures ChannelOk(s', other)
    {
      assert ChannelOk(s, other);
    }
  }

  lemma BeginKeeps(s: State, id: nat, text: string)
    requires Inv(s) && Enabled(s, Begin(id, text))
    ensures Inv(Step(s, Begin(id, text)))
  {
    var s' := Step(s, Begin(id, text));
    forall x, ch
      ensures Pending(s', x, ch) <==> Pending(s, x, ch) || (x == id && ch in s.subscribers)
    {
    }
    forall ch | ch in s'.channels
      ensures ChannelOk(s', ch)
    {
      assert ChannelOk(s, ch);
    }
  }

  lemma ReceiveKeeps(s: State, ch: ChannelId)
    requires Inv(s) && Enabled(s, Receive(ch))
    ensures Inv(Step(s, Receive(ch)))
  {
    var s' := Step(s, Receive(ch));
    assert Delivered(s'.channels[ch]) == Delivered(s.channels[ch]);
    forall x, other
      ensures Pending(s', x, other) <==> Pending(s, x, other)
    {
    }
    forall other | other in s'.channels
      ensures ChannelOk(s', other)
    {
      assert ChannelOk(s, other);
    }
  }

  lemma LockedStepKeeps(s: State, e: Event)
    requires Inv(s) && Enabled(s, e) && (e.Subscribe? || e.Cancel? || e.End?)
    ensures Inv(Step(s, e))
  {
    var s' := Step(s, e);
    forall x, other
      ensures Pending(s', x, other) <==> Pending(s, x, other)
    {
    }
    forall other | other in s'.channels
      ensures ChannelOk(s', other)
    {
      if other in s.channels {
        assert ChannelOk(s, other);
      }
    }
  }

  lemma {:induction false} RunInv(es: seq<Event>)
    requires Run(es)
    ensures Inv(After(es))
    decreases |es|
  {
    if es != [] {
      var s, e := After(es[..|es| - 1]), es[|es| - 1];
      RunInv(es[..|es| - 1]);
      match e
      case Begin(id, text) => BeginKeeps(s, id, text);
      case Send(id, ch) => SendKeeps(s, id, ch);
      case Receive(ch) => ReceiveKeeps(s, ch);
      case _ => LockedStepKeeps(s, e);
    }
  }

  lemma ReachableInv(s: State)
    requires Reachable(s)
    ensures Inv(s)
  {
    var es :| Run(es) && After(es) == s;
    RunInv(es);
  }

  // ----- Main results -----

  /** Channel safety, over all interleavings: the process never crashes on a channel operation, the
      registered channels are exactly the open ones, and none ever holds more than its buffer. */
  lemma ChannelsSafe(s: State)
    requires Reachable(s)
    ensures !s.crashed
    ensures forall ch :: ch in s.channels ==> (ch in s.subscribers <==> !s.channels[ch].closed)
    ensures forall ch :: ch in s.channels ==> |s.channels[ch].queue| <= SUB_BUFFER
  {
    ReachableInv(s);
    forall ch | ch in s.channels
      ensures (ch in s.subscribers <==> !s.channels[ch].closed) && |s.channels[ch].queue| <= SUB_BUFFER
    {
      assert ChannelOk(s, ch);
    }
  }

  /** Delivery: whenever no broadcast is under way, every broadcast that started while a channel was
      subscribed was delivered to it exactly once or found it full, and nothing else was delivered. */
  lemma DeliveredOnceOrMissed(s: State, ch: ChannelId)
    requires Reachable(s) && s.broadcasts == map[] && ch in s.channels
    ensures var c := s.channels[ch];
            && Distinct(Delivered(c))
            && Ids(Delivered(c)) !! c.missed
            && Ids(Delivered(c)) + c.missed == c.begun
  {
    ReachableInv(s);
    assert ChannelOk(s, ch);
    var c := s.channels[ch];
    forall id | id in c.begun
      ensures id in Ids(Delivered(c)) + c.missed
    {
      assert !Pending(s, id, ch);
    }
  }

  /** Some broadcast with this number began while the channel was subscribed. */
  ghost predicate EverBegun(es: seq<Event>, ch: ChannelId, id: nat)
    requires Run(es)
    decreases |es|
  {
    es != [] &&
    var before, e := After(es[..|es| - 1]), es[|es| - 1];
    EverBegun(es[..|es| - 1], ch, id) || (e.Begin? && e.id == id && ch in before.subscribers)
  }

  lemma BegunStep(s: State, e: Event, ch: ChannelId, id: nat)
    requires Inv(s) && Enabled(s, e)
    ensures ch in Step(s, e).channels && id in Step(s, e).channels[ch].begun
       <==> (ch in s.channels && id in s.channels[ch].begun) || (e.Begin? && e.id == id && ch in s.subscribers)
  {
  }

  /** The broadcasts that a channel has a claim to are exactly those that began while it was subscribed. */
  lemma {:induction false} BegunExactly(es: seq<Event>, ch: ChannelId, id: nat)
    requires Run(es)
    ensures ch in After(es).channels && id in After(es).channels[ch].begun <==> EverBegun(es, ch, id)
    decreases |es|
  {
    if es != [] {
      BegunExactly(es[..|es| - 1], ch, id);
      RunInv(es[..|es| - 1]);
      BegunStep(After(es[..|es| - 1]), es[|es| - 1], ch, id);
    }
  }

  /** Some event of the run offered the broadcast to the channel while it held 256 records. */
  ghost predicate EverFull(es: seq<Event>, ch: ChannelId, id: nat)
    requires Run(es)
    decreases |es|
  {
    es != [] &&
    var before := After(es[..|es| - 1]);
    || EverFull(es[..|es| - 1], ch, id)
    || (es[|es| - 1] == Send(id, ch) && ch in before.channels && |before.channels[ch].queue| >= 256)
  }

  /** Over any run, a channel has missed exactly the broadcasts that were offered while it was full. */
  lemma {:induction false} MissedExactly(es: seq<Event>, ch: ChannelId, id: nat)
    requires Run(es)
    ensures ch in After(es).channels && id in After(es).channels[ch].missed <==> EverFull(es, ch, id)
    decreases |es|
  {
    if es != [] {
      var prefix, e := es[..|es| - 1], es[|es| - 1];
      MissedExactly(prefix, ch, id);
      RunInv(prefix);
    }
  }

  /** Order is kept: only an offer changes what a channel has taken in, and puts its record behind the others; the
      reader takes the oldest one. */
  lemma DeliveredGrows(s: State, e: Event, ch: ChannelId)
    requires Enabled(s, e) && ch in s.channels && !(e.Subscribe? && e.ch == ch)
    ensures var before, after := Delivered(s.channels[ch]), Delivered(Step(s, e).channels[ch]);
            after == if e.Send? && e.ch == ch && |s.channels[ch].queue| < 256 then before + [s.broadcasts[e.id].copy] else before
    ensures e.Receive? && e.ch == ch ==>
              Step(s, e).channels[ch].taken == s.channels[ch].taken + [s.channels[ch].queue[0]]
  {
    if e.Receive? && e.ch == ch {
      var c := s.channels[ch];
      assert c.queue == [c.queue[0]] + c.queue[1..];
    }
  }

  /** Nothing is made up: every record in a channel is that of a broadcast, with the text it began with. */
  lemma {:induction false} DeliveredWasSent(es: seq<Event>, ch: ChannelId, c: Copy)
    requires Run(es) && ch in After(es).channels && c in Delivered(After(es).channels[ch])
    ensures Begin(c.id, c.text) in es
    decreases |es|
  {
    var prefix, e := es[..|es| - 1], es[|es| - 1];
    var s := After(prefix);
    if e.Send? && e.ch == ch && c !in Delivered(s.channels[ch]) {
      CopyWasBegun(prefix, e.id);
    } else {
      DeliveredStays(prefix, e, ch, c);
      DeliveredWasSent(prefix, ch, c);
    }
  }

  lemma DeliveredStays(prefix: seq<Event>, e: Event, ch: ChannelId, c: Copy)
    requires Run(prefix) && Enabled(After(prefix), e)
    requires ch in Step(After(prefix), e).channels && c in Delivered(Step(After(prefix), e).channels[ch])
    requires e.Send? && e.ch == ch ==> c in Delivered(After(prefix).channels[ch])
    ensures ch in After(prefix).channels && c in Delivered(After(prefix).channels[ch])
  {
    var s := After(prefix);
    if e.Receive? && e.ch == ch {
      assert Delivered(Step(s, e).channels[ch]) == Delivered(s.channels[ch]);
    }
  }

  lemma {:induction false} CopyWasBegun(es: seq<Event>, id: nat)
    requires Run(es) && id in After(es).broadcasts
    ensures Begin(After(es).broadcasts[id].copy.id, After(es).broadcasts[id].copy.text) in es
    decreases |es|
  {
    var prefix, e := es[..|es| - 1], es[|es| - 1];
    if e.Begin? && e.id == id {
      assert es[|es| - 1] == Begin(After(es).broadcasts[id].copy.id, After(es).broadcasts[id].copy.text);
    } else {
      CopyWasBegun(prefix, id);
    }
  }

  // ----- The hub object -----

  /** A Go channel with a buffer; the preconditions are the uses that do not crash. */
  class Pipe {
    var queue: seq<Copy>
    var closed: bool

    constructor ()
      ensures queue == [] && !closed
    {
      queue, closed := [], false;
    }

    method TrySend(copy: Copy)
      requires !closed
      modifies this`queue
      ensures queue == if old(|queue|) < SUB_BUFFER then old(queue) + [copy] else old(queue)
    {
      if |queue| < SUB_BUFFER {
        queue := queue + [copy];
      }
    }

    method Close()
      requires !closed
      modifies this`closed
      ensures closed
    {
      closed := true;
    }
  }

  class Hub {
    var subscribers: set<Pipe>

    ghost predicate Valid()
      reads this, subscribers
    {
      forall ch :: ch in subscribers ==> !ch.closed && |ch.queue| <= SUB_BUFFER
    }

    constructor ()
      ensures Valid() && subscribers == {}
    {
      subscribers := {};
    }

    method Subscribe() returns (ch: Pipe)
      requires Valid()
      modifies this
      ensures Valid() && fresh(ch) && ch.queue == [] && subscribers == old(subscribers) + {ch}
    {
      ch := new Pipe();
      subscribers := subscribers + {ch};
    }

    /** The cancel function of `ch`: closes it the first time and does nothing afterwards. */
    method Cancel(ch: Pipe)
      requires Valid()
      modifies this, ch`closed
      ensures Valid() && subscribers == old(subscribers) - {ch}
      ensures ch.closed <==> old(ch.closed) || ch in old(subscribers)
    {
      if ch in subscribers {
        subscribers := subscribers - {ch};
        ch.Close();
      }
    }

    /** Offers the copy to every subscriber; the full ones miss it. */
    method Broadcast(copy: Copy)
      requires Valid()
      modifies subscribers`queue
      ensures Valid()
      ensures forall ch :: ch in subscribers ==>
                ch.queue == if old(|ch.queue|) < SUB_BUFFER then old(ch.queue) + [copy] else old(ch.queue)
    {
      var rest := subscribers;
      while rest != {}
        invariant rest <= subscribers && Valid()
        invariant forall ch :: ch in rest ==> ch.queue == old(ch.queue)
        invariant forall ch :: ch in subscribers - rest ==>
                    ch.queue == if old(|ch.queue|) < SUB_BUFFER then old(ch.queue) + [copy] else old(ch.queue)
        decreases rest
      {
        var ch := Pick(rest);
        ch.TrySend(copy);
        rest := rest - {ch};
      }
    }
  }
}
