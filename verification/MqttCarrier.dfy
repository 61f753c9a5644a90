/**
 The MQTT carrier: state shared between the client's event task and the API. An API call takes the atomic
 steps of the event task that fall between its own, so every interleaving is a choice of arguments.
 */
module MqttCarrier {
  import opened Basics
  import opened MqttEvents
  import opened FilterTable

  const QUEUE_CAPACITY: nat := 4

  const U32: nat := 0x1_0000_0000

  type Frame = Message

  datatype Bits = Bits(connected: bool, subscribed: bool, loopback: bool, overflow: bool)

  const NO_BITS: Bits := Bits(false, false, false, false)

  /** One atomic step of the event task. */
  datatype Op =
    | CountConnected | RaiseConnected | ResetAcks | LowerSubscribed
    | LowerBoth
    | CountAck | RaiseSubscribed
    | CountOversized | RaiseLoopback | Enqueue(frame: Frame) | RaiseOverflow

  function Connections(ops: seq<Op>): nat {
    if ops == [] then 0 else Connections(ops[..|ops| - 1]) + (if ops[|ops| - 1] == CountConnected then 1 else 0)
  }

  /** The elements whose flag is set, in order. */
  function Select<T>(q: seq<T>, flags: seq<bool>): (r: seq<T>)
    requires |q| == |flags|
    ensures |r| <= |q|
  {
    if q == [] then []
    else Select(q[..|q| - 1], flags[..|q| - 1]) + (if flags[|q| - 1] then [q[|q| - 1]] else [])
  }

  lemma SelectAppend<T>(q: seq<T>, flags: seq<bool>, x: T, flag: bool)
    requires |q| == |flags|
    ensures Select(q + [x], flags + [flag]) == Select(q, flags) + (if flag then [x] else [])
  {
    assert (q + [x])[..|q|] == q && (flags + [flag])[..|q|] == flags;
  }

  // ---- inbound accounting ----

  /**
   Frames accepted since the queue was last reset and which of them were kept; frames taken off the queue and
   which of those the caller had room for; a drop no poll has reported, and one whose bit is still to be raised.
   */
  datatype Inbound = Inbound(accepted: seq<Frame>, kept: seq<bool>, taken: seq<Frame>, fitted: seq<bool>,
                             unreported: bool, unflagged: bool)

  /** accepted = delivered in order + refused by the caller's capacity + queued + dropped on a full queue. */
  ghost predicate Accounted(i: Inbound, queue: seq<Frame>, overflow: bool) {
    && |queue| <= QUEUE_CAPACITY
    && |i.kept| == |i.accepted| && Select(i.accepted, i.kept) == i.taken + queue
    && |i.fitted| == |i.taken|
    && (i.unreported ==> overflow || i.unflagged)
  }

  ghost function DeliveredOf(i: Inbound): seq<Frame>
    requires |i.fitted| == |i.taken|
  {
    Select(i.taken, i.fitted)
  }

  ghost function Arrive(i: Inbound, f: Frame, room: bool): Inbound {
    i.(accepted := i.accepted + [f], kept := i.kept + [room],
       unreported := i.unreported || !room, unflagged := i.unflagged || !room)
  }

  ghost function Leave(i: Inbound, f: Frame, fits: bool): Inbound {
    i.(taken := i.taken + [f], fitted := i.fitted + [fits])
  }

  lemma ArriveAccounted(i: Inbound, queue: seq<Frame>, overflow: bool, f: Frame, room: bool)
    requires Accounted(i, queue, overflow) && (room ==> |queue| < QUEUE_CAPACITY)
    ensures Accounted(Arrive(i, f, room), if room then queue + [f] else queue, overflow)
  {
    SelectAppend(i.accepted, i.kept, f, room);
    assert i.taken + queue + [f] == i.taken + (queue + [f]);
  }

  lemma LeaveAccounted(i: Inbound, queue: seq<Frame>, overflow: bool, fits: bool)
    requires Accounted(i, queue, overflow) && queue != []
    ensures Accounted(Leave(i, queue[0], fits), queue[1..], overflow)
    ensures DeliveredOf(Leave(i, queue[0], fits)) == DeliveredOf(i) + (if fits then [queue[0]] else [])
  {
    SelectAppend(i.taken, i.fitted, queue[0], fits);
    assert i.taken + [queue[0]] + queue[1..] == i.taken + queue;
  }

  function Trues(flags: seq<bool>): nat {
    if flags == [] then 0 else Trues(flags[..|flags| - 1]) + (if flags[|flags| - 1] then 1 else 0)
  }

  lemma {:induction false} SelectLength<T>(q: seq<T>, flags: seq<bool>)
    requires |q| == |flags|
    ensures |Select(q, flags)| == Trues(flags)
  {
    if q != [] {
      SelectLength(q[..|q| - 1], flags[..|q| - 1]);
    }
  }

  /** The balance in numbers. */
  lemma InboundBalance(i: Inbound, queue: seq<Frame>, overflow: bool)
    requires Accounted(i, queue, overflow)
    ensures |i.accepted| == |DeliveredOf(i)| + (|i.taken| - Trues(i.fitted)) + |queue| + (|i.accepted| - Trues(i.kept))
    ensures i.taken <= Select(i.accepted, i.kept)
  {
    SelectLength(i.accepted, i.kept);
    SelectLength(i.taken, i.fitted);
  }

  // ---- reconnect accounting ----

  /**
   CONNECTED events since the count was cleared, the count at connect, reconnect waits that succeeded since, and
   whether the baseline belongs to this count: a second connect on a live client clears the count alone.
   */
  datatype Session = Session(connected: nat, start: nat, successes: nat, orderly: bool)

  /** Until the count is about to wrap, every successful wait has used up one connection of its own. */
  ghost predicate Paced(s: Session, live: bool, connectCount: nat, baseline: nat) {
    && connectCount == s.connected % U32 && baseline < U32
    && (live && s.orderly && s.connected < U32 - 1 ==> baseline == s.start + s.successes && baseline <= connectCount)
  }

  lemma PacedCount(s: Session, live: bool, connectCount: nat, baseline: nat)
    requires Paced(s, live, connectCount, baseline)
    ensures connectCount == s.connected % U32
  {
  }

  /** Successful reconnect waits never outnumber the reconnects since the session was established. */
  lemma SuccessesBounded(s: Session, connectCount: nat, baseline: nat)
    requires Paced(s, true, connectCount, baseline) && s.orderly && s.connected < U32 - 1
    ensures s.successes <= s.connected - s.start
  {
  }

  /** What one pass of the reconnect loop sees before each of its three loads. */
  datatype Tick = Tick(beforeCount: seq<Op>, beforeConnected: seq<Op>, beforeSubscribed: seq<Op>)

  datatype PollCode = Refused | NotConnected | NoFrame | Received

  // ---- what the event task does to the shared state ----

  /** The state the event task shares with the API; `connected` counts CONNECTED events without wrapping. */
  datatype Shared = Shared(bits: Bits, connectCount: nat, ackCount: nat, oversized: nat,
                           queue: seq<Frame>, inbound: Inbound, connected: nat)

  /** One atomic step. A frame is queued when there is room; otherwise it is dropped and a bit is owed. */
  ghost function Effect(s: Shared, ready: bool, op: Op): Shared {
    match op
    case CountConnected => s.(connected := s.connected + 1, connectCount := (s.connectCount + 1) % U32)
    case RaiseConnected => s.(bits := s.bits.(connected := true))
    case ResetAcks => s.(ackCount := 0)
    case LowerSubscribed => s.(bits := s.bits.(subscribed := false))
    case LowerBoth => s.(bits := s.bits.(connected := false, subscribed := false))
    case CountAck => s.(ackCount := (s.ackCount + 1) % U32)
    case RaiseSubscribed => s.(bits := s.bits.(subscribed := true))
    case CountOversized => s.(oversized := (s.oversized + 1) % U32)
    case RaiseLoopback => s.(bits := s.bits.(loopback := true))
    case Enqueue(f) =>
      var room := ready && |s.queue| < QUEUE_CAPACITY;
      s.(queue := if room then s.queue + [f] else s.queue, inbound := Arrive(s.inbound, f, room))
    case RaiseOverflow => s.(bits := s.bits.(overflow := true), inbound := s.inbound.(unflagged := false))
  }

  ghost function Effects(s: Shared, ready: bool, ops: seq<Op>): Shared {
    if ops == [] then s else Effect(Effects(s, ready, ops[..|ops| - 1]), ready, ops[|ops| - 1])
  }

  /** The event task only adds: arrivals behind what is queued, and drops that stay to be reported. */
  ghost predicate Grew(a: Shared, b: Shared) {
    && a.queue <= b.queue && a.inbound.accepted <= b.inbound.accepted
    && a.inbound.taken == b.inbound.taken && a.inbound.fitted == b.inbound.fitted
    && (a.inbound.unreported ==> b.inbound.unreported) && (a.bits.overflow ==> b.bits.overflow)
    && a.connected <= b.connected
  }

  lemma EffectsSnoc(s: Shared, ready: bool, ops: seq<Op>, op: Op)
    ensures Effects(s, ready, ops + [op]) == Effect(Effects(s, ready, ops), ready, op)
  {
    assert (ops + [op])[..|ops|] == ops;
  }

  lemma {:induction false} EffectsConcat(s: Shared, ready: bool, a: seq<Op>, b: seq<Op>)
    ensures Effects(s, ready, a + b) == Effects(Effects(s, ready, a), ready, b)
  {
    hide Effect;
    if b == [] {
      assert a + b == a;
    } else {
      var front, last := b[..|b| - 1], b[|b| - 1];
      EffectsConcat(s, ready, a, front);
      EffectsSnoc(s, ready, a + front, last);
      assert a + b == a + front + [last];
    }
  }

  lemma NothingGrew(s: Shared)
    ensures Grew(s, s)
  {
  }

  lemma EffectGrows(s: Shared, ready: bool, op: Op)
    ensures Grew(s, Effect(s, ready, op))
    ensures Effect(s, ready, op).connected == s.connected + if op == CountConnected then 1 else 0
  {
  }

  lemma GrewOnward(a: Shared, b: Shared, c: Shared)
    requires Grew(a, b) && Grew(b, c)
    ensures Grew(a, c)
  {
  }

  lemma {:induction false} EffectsGrow(s: Shared, ready: bool, ops: seq<Op>)
    ensures Grew(s, Effects(s, ready, ops))
    ensures Effects(s, ready, ops).connected == s.connected + Connections(ops)
  {
    hide Effect, Grew;
    if ops == [] {
      NothingGrew(s);
    } else {
      var front := ops[..|ops| - 1];
      EffectsGrow(s, ready, front);
      EffectGrows(Effects(s, ready, front), ready, ops[|ops| - 1]);
      GrewOnward(s, Effects(s, ready, front), Effects(s, ready, ops));
    }
  }

  /** All the steps that fall before the first `n` looks. */
  function Flat(ticks: seq<seq<Op>>, n: nat): seq<Op>
    requires n <= |ticks|
  {
    if n == 0 then [] else Flat(ticks, n - 1) + ticks[n - 1]
  }

  // ---- the callbacks as sequences of steps ----

  /** A reconnect also forgets the acknowledgements; `count` is the number of connects including this one. */
  function ConnectedSteps(count: nat): seq<Op> {
    [CountConnected, RaiseConnected] + (if count > 1 then [ResetAcks, LowerSubscribed] else [])
  }

  /** All filters count as renewed once there is an acknowledgement for each. */
  function SubscribedSteps(acknowledged: nat, filters: nat): seq<Op> {
    [CountAck] + (if 0 < filters <= acknowledged then [RaiseSubscribed] else [])
  }

  function DataSteps(verdict: Verdict, e: Event, loopback: bool, room: bool): seq<Op>
    requires verdict == Accept ==> e.topic.Some? && e.data.Some?
  {
    match verdict
    case Discard => []
    case Oversized => [CountOversized]
    case Accept =>
      (if loopback then [RaiseLoopback] else []) + [Enqueue(Message(e.topic.value, e.data.value))] +
      (if room then [] else [RaiseOverflow])
  }

  class Carrier {
    const bounds: Bounds
    const table: Table
    var clientLive: bool
    var bits: Bits
    var connectCount: nat
    var ackCount: nat
    var baseline: nat
    var oversized: nat
    var queue: seq<Frame>
    var queueReady: bool
    var willConfigured: bool
    ghost var session: Session
    ghost var inbound: Inbound

    ghost predicate Valid()
      reads this, table, table.entries
    {
      && table.Valid()
      && Paced(session, clientLive, connectCount, baseline)
      && Accounted(inbound, queue, bits.overflow)
      && oversized < U32
    }

    ghost function Now(): Shared
      reads this
    {
      Shared(bits, connectCount, ackCount, oversized, queue, inbound, session.connected)
    }

    constructor (bounds: Bounds)
      ensures Valid() && fresh(table) && fresh(table.entries) && !clientLive && !queueReady && baseline == 0
      ensures this.bounds == bounds && table.Contents() == [] && table.plain
    {
      this.bounds := bounds;
      table := new Table();
      clientLive, queueReady, willConfigured := false, false, false;
      bits, connectCount, ackCount, baseline, oversized, queue := NO_BITS, 0, 0, 0, 0, [];
      session, inbound := Session(0, 0, 0, true), Inbound([], [], [], [], false, false);
    }

    /** What the event task never touches. */
    twostate predicate ApiStateUnchanged()
      reads this
    {
      && baseline == old(baseline) && clientLive == old(clientLive) && queueReady == old(queueReady)
      && session.start == old(session).start && session.successes == old(session).successes
      && session.orderly == old(session).orderly
    }

    // ---- the event task ----

    /** A frame goes to the queue when it is there and has room. */
    method Offer(frame: Frame)
      requires Valid()
      modifies this`queue, this`inbound
      ensures Valid() && Now() == Effect(old(Now()), queueReady, Enqueue(frame))
    {
      hide Select, Paced;
      var room := queueReady && |queue| < QUEUE_CAPACITY;
      ArriveAccounted(inbound, queue, bits.overflow, frame, room);
      inbound := Arrive(inbound, frame, room);
      if room {
        queue := queue + [frame];
      }
    }

    method CountConnection()
      requires Valid()
      modifies this`connectCount, this`session
      ensures Valid() && ApiStateUnchanged() && Now() == Effect(old(Now()), queueReady, CountConnected)
    {
      hide Accounted;
      session := session.(connected := session.connected + 1);
      connectCount := (connectCount + 1) % U32;
    }

    method ReportDrop()
      requires Valid()
      modifies this`bits, this`inbound
      ensures Valid() && Now() == Effect(old(Now()), queueReady, RaiseOverflow)
    {
      hide Paced, Select;
      bits := bits.(overflow := true);
      inbound := inbound.(unflagged := false);
    }

    method Micro(op: Op)
      requires Valid()
      modifies this
      ensures Valid() && ApiStateUnchanged() && Now() == Effect(old(Now()), queueReady, op)
    {
      hide Select, Paced, Accounted;
      match op {
        case CountConnected => CountConnection();
        case RaiseConnected => bits := bits.(connected := true);
        case ResetAcks => ackCount := 0;
        case LowerSubscribed => bits := bits.(subscribed := false);
        case LowerBoth => bits := bits.(connected := false, subscribed := false);
        case CountAck => ackCount := (ackCount + 1) % U32;
        case RaiseSubscribed => bits := bits.(subscribed := true);
        case CountOversized => oversized := (oversized + 1) % U32;
        case RaiseLoopback => bits := bits.(loopback := true);
        case Enqueue(frame) => Offer(frame);
        case RaiseOverflow => ReportDrop();
      }
    }

    /** Any number of event-task steps between two API steps. */
    method Interrupt(ops: seq<Op>)
      requires Valid()
      modifies this
      ensures Valid() && ApiStateUnchanged() && Now() == Effects(old(Now()), queueReady, ops)
      ensures Grew(old(Now()), Now()) && session.connected == old(session).connected + Connections(ops)
    {
      hide Accounted, Paced, Effect;
      var i := 0;
      while i < |ops|
        invariant 0 <= i <= |ops| && Valid() && ApiStateUnchanged()
        invariant Now() == Effects(old(Now()), queueReady, ops[..i])
      {
        Micro(ops[i]);
        EffectsSnoc(old(Now()), queueReady, ops[..i], ops[i]);
        assert ops[..i + 1] == ops[..i] + [ops[i]];
        i := i + 1;
      }
      assert ops[..|ops|] == ops;
      EffectsGrow(old(Now()), queueReady, ops);
    }

    /** The CONNECTED callback: one that is not the first since the count was cleared or wrapped renews every filter. */
    method OnConnected() returns (renewed: seq<Bytes>)
      requires Valid()
      modifies this
      ensures Valid() && ApiStateUnchanged()
      ensures Now() == Effects(old(Now()), queueReady, ConnectedSteps((old(connectCount) + 1) % U32))
      ensures connectCount == session.connected % 0x1_0000_0000
      ensures renewed == if session.connected % U32 > 1 then table.Contents() else []
      ensures session == old(session).(connected := old(session).connected + 1) && bits.connected
      ensures bits.subscribed == (old(bits.subscribed) && connectCount <= 1)
              && ackCount == (if connectCount > 1 then 0 else old(ackCount))
      ensures bits.loopback == old(bits.loopback) && bits.overflow == old(bits.overflow)
              && oversized == old(oversized) && queue == old(queue) && inbound == old(inbound)
    {
      hide Accounted, Paced, Effect, Effects;
      ConnectedCounts(Now(), queueReady);
      Micro(CountConnected);
      PacedCount(session, clientLive, connectCount, baseline);
      var count := connectCount;
      Micro(RaiseConnected);
      renewed := [];
      if count > 1 {
        Micro(ResetAcks);
        Micro(LowerSubscribed);
        renewed := table.entries[..table.count];
      }
      FourEffects(old(Now()), queueReady, CountConnected, RaiseConnected, ResetAcks, LowerSubscribed);
      ConnectedEffect(old(Now()), queueReady, count);
    }

    method OnDisconnected()
      requires Valid()
      modifies this
      ensures Valid() && ApiStateUnchanged() && Now() == Effects(old(Now()), queueReady, [LowerBoth])
      ensures !bits.connected && !bits.subscribed && bits.loopback == old(bits.loopback)
              && bits.overflow == old(bits.overflow) && connectCount == old(connectCount) && ackCount == old(ackCount)
              && oversized == old(oversized) && queue == old(queue) && inbound == old(inbound)
              && session == old(session)
    {
      Micro(LowerBoth);
      OneEffect(old(Now()), queueReady, LowerBoth);
    }

    /** The SUBSCRIBED callback. */
    method OnSubscribed()
      requires Valid()
      modifies this
      ensures Valid() && ApiStateUnchanged()
      ensures Now() == Effects(old(Now()), queueReady, SubscribedSteps((old(ackCount) + 1) % U32, |table.Contents()|))
      ensures ackCount == (old(ackCount) + 1) % 0x1_0000_0000
      ensures bits.subscribed == (old(bits.subscribed) || 0 < |table.Contents()| <= ackCount)
      ensures bits.connected == old(bits.connected) && bits.loopback == old(bits.loopback)
              && bits.overflow == old(bits.overflow) && connectCount == old(connectCount)
              && oversized == old(oversized) && queue == old(queue) && inbound == old(inbound)
              && session == old(session)
    {
      hide Accounted, Paced;
      Micro(CountAck);
      if table.count > 0 && ackCount >= table.count {
        Micro(RaiseSubscribed);
      }
      TwoEffects(old(Now()), queueReady, CountAck, RaiseSubscribed);
    }

    /** The DATA callback: each event is queued, dropped with its bit raised, counted oversized, or ignored. */
    method OnData(e: Event, loopback: bool) returns (verdict: Verdict)
      requires Valid()
      modifies this
      ensures Valid() && ApiStateUnchanged() && session == old(session)
      ensures verdict == Classify(bounds, e) && (verdict == Accept ==> e.topic.Some? && e.data.Some?)
      ensures Now() == Effects(old(Now()), queueReady,
              DataSteps(verdict, e, loopback, queueReady && |old(queue)| < QUEUE_CAPACITY))
      ensures oversized == if verdict == Oversized then (old(oversized) + 1) % U32 else old(oversized)
      ensures inbound.accepted == old(inbound).accepted + FrameOf(bounds, e)
      ensures verdict == Accept ==>
                var f := Message(e.topic.value, e.data.value);
                var room := queueReady && |old(queue)| < QUEUE_CAPACITY;
                && queue == (if room then old(queue) + [f] else old(queue))
                && inbound.accepted == old(inbound).accepted + [f]
                && (!room ==> bits.overflow && inbound.unreported)
      ensures verdict != Accept ==> queue == old(queue) && inbound == old(inbound) && bits == old(bits)
      ensures verdict == Accept ==>
                var room := queueReady && |old(queue)| < QUEUE_CAPACITY;
                && bits.loopback == (old(bits.loopback) || loopback) && bits.overflow == (old(bits.overflow) || !room)
                && bits.connected == old(bits.connected) && bits.subscribed == old(bits.subscribed)
      ensures connectCount == old(connectCount) && ackCount == old(ackCount)
    {
      hide Select, Accounted, Paced, Effects, Arrive;
      verdict := Classify(bounds, e);
      if verdict == Oversized {
        Micro(CountOversized);
        OneEffect(old(Now()), queueReady, CountOversized);
      } else if verdict == Accept {
        Admit(e, loopback);
      } else {
        NoEffect(old(Now()), queueReady);
      }
    }

    /** The accepted branch of the DATA callback. */
    method Admit(e: Event, loopback: bool)
      requires Valid() && e.topic.Some? && e.data.Some?
      modifies this
      ensures Valid() && ApiStateUnchanged() && session == old(session) && oversized == old(oversized)
      ensures var f := Message(e.topic.value, e.data.value);
              var room := queueReady && |old(queue)| < 4;
              && Now() == Effects(old(Now()), queueReady, DataSteps(Accept, e, loopback, room))
              && queue == (if room then old(queue) + [f] else old(queue))
              && inbound.accepted == old(inbound).accepted + [f]
              && (!room ==> bits.overflow && inbound.unreported)
              && bits.loopback == (old(bits.loopback) || loopback) && bits.overflow == (old(bits.overflow) || !room)
              && bits.connected == old(bits.connected) && bits.subscribed == old(bits.subscribed)
      ensures connectCount == old(connectCount) && ackCount == old(ackCount)
    {
      hide Select, Accounted, Paced, Effects;
      ghost var s, trace := old(Now()), [];
      NoEffect(s, queueReady);
      if loopback {
        Micro(RaiseLoopback);
        trace := [RaiseLoopback];
        OneEffect(s, queueReady, RaiseLoopback);
      }
      var f := Message(e.topic.value, e.data.value);
      var room := queueReady && |queue| < QUEUE_CAPACITY;
      Micro(Enqueue(f));
      EffectsSnoc(s, queueReady, trace, Enqueue(f));
      if !room {
        Micro(RaiseOverflow);
        EffectsSnoc(s, queueReady, trace + [Enqueue(f)], RaiseOverflow);
      } else {
        assert trace + [Enqueue(f)] + [] == trace + [Enqueue(f)];
      }
    }

    /** A whole stream of fragmented messages: each one is accepted in order, counted oversized, or unseen. */
    method OnStream(ghost q: seq<Sent>, events: seq<Event>, loopbacks: seq<bool>)
      requires Valid() && Stream(q) && events == StreamEvents(q) && |loopbacks| == |events|
      modifies this
      ensures Valid() && ApiStateUnchanged() && session == old(session)
      ensures inbound.accepted == old(inbound).accepted + Admitted(bounds, q)
      ensures oversized == (old(oversized) + (|q| - |Admitted(bounds, q)| - CountUnseen(bounds, q))) % U32
    {
      hide Valid, Classify, Accepted, OversizedIn, StreamEvents, Admitted, CountUnseen, Stream;
      OnEvents(events, loopbacks);
      StreamAccounted(bounds, q);
    }

    /** Any data events, in the order the callback sees them. */
    method OnEvents(events: seq<Event>, loopbacks: seq<bool>)
      requires Valid() && |loopbacks| == |events|
      modifies this
      ensures Valid() && ApiStateUnchanged() && session == old(session)
      ensures inbound.accepted == old(inbound).accepted + Accepted(bounds, events)
      ensures oversized == (old(oversized) + OversizedIn(bounds, events)) % U32
      decreases |events|
    {
      assert oversized < U32;
      hide Valid, Classify, Accepted, OversizedIn, FrameOf;
      if events == [] {
        VerdictsNone(bounds);
      } else {
        var n := |events| - 1;
        ghost var front := events[..n];
        OnEvents(events[..n], loopbacks[..n]);
        Wrapped(old(oversized) + OversizedIn(bounds, front));
        OnEvent(events[n], loopbacks[n]);
        VerdictsStep(bounds, events, n);
        assert events[..n + 1] == events;
      }
    }

    /** One data event, counted. */
    method OnEvent(e: Event, loopback: bool)
      requires Valid()
      modifies this
      ensures Valid() && ApiStateUnchanged() && session == old(session)
      ensures inbound.accepted == old(inbound).accepted + FrameOf(bounds, e)
      ensures oversized == if Classify(bounds, e) == Oversized then (old(oversized) + 1) % U32 else old(oversized)
    {
      hide Classify, Effects, DataSteps;
      var _ := OnData(e, loopback);
    }

    // ---- the API ----

    /** `xQueueReset`: a fresh accounting period with nothing queued. */
    method ResetQueue()
      requires Valid()
      modifies this`queue, this`inbound
      ensures Valid() && Now() == Emptied(old(Now()))
    {
      queue := [];
      inbound := Inbound([], [], [], [], inbound.unreported, inbound.unflagged);
    }

    /** Ends the session's bookkeeping: no filter, no acknowledgement, no baseline, no connection. */
    method ResetState()
      requires Valid()
      modifies this, table
      ensures Valid() && table.Contents() == [] && table.plain && baseline == 0 && !willConfigured
      ensures session == Session(0, 0, 0, true) && clientLive == old(clientLive) && queueReady == old(queueReady)
      ensures var s := old(Now()).(connectCount := 0, ackCount := 0, connected := 0);
              Now() == if queueReady then Emptied(s) else s
      ensures connectCount == 0 && ackCount == 0 && queue == (if queueReady then [] else old(queue))
              && bits == old(bits) && oversized == old(oversized)
    {
      table.Clear();
      ackCount, baseline, willConfigured, connectCount := 0, 0, false, 0;
      session := Session(0, 0, 0, true);
      if queueReady {
        ResetQueue();
      }
    }

    method Prepare()
      requires Valid()
      modifies this, table
      ensures Valid() && queueReady && table.Contents() == [] && table.plain && !willConfigured
      ensures Now() == Emptied(old(Now())).(ackCount := 0)
      ensures ackCount == 0 && queue == [] && bits == old(bits) && connectCount == old(connectCount)
              && oversized == old(oversized)
      ensures baseline == old(baseline) && session == old(session) && clientLive == old(clientLive)
    {
      ResetQueue();
      queueReady := true;
      table.Clear();
      ackCount, willConfigured := 0, false;
    }

    method Disconnect(stopped: bool, destroyed: bool) returns (ok: bool)
      requires Valid()
      modifies this, table
      ensures Valid() && !clientLive && queueReady == old(queueReady)
      ensures ok == (!old(clientLive) || (stopped && destroyed))
      ensures old(clientLive) ==> baseline == 0 && table.Contents() == [] && table.plain
      ensures var s := old(Now()).(connectCount := 0, ackCount := 0, connected := 0);
              Now() == if !old(clientLive) then old(Now()) else if queueReady then Emptied(s) else s
      ensures old(clientLive) ==> connectCount == 0 && ackCount == 0 && queue == (if queueReady then [] else old(queue))
      ensures bits == old(bits) && oversized == old(oversized)
    {
      if !clientLive {
        return true;
      }
      clientLive := false;
      ResetState();
      ok := stopped && destroyed;
    }

    /**
     Opens a client and waits for CONNECTED. `named`, `identified` and `started` are the outcomes of the name,
     client-id and client-start steps; `early` and `late` run around the clearing of the count, `ticks` and
     `last` before each look at the connected bit, `beforeCount` before the baseline is taken. `looks` says how
     many looks the wait took before the last one.
     */
    method ConnectWait(named: bool, identified: bool, started: bool, early: seq<Op>, late: seq<Op>,
                       ticks: seq<seq<Op>>, last: seq<Op>, beforeCount: seq<Op>) returns (ok: bool, ghost looks: nat)
      requires Valid() && queueReady
      modifies this
      ensures Valid() && queueReady && looks <= |ticks|
      ensures ok ==> named && identified && started
      ensures named && identified && started ==>
                ok == Effects(ClearedBy(old(Now()), early, late), true, Flat(ticks, looks) + last).bits.connected
      ensures Now() ==
              (var cleared := ClearedBy(old(Now()), early, late);
               if !named then old(Now())
               else if !identified || !started then cleared
               else
                 var waited := Effects(cleared, true, Flat(ticks, looks) + last);
                 if ok then Effects(waited, true, beforeCount) else waited)
      ensures clientLive == if named && identified then ok else old(clientLive)
      ensures baseline == if ok then connectCount else old(baseline)
      ensures ok ==> session == Session(session.connected, session.connected, 0, true)
      ensures session.orderly == if named then identified || !old(clientLive) else old(session).orderly
    {
      hide Accounted, Effects, ClearedBy, Flat;
      looks := 0;
      if !named {
        return false, looks;
      }
      ClearSession(early, late);
      if !identified {
        return false, looks;
      }
      clientLive := started;
      session := session.(orderly := !started);
      if !started {
        return false, looks;
      }
      ok, looks := Establish(ticks, last, beforeCount);
    }

    /** The wait for CONNECTED once the client is started; a wait in vain destroys it. */
    method Establish(ticks: seq<seq<Op>>, last: seq<Op>, beforeCount: seq<Op>) returns (ok: bool, ghost looks: nat)
      requires Valid() && clientLive && !session.orderly && queueReady
      modifies this
      ensures Valid() && queueReady && looks <= |ticks| && clientLive == ok && session.orderly
      ensures ok == Effects(old(Now()), true, Flat(ticks, looks) + last).bits.connected
      ensures Now() == (var waited := Effects(old(Now()), true, Flat(ticks, looks) + last);
                        if ok then Effects(waited, true, beforeCount) else waited)
      ensures baseline == if ok then connectCount else old(baseline)
      ensures ok ==> session == Session(session.connected, session.connected, 0, true)
    {
      hide Accounted, Effects, Flat;
      ok, looks := AwaitConnected(ticks, last);
      if ok {
        Interrupt(beforeCount);
        baseline := connectCount;
        session := Session(session.connected, session.connected, 0, true);
      } else {
        clientLive := false;
        session := session.(orderly := true);
      }
    }

    /** The resets at the start of a connect. A client that is still live loses the match of count and baseline. */
    method ClearSession(early: seq<Op>, late: seq<Op>)
      requires Valid() && queueReady
      modifies this
      ensures Valid() && clientLive == old(clientLive) && baseline == old(baseline) && queueReady
      ensures Now() == ClearedBy(old(Now()), early, late) && session.orderly == !clientLive
    {
      hide Select;
      bits := NO_BITS;
      inbound := inbound.(unreported := false);
      session := session.(orderly := !clientLive);
      Interrupt(early);
      connectCount, ackCount := 0, 0;
      session := Session(0, 0, 0, session.orderly);
      ResetQueue();
      Interrupt(late);
    }

    method AwaitConnected(ticks: seq<seq<Op>>, last: seq<Op>) returns (ok: bool, ghost looks: nat)
      requires Valid()
      modifies this
      ensures Valid() && ApiStateUnchanged() && ok == bits.connected && looks <= |ticks|
      ensures Now() == Effects(old(Now()), queueReady, Flat(ticks, looks) + last)
    {
      hide Accounted, Paced, Effect;
      var i := 0;
      looks := 0;
      while i < |ticks|
        invariant 0 <= i <= |ticks| && Valid() && ApiStateUnchanged() && looks == i
        invariant Now() == Effects(old(Now()), queueReady, Flat(ticks, i))
      {
        Interrupt(ticks[i]);
        EffectsConcat(old(Now()), queueReady, Flat(ticks, i), ticks[i]);
        looks := i + 1;
        if bits.connected {
          break;
        }
        i := i + 1;
      }
      EffectsConcat(old(Now()), queueReady, Flat(ticks, looks), last);
      Interrupt(last);
      ok := bits.connected;
    }

    /**
     Waits for one connection beyond the baseline with every filter renewed. Success moves the baseline by
     exactly one, so it can be repeated only after one more CONNECTED event. `seen` are the event-task steps of
     the wait, before the two loads that decide.
     */
    method ReconnectWait(active: bool, ticks: seq<Tick>, lastBits: seq<Op>, lastCount: seq<Op>)
      returns (ok: bool, ghost seen: seq<Op>)
      requires Valid()
      modifies this
      ensures Valid() && clientLive == old(clientLive) && queueReady == old(queueReady)
      ensures session.orderly == old(session).orderly && session.start == old(session).start
      ensures var asked := clientLive && active && table.Contents() != [];
              && Now() == Effects(old(Now()), queueReady, if asked then seen + lastBits + lastCount else [])
              && (ok <==> asked && var mid := Effects(old(Now()), queueReady, seen + lastBits);
                                   mid.bits.connected && mid.bits.subscribed
                                       && connectCount >= (old(baseline) + 1) % U32)
      ensures Grew(old(Now()), Now()) && (ticks == [] ==> seen == [])
      ensures baseline == if ok then (old(baseline) + 1) % U32 else old(baseline)
      ensures session.successes == old(session).successes + (if ok then 1 else 0)
      ensures ok && session.orderly && session.connected < U32 - 1 ==> baseline <= session.connected
    {
      hide Accounted, Effects, Grew;
      ok, seen := false, [];
      NoEffect(Now(), queueReady);
      assert table.Contents() != [] <==> table.count != 0 by {
        assert |table.Contents()| == table.count;
      }
      if !clientLive || !active || table.count == 0 {
        return;
      }
      var expected := (baseline + 1) % U32;
      ok, seen := Renewed(expected, ticks, lastBits, lastCount);
      if ok {
        baseline := expected;
        session := session.(successes := session.successes + 1);
      }
    }

    /** The looks of a reconnect wait and the two loads that decide it. */
    method Renewed(expected: nat, ticks: seq<Tick>, lastBits: seq<Op>, lastCount: seq<Op>)
        returns (ok: bool, ghost seen: seq<Op>)
      requires Valid()
      modifies this
      ensures Valid() && ApiStateUnchanged() && Grew(old(Now()), Now()) && (ticks == [] ==> seen == [])
      ensures Now() == Effects(old(Now()), queueReady, seen + lastBits + lastCount)
      ensures var mid := Effects(old(Now()), queueReady, seen + lastBits);
              ok == (mid.bits.connected && mid.bits.subscribed && connectCount >= expected)
    {
      hide Accounted, Paced, Effects, Grew;
      seen := AwaitRenewal(ticks, expected);
      EffectsConcat(old(Now()), queueReady, seen, lastBits);
      Interrupt(lastBits);
      var ready := bits.connected && bits.subscribed;
      EffectsConcat(old(Now()), queueReady, seen + lastBits, lastCount);
      Interrupt(lastCount);
      EffectsGrow(old(Now()), queueReady, seen + lastBits + lastCount);
      ok := ready && connectCount >= expected;
    }

    method AwaitRenewal(ticks: seq<Tick>, expected: nat) returns (ghost seen: seq<Op>)
      requires Valid()
      modifies this
      ensures Valid() && ApiStateUnchanged() && Now() == Effects(old(Now()), queueReady, seen)
      ensures ticks == [] ==> seen == []
    {
      hide Accounted, Paced, Effect;
      var i := 0;
      seen := [];
      while i < |ticks|
        invariant 0 <= i <= |ticks| && Valid() && ApiStateUnchanged()
        invariant Now() == Effects(old(Now()), queueReady, seen) && (i == 0 ==> seen == [])
      {
        EffectsConcat(old(Now()), queueReady, seen, ticks[i].beforeCount);
        Interrupt(ticks[i].beforeCount);
        seen := seen + ticks[i].beforeCount;
        if connectCount >= expected {
          EffectsConcat(old(Now()), queueReady, seen, ticks[i].beforeConnected);
          Interrupt(ticks[i].beforeConnected);
          seen := seen + ticks[i].beforeConnected;
          if bits.connected {
            EffectsConcat(old(Now()), queueReady, seen, ticks[i].beforeSubscribed);
            Interrupt(ticks[i].beforeSubscribed);
            seen := seen + ticks[i].beforeSubscribed;
            if bits.subscribed {
              break;
            }
          }
        }
        i := i + 1;
      }
    }

    /** Reserves the filter, asks the client, and waits for one more acknowledgement than before. */
    method SubscribeWait(topic: Bytes, accepted: bool, beforeAcks: seq<Op>, beforeClear: seq<Op>,
                         ticks: seq<seq<Op>>, last: seq<Op>) returns (ok: bool, ghost looks: nat)
      requires Valid()
      modifies this, table, table.entries
      ensures Valid() && ApiStateUnchanged() && looks <= |ticks|
      ensures var admitted := clientLive && 0 < |topic| < bounds.topicCapacity;
              var reserved := admitted && (topic in old(table.Contents()) || |old(table.Contents())| < CAPACITY);
              && table.Contents() == (if admitted then Added(old(table.Contents()), topic) else old(table.Contents()))
              && table.plain == (old(table.plain) && (admitted ==> NUL !in topic))
              && Now() == Effects(old(Now()), queueReady,
                                  (if reserved then beforeAcks + beforeClear + [LowerSubscribed] else []) +
                                  (if reserved && accepted then Flat(ticks, looks) + last else []))
              && (reserved ==> CString(topic) in table.Contents())
              && (ok <==> reserved && accepted && ackCount > Effects(old(Now()), queueReady, beforeAcks).ackCount)
      ensures Grew(old(Now()), Now())
    {
      hide Accounted, Paced, Added, CString, Effects;
      ok, looks := false, 0;
      NoEffect(Now(), queueReady);
      if !clientLive || topic == [] || |topic| >= bounds.topicCapacity {
        return;
      }
      var reserved := table.Add(topic);
      if !reserved {
        return;
      }
      AddedHolds(old(table.Contents()), topic);
      ok, looks := AskAndWait(accepted, beforeAcks, beforeClear, ticks, last);
      ghost var asked := beforeAcks + beforeClear + [LowerSubscribed];
      assert asked + [] == asked;
    }

    /** Subscribing once the filter is reserved. */
    method AskAndWait(accepted: bool, beforeAcks: seq<Op>, beforeClear: seq<Op>, ticks: seq<seq<Op>>, last: seq<Op>)
      returns (ok: bool, ghost looks: nat)
      requires Valid()
      modifies this
      ensures Valid() && ApiStateUnchanged() && looks <= |ticks| && Grew(old(Now()), Now())
      ensures Now() == Effects(old(Now()), queueReady,
                               beforeAcks + beforeClear + [LowerSubscribed] +
                               (if accepted then Flat(ticks, looks) + last else []))
      ensures ok <==> accepted && ackCount > Effects(old(Now()), queueReady, beforeAcks).ackCount
    {
      hide Accounted, Paced, Effect, Effects, Grew;
      ok, looks := false, 0;
      ghost var start, asked := Now(), beforeAcks + beforeClear + [LowerSubscribed];
      Interrupt(beforeAcks);
      var prior := ackCount;
      EffectsConcat(start, queueReady, beforeAcks, beforeClear);
      Interrupt(beforeClear);
      EffectsSnoc(start, queueReady, beforeAcks + beforeClear, LowerSubscribed);
      Micro(LowerSubscribed);
      if !accepted {
        assert asked + [] == asked;
        EffectsGrow(start, queueReady, asked);
        return;
      }
      looks := AwaitAck(prior, ticks);
      EffectsConcat(start, queueReady, asked, Flat(ticks, looks));
      EffectsConcat(start, queueReady, asked + Flat(ticks, looks), last);
      Interrupt(last);
      assert asked + Flat(ticks, looks) + last == asked + (Flat(ticks, looks) + last);
      EffectsGrow(start, queueReady, asked + (Flat(ticks, looks) + last));
      ok := ackCount > prior;
    }

    method AwaitAck(prior: nat, ticks: seq<seq<Op>>) returns (ghost looks: nat)
      requires Valid()
      modifies this
      ensures Valid() && ApiStateUnchanged() && looks <= |ticks|
      ensures Now() == Effects(old(Now()), queueReady, Flat(ticks, looks))
    {
      hide Accounted, Paced, Effect;
      var i := 0;
      looks := 0;
      while i < |ticks|
        invariant 0 <= i <= |ticks| && Valid() && ApiStateUnchanged() && looks == i
        invariant Now() == Effects(old(Now()), queueReady, Flat(ticks, i))
      {
        Interrupt(ticks[i]);
        EffectsConcat(old(Now()), queueReady, Flat(ticks, i), ticks[i]);
        looks := i + 1;
        if ackCount > prior {
          break;
        }
        i := i + 1;
      }
    }

    /** Removes the filter once the client has agreed; the others keep their order. */
    method Unsubscribe(topic: Bytes, agreed: bool) returns (ok: bool)
      requires Valid()
      modifies table, table.entries
      ensures Valid() && table.plain == old(table.plain)
      ensures ok == (clientLive && 0 < |topic| < bounds.topicCapacity && agreed && topic in old(table.Contents()))
      ensures table.Contents() == if ok then Removed(old(table.Contents()), topic) else old(table.Contents())
    {
      ok := false;
      if !clientLive || topic == [] || |topic| >= bounds.topicCapacity {
        return;
      }
      var index := table.Find(topic);
      if index == table.count || !agreed {
        return;
      }
      ok := table.Remove(topic);
    }

    predicate Legal(topicCapacity: int, payloadCapacity: int) {
      0 < topicCapacity <= bounds.topicCapacity && 0 <= payloadCapacity <= bounds.payloadCapacity
    }

    /**
     One polled receive. A raised overflow bit is reported and cleared before anything else; a frame the caller
     has no room for is consumed and refused. Event-task steps run before each look at the shared state.
     */
    method Poll(topicCapacity: int, payloadCapacity: int, beforeOverflow: seq<Op>, beforeClear: seq<Op>,
                beforeConnected: seq<Op>, beforeReceive: seq<Op>) returns (code: PollCode, out: Option<Frame>)
      requires Valid()
      modifies this
      ensures Valid() && ApiStateUnchanged() && (out.Some? <==> code == Received)
      ensures !Legal(topicCapacity, payloadCapacity) ==> code == Refused && Now() == old(Now())
      ensures Legal(topicCapacity, payloadCapacity) ==>
                var s := Effects(old(Now()), queueReady, beforeOverflow);
                var t := Effects(s, queueReady, beforeConnected);
                var u := Effects(t, queueReady, beforeReceive);
                if s.bits.overflow then code == Refused && Now() == Reported(Effects(s, queueReady, beforeClear))
                else if !t.bits.connected then code == NotConnected && Now() == t
                else if !queueReady then code == Refused && Now() == t
                else if u.queue == [] then code == NoFrame && Now() == u
                else
                  var fits := Fits(u.queue[0], topicCapacity, payloadCapacity);
                  && code == (if fits then Received else Refused)
                  && (fits ==> out == Some(u.queue[0]))
                  && Now() == u.(queue := u.queue[1..], inbound := Leave(u.inbound, u.queue[0], fits))
      ensures Legal(topicCapacity, payloadCapacity) && old(bits.overflow) ==>
                code == Refused && inbound.taken == old(inbound).taken && !bits.overflow && !inbound.unreported
      ensures DeliveredOf(inbound) == old(DeliveredOf(inbound)) + (if out.Some? then [out.value] else [])
      ensures old(inbound).accepted <= inbound.accepted
      ensures code != Refused && old(inbound).unreported ==> inbound.unreported
    {
      hide Select, Paced, Effects;
      out := None;
      if topicCapacity <= 0 || payloadCapacity < 0 || topicCapacity > bounds.topicCapacity
          || payloadCapacity > bounds.payloadCapacity {
        return Refused, None;
      }
      Interrupt(beforeOverflow);
      if bits.overflow {
        Interrupt(beforeClear);
        bits := bits.(overflow := false);
        inbound := inbound.(unreported := false);
        return Refused, None;
      }
      code, out := PollQueue(topicCapacity, payloadCapacity, beforeConnected, beforeReceive);
    }

    /** The part of a poll behind the overflow report. */
    method PollQueue(topicCapacity: int, payloadCapacity: int, beforeConnected: seq<Op>, beforeReceive: seq<Op>)
      returns (code: PollCode, out: Option<Frame>)
      requires Valid()
      modifies this
      ensures Valid() && ApiStateUnchanged() && (out.Some? <==> code == Received)
      ensures var t := Effects(old(Now()), queueReady, beforeConnected);
              var u := Effects(t, queueReady, beforeReceive);
              if !t.bits.connected then code == NotConnected && Now() == t
              else if !queueReady then code == Refused && Now() == t
              else if u.queue == [] then code == NoFrame && Now() == u
              else
                var fits := Fits(u.queue[0], topicCapacity, payloadCapacity);
                && code == (if fits then Received else Refused)
                && (fits ==> out == Some(u.queue[0]))
                && Now() == u.(queue := u.queue[1..], inbound := Leave(u.inbound, u.queue[0], fits))
      ensures DeliveredOf(inbound) == old(DeliveredOf(inbound)) + (if out.Some? then [out.value] else [])
      ensures old(inbound).accepted <= inbound.accepted && (old(inbound).unreported ==> inbound.unreported)
    {
      hide Select, Paced, Effects;
      out := None;
      Interrupt(beforeConnected);
      if !bits.connected {
        return NotConnected, None;
      }
      if !queueReady {
        return Refused, None;
      }
      Interrupt(beforeReceive);
      if queue == [] {
        return NoFrame, None;
      }
      code, out := Receive(topicCapacity, payloadCapacity);
    }

    method Receive(topicCapacity: int, payloadCapacity: int) returns (code: PollCode, out: Option<Frame>)
      requires Valid() && queue != []
      modifies this`queue, this`inbound
      ensures Valid()
      ensures var f := old(queue)[0];
              var fits := Fits(f, topicCapacity, payloadCapacity);
              && queue == old(queue)[1..] && inbound == Leave(old(inbound), f, fits)
              && (if fits then code == Received && out == Some(f) else code == Refused && out == None)
              && (code == Received <==> 0 < |f.topic| <= topicCapacity && |f.payload| <= payloadCapacity)
              && DeliveredOf(inbound) == old(DeliveredOf(inbound)) + (if fits then [f] else [])
    {
      hide Select, Paced;
      var f := queue[0];
      LeaveAccounted(inbound, queue, bits.overflow, Fits(f, topicCapacity, payloadCapacity));
      queue := queue[1..];
      inbound := Leave(inbound, f, Fits(f, topicCapacity, payloadCapacity));
      if Fits(f, topicCapacity, payloadCapacity) {
        code, out := Received, Some(f);
      } else {
        code, out := Refused, None;
      }
    }
  }

  predicate Fits(f: Frame, topicCapacity: int, payloadCapacity: int) {
    0 < |f.topic| <= topicCapacity && |f.payload| <= payloadCapacity
  }

  /** The queue reset: nothing queued, and a fresh accounting period. */
  ghost function Emptied(s: Shared): Shared {
    s.(queue := [], inbound := Inbound([], [], [], [], s.inbound.unreported, s.inbound.unflagged))
  }

  /** The overflow bit taken down after a poll has reported it. */
  ghost function Reported(s: Shared): Shared {
    s.(bits := s.bits.(overflow := false), inbound := s.inbound.(unreported := false))
  }

  /** What the resets of a connect leave, with the event-task steps around them. */
  ghost function ClearedBy(s: Shared, early: seq<Op>, late: seq<Op>): Shared {
    var a := Effects(s.(bits := NO_BITS, inbound := s.inbound.(unreported := false)), true, early);
    Effects(Emptied(a).(connectCount := 0, ackCount := 0, connected := 0), true, late)
  }

  lemma NoEffect(s: Shared, ready: bool)
    ensures Effects(s, ready, []) == s && Effects(s, ready, [] + []) == s && Grew(s, s)
  {
    var none: seq<Op> := [];
    assert none + none == none;
  }

  lemma OneEffect(s: Shared, ready: bool, a: Op)
    ensures Effects(s, ready, [a]) == Effect(s, ready, a)
  {
    hide Effect;
    EffectsSnoc(s, ready, [], a);
    assert [] + [a] == [a];
  }

  lemma TwoEffects(s: Shared, ready: bool, a: Op, b: Op)
    ensures Effects(s, ready, [a] + []) == Effect(s, ready, a)
    ensures Effects(s, ready, [a] + [b]) == Effect(Effect(s, ready, a), ready, b)
  {
    hide Effect;
    OneEffect(s, ready, a);
    assert [a] + [] == [a];
    EffectsSnoc(s, ready, [a], b);
  }

  lemma FourEffects(s: Shared, ready: bool, a: Op, b: Op, c: Op, d: Op)
    ensures Effects(s, ready, [a, b] + []) == Effect(Effect(s, ready, a), ready, b)
    ensures Effects(s, ready, [a, b] + [c, d])
            == Effect(Effect(Effect(Effect(s, ready, a), ready, b), ready, c), ready, d)
  {
    hide Effect;
    TwoEffects(s, ready, a, b);
    assert [a, b] + [] == [a] + [b];
    EffectsSnoc(s, ready, [a] + [b], c);
    EffectsSnoc(s, ready, [a] + [b] + [c], d);
    assert [a, b] + [c, d] == [a] + [b] + [c] + [d];
  }

  lemma Wrapped(n: nat)
    ensures (n % U32 + 1) % U32 == (n + 1) % U32
  {
  }

  lemma VerdictsStep(b: Bounds, es: seq<Event>, i: nat)
    requires i < |es|
    ensures Accepted(b, es[..i + 1]) == Accepted(b, es[..i]) + FrameOf(b, es[i])
    ensures OversizedIn(b, es[..i + 1])
            == OversizedIn(b, es[..i]) + if Classify(b, es[i]) == Oversized then 1 else 0
  {
    hide Classify, FrameOf;
    var e := [es[i]];
    assert es[..i + 1] == es[..i] + e && e[1..] == [];
    VerdictsConcat(b, es[..i], e);
  }

  lemma VerdictsNone(b: Bounds)
    ensures Accepted(b, []) == [] && OversizedIn(b, []) == 0
  {
  }

  lemma AddedHolds(q: seq<Bytes>, topic: Bytes)
    requires forall e :: e in q ==> NUL !in e
    requires topic in q || |q| < CAPACITY
    ensures CString(topic) in Added(q, topic)
  {
    if topic !in q {
      assert Added(q, topic)[|q|] == CString(topic);
    }
  }


  /** From a lowered bit and a cleared count, the bit goes up at the n-th acknowledgement of n filters, not before. */
  method Acknowledge(c: Carrier, n: nat)
    requires c.Valid() && c.ackCount == 0 && !c.bits.subscribed && n < U32 && c.table.Contents() != []
    modifies c
    ensures c.Valid() && c.ackCount == n
    ensures c.bits.subscribed <==> n >= |c.table.Contents()|
  {
    ghost var filters := c.table.Contents();
    hide Accounted, Paced, Effects, SubscribedSteps, Table.Valid;
    var i := 0;
    while i < n
      invariant 0 <= i <= n && c.Valid() && c.table.Contents() == filters
      invariant c.ackCount == i && (c.bits.subscribed <==> i >= |filters|)
    {
      c.OnSubscribed();
      i := i + 1;
    }
  }

  // ---- where the pacing fails ----

  /**
   A connect on a live client whose identification fails clears the count but not the baseline. The two still agree
   exactly when the events that slip in after the clearing make up for it.
   */
  method SecondConnect(c: Carrier, early: seq<Op>, late: seq<Op>) returns (ok: bool)
    requires c.Valid() && c.queueReady && c.clientLive
    modifies c
    ensures c.Valid() && c.queueReady
    ensures !ok && c.clientLive && c.baseline == old(c.baseline) && !c.session.orderly
    ensures c.Now() == ClearedBy(old(c.Now()), early, late)
    ensures c.baseline <= c.connectCount <==> old(c.baseline) <= Connections(late) % U32
  {
    ghost var looks;
    ok, looks := c.ConnectWait(true, false, true, early, late, [], [], []);
    ClearedCount(old(c.Now()), early, late);
  }

  lemma {:induction false} CountFollows(s: Shared, ready: bool, ops: seq<Op>)
    requires s.connectCount == s.connected % U32
    ensures var t := Effects(s, ready, ops); t.connectCount == t.connected % U32
  {
    if ops != [] {
      CountFollows(s, ready, ops[..|ops| - 1]);
    }
  }

  lemma ClearedCount(s: Shared, early: seq<Op>, late: seq<Op>)
    ensures ClearedBy(s, early, late).connected == Connections(late)
    ensures ClearedBy(s, early, late).connectCount == Connections(late) % U32
  {
    var a := Effects(s.(bits := NO_BITS, inbound := s.inbound.(unreported := false)), true, early);
    var b := Emptied(a).(connectCount := 0, ackCount := 0, connected := 0);
    EffectsGrow(b, true, late);
    CountFollows(b, true, late);
  }

  lemma ConnectedCounts(s: Shared, ready: bool)
    ensures Effect(s, ready, CountConnected).connectCount == (s.connectCount + 1) % U32
    ensures Effect(s, ready, CountConnected).connected == s.connected + 1
  {
  }

  /** The CONNECTED callback in one step. */
  lemma ConnectedEffect(s: Shared, ready: bool, count: nat)
    ensures Effects(s, ready, ConnectedSteps(count)) ==
            (var t := s.(connected := s.connected + 1, connectCount := (s.connectCount + 1) % U32,
                         bits := s.bits.(connected := true));
             if count > 1 then t.(ackCount := 0, bits := t.bits.(subscribed := false)) else t)
  {
    FourEffects(s, ready, CountConnected, RaiseConnected, ResetAcks, LowerSubscribed);
  }

  /** The SUBSCRIBED callback of the one filter held. */
  lemma SubscribedEffect(s: Shared, ready: bool, acknowledged: nat)
    requires acknowledged > 0
    ensures Effects(s, ready, SubscribedSteps(acknowledged, 1)) ==
            s.(ackCount := (s.ackCount + 1) % U32, bits := s.bits.(subscribed := true))
  {
    TwoEffects(s, ready, CountAck, RaiseSubscribed);
  }

  /** A fresh carrier whose client is connected by its first CONNECTED callback. */
  method Established(bounds: Bounds) returns (c: Carrier)
    ensures c.Valid() && fresh(c) && fresh(c.table) && fresh(c.table.entries) && c.bounds == bounds
    ensures c.clientLive && c.queueReady && c.session == Session(1, 1, 0, true) && c.table.Contents() == []
    ensures c.baseline == 1 && c.connectCount == 1 && c.ackCount == 0 && c.bits.connected
  {
    hide Carrier.Valid, Effects, Flat, ClearedBy;
    c := new Carrier(bounds);
    c.Prepare();
    FirstConnected(c.Now());
    ghost var looks;
    var ok;
    ok, looks := c.ConnectWait(true, true, true, [], [], [], ConnectedSteps(1), []);
  }

  lemma FirstConnected(s: Shared)
    ensures var t := Effects(ClearedBy(s, [], []), true, Flat([], 0) + ConnectedSteps(1));
            && t.bits.connected && t.connected == t.connectCount == 1 && t.ackCount == 0
            && Effects(t, true, []) == t
  {
    assert Flat([], 0) + ConnectedSteps(1) == ConnectedSteps(1);
    NoEffect(s.(bits := NO_BITS, inbound := s.inbound.(unreported := false)), true);
    var cleared := ClearedBy(s, [], []);
    NoEffect(cleared, true);
    NoEffect(Effects(cleared, true, ConnectedSteps(1)), true);
    ConnectedEffect(cleared, true, 1);
  }

  /** Subscribes to the one filter and is answered by a SUBSCRIBED callback. */
  method Subscribe(c: Carrier) returns (ok: bool)
    requires c.Valid() && c.clientLive && c.bounds.topicCapacity > 1 && c.ackCount + 1 < U32
    requires c.table.Contents() == [] || c.table.Contents() == [[97]]
    modifies c, c.table, c.table.entries
    ensures c.Valid() && c.ApiStateUnchanged() && ok && c.table.Contents() == [[97]]
    ensures c.Now() == old(c.Now()).(ackCount := old(c.ackCount) + 1, bits := old(c.bits).(subscribed := true))
  {
    hide Carrier.Valid, Effects, Flat, Added, Grew;
    AskedAndAnswered(c.Now(), c.queueReady);
    AddedFirst();
    ghost var looks;
    ok, looks := c.SubscribeWait([97], true, [], [], [], SubscribedSteps(c.ackCount + 1, 1));
  }

  lemma AddedFirst()
    ensures Added([], [97]) == [[97]] && Added([[97]], [97]) == [[97]]
  {
    assert [97][1..] == [];
    assert [97] in [[97]];
  }

  lemma AskedAndAnswered(s: Shared, ready: bool)
    requires s.ackCount + 1 < U32
    ensures Effects(s, ready, []) == s
    ensures Effects(s, ready, [] + [] + [LowerSubscribed] + (Flat([], 0) + SubscribedSteps(s.ackCount + 1, 1))) ==
            s.(ackCount := s.ackCount + 1, bits := s.bits.(subscribed := true))
  {
    hide Effects;
    NoEffect(s, ready);
    var answer := SubscribedSteps(s.ackCount + 1, 1);
    assert [] + [] + [LowerSubscribed] + (Flat([], 0) + answer) == [LowerSubscribed] + answer;
    EffectsConcat(s, ready, [LowerSubscribed], answer);
    OneEffect(s, ready, LowerSubscribed);
    SubscribedEffect(s.(bits := s.bits.(subscribed := false)), ready, s.ackCount + 1);
  }

  /** The connection is lost and made again, and the broker acknowledges the filter if it is renewed. */
  method Reconnect(c: Carrier) returns (renewed: seq<Bytes>)
    requires c.Valid() && c.table.Contents() == [[97]]
    modifies c
    ensures c.Valid() && c.ApiStateUnchanged() && c.bits.connected
    ensures c.session.connected == old(c.session).connected + 1 && c.connectCount == (old(c.connectCount) + 1) % U32
    ensures renewed == if c.connectCount > 1 then c.table.Contents() else []
    ensures if c.connectCount > 1 then c.bits.subscribed && c.ackCount == 1
            else !c.bits.subscribed && c.ackCount == old(c.ackCount)
  {
    hide Carrier.Valid, Effects;
    OneEffect(c.Now(), c.queueReady, LowerBoth);
    c.OnDisconnected();
    ConnectedEffect(c.Now(), c.queueReady, (c.connectCount + 1) % U32);
    renewed := c.OnConnected();
    if renewed != [] {
      SubscribedEffect(c.Now(), c.queueReady, 1);
      c.OnSubscribed();
    }
  }

  /** A reconnect wait in which nothing happens. */
  method Look(c: Carrier) returns (ok: bool)
    requires c.Valid() && c.clientLive && c.table.Contents() != []
    modifies c
    ensures c.Valid() && c.clientLive && c.queueReady == old(c.queueReady) && c.Now() == old(c.Now())
    ensures ok == (c.bits.connected && c.bits.subscribed && c.connectCount >= (old(c.baseline) + 1) % U32)
    ensures c.baseline == if ok then (old(c.baseline) + 1) % U32 else old(c.baseline)
    ensures c.session == old(c.session).(successes := old(c.session).successes + if ok then 1 else 0)
  {
    hide Carrier.Valid, Effects, Grew;
    NoEffect(c.Now(), c.queueReady);
    ThreeNone();
    ghost var seen;
    ok, seen := c.ReconnectWait(true, [], [], []);
  }

  lemma ThreeNone()
    ensures var none: seq<Op> := []; none + none == none && none + none + none == none
  {
  }

  /**
   From a fresh carrier: connect, subscribe, fail a second connect, lose the connection and get it back. The callback
   takes this for a first connection and renews nothing. Even after the filter is subscribed again, with both bits
   up, a reconnect wait fails.
   */
  method StaleBaseline(bounds: Bounds) returns (c: Carrier, renewed: seq<Bytes>, again: bool, ok: bool)
    requires bounds.topicCapacity > 1
    ensures c.Valid() && c.clientLive && c.table.Contents() == [[97]] && !c.session.orderly
    ensures c.session.connected == 1 && renewed == [] && again
    ensures c.bits.connected && c.bits.subscribed && c.baseline == c.connectCount == 1 && !ok
  {
    hide Carrier.Valid, Effects, ClearedBy;
    c := Established(bounds);
    var subscribed := Subscribe(c);
    ghost var s := c.Now();
    var failed := SecondConnect(c, [], []);
    ClearedCount(s, [], []);
    ClearedPlain(s);
    renewed := Reconnect(c);
    again := Subscribe(c);
    ok := Look(c);
  }

  /** What a connect resets: every bit, both counts and the queue with its accounting; nothing else. */
  lemma ClearedPlain(s: Shared)
    ensures ClearedBy(s, [], []) ==
            s.(bits := Bits(false, false, false, false), connectCount := 0, ackCount := 0, connected := 0, queue := [],
               inbound := Inbound([], [], [], [], false, s.inbound.unflagged))
  {
    NoEffect(Emptied(s.(bits := NO_BITS, inbound := s.inbound.(unreported := false)))
                 .(connectCount := 0, ackCount := 0, connected := 0), true);
    NoEffect(s.(bits := NO_BITS, inbound := s.inbound.(unreported := false)), true);
  }

  /**
   A reconnect and a successful wait, 2^32 - 2 times. Then the expected count wraps to zero, and one more wait
   succeeds without a connection of its own.
   */
  method ExpectedWraps(bounds: Bounds) returns (c: Carrier, ok: bool)
    requires bounds.topicCapacity > 1
    ensures c.Valid() && c.clientLive && c.session.orderly && ok && c.baseline == 0
    ensures c.session.connected == U32 - 1 && c.session.start == 1
    ensures c.session.successes == c.session.connected - c.session.start + 1
  {
    hide Accounted, Paced, Table.Valid;
    c := Established(bounds);
    ok := Subscribe(c);
    var i := 1;
    while i < U32 - 1
      invariant 1 <= i <= U32 - 1 && c.Valid() && fresh(c) && c.clientLive && c.table.Contents() == [[97]]
      invariant c.session == Session(i, 1, i - 1, true) && c.connectCount == c.baseline == i
      invariant c.bits.connected && c.bits.subscribed
      modifies c
    {
      var renewed := Reconnect(c);
      ok := Look(c);
      i := i + 1;
    }
    ok := Look(c);
  }

  /**
   2^32 - 1 reconnects without a wait wrap the count itself: the callback renews nothing, and with the filter
   subscribed again a reconnect wait still fails.
   */
  method CountWraps(bounds: Bounds) returns (c: Carrier, renewed: seq<Bytes>, ok: bool)
    requires bounds.topicCapacity > 1
    ensures c.Valid() && fresh(c) && fresh(c.table) && fresh(c.table.entries)
    ensures c.clientLive && c.session.orderly && c.table.Contents() == [[97]]
    ensures c.session.connected == U32 && c.session.start == 1 && c.baseline == 1 && c.connectCount == 0
    ensures c.bits.connected && c.bits.subscribed && renewed == [] && !ok
  {
    hide Accounted, Paced, Table.Valid;
    c := Established(bounds);
    ok := Subscribe(c);
    var i := 1;
    while i < U32 - 1
      invariant 1 <= i <= U32 - 1 && c.Valid() && fresh(c) && c.clientLive && c.table.Contents() == [[97]]
      invariant c.session == Session(i, 1, 0, true) && c.connectCount == i && c.baseline == 1 && c.ackCount == 1
      modifies c
    {
      renewed := Reconnect(c);
      i := i + 1;
    }
    renewed := Reconnect(c);
    ok := Subscribe(c);
    ok := Look(c);
  }

  /** The CONNECTED event behind the wrap renews nothing either. */
  method RenewalWraps(bounds: Bounds) returns (c: Carrier, renewed: seq<Bytes>)
    requires bounds.topicCapacity > 1
    ensures c.Valid() && c.clientLive && c.session.orderly && c.table.Contents() == [[97]]
    ensures c.session.connected == U32 + 1 && c.bits.connected && !c.bits.subscribed && renewed == []
  {
    hide Carrier.Valid;
    var ok;
    c, renewed, ok := CountWraps(bounds);
    renewed := Reconnect(c);
  }
}
