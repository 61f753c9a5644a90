/**
 Inbound MQTT messages: the verdict on one data event, and what a stream of fragmented messages comes to.
 Bounds are the buffer capacities, one byte above the composed topic and payload limits.
 */
module MqttEvents {

  import opened Basics

  datatype Bounds = Bounds(topicCapacity: int, payloadCapacity: int)

  datatype Verdict = Discard | Oversized | Accept

  /** What the client library reports of one data event; a missing pointer is `None`. */
  datatype Event = Event(topic: Option<Bytes>, topicLength: int, data: Option<Bytes>, dataLength: int, total: int,
      offset: int)

  function Classify(b: Bounds, e: Event): Verdict {
    if e.offset != 0 then Discard
    else if e.topic.None? || e.topicLength <= 0 || e.dataLength < 0 || e.total < 0 || e.dataLength > e.total
        then Discard
    else if e.topicLength >= b.topicCapacity || e.total >= b.payloadCapacity || e.dataLength != e.total then Oversized
    else if e.data.None? then Discard
    else Accept
  }

  /** Exactly the first, complete and well-formed events within the bounds are accepted; some others are counted. */
  lemma VerdictMeans(b: Bounds, e: Event)
    ensures Classify(b, e) == Accept <==>
            && e.offset == 0 && e.topic.Some? && e.data.Some?
            && 0 < e.topicLength < b.topicCapacity && 0 <= e.dataLength == e.total < b.payloadCapacity
    ensures Classify(b, e) == Oversized <==>
            && e.offset == 0 && e.topic.Some? && 0 < e.topicLength && 0 <= e.dataLength <= e.total
            && (b.topicCapacity <= e.topicLength || b.payloadCapacity <= e.total || e.dataLength < e.total)
  {
  }

  // ---- messages and their fragments ----

  datatype Message = Message(topic: Bytes, payload: Bytes)

  /** A piece of the payload as one event reports it. */
  datatype Part = Part(length: nat, pointer: bool)

  /**
   How the client cut the payload, as far as the connection lasted. Any piece may be empty, and only an empty one may
   come without a pointer.
   */
  ghost predicate Cuts(m: Message, parts: seq<Part>) {
    && parts != [] && Sum(parts) <= |m.payload|
    && forall i :: 0 <= i < |parts| && parts[i].length > 0 ==> parts[i].pointer
  }

  function Sum(parts: seq<Part>): nat {
    if parts == [] then 0 else parts[0].length + Sum(parts[1..])
  }

  /** The event of the piece at `offset`; only the first event names the topic. */
  function PartEvent(m: Message, first: bool, offset: nat, part: Part): Event
    requires offset + part.length <= |m.payload|
  {
    Event(if first then Some(m.topic) else None, if first then |m.topic| else 0,
          if part.pointer then Some(m.payload[offset..offset + part.length]) else None,
          part.length, |m.payload|, offset)
  }

  function EventsFrom(m: Message, first: bool, offset: nat, parts: seq<Part>): seq<Event>
    requires offset + Sum(parts) <= |m.payload|
    decreases |parts|
  {
    if parts == [] then []
    else [PartEvent(m, first, offset, parts[0])] + EventsFrom(m, false, offset + parts[0].length, parts[1..])
  }

  /** The frame an event carries when it is accepted. */
  function FrameOf(b: Bounds, e: Event): seq<Message> {
    if Classify(b, e) == Accept then [Message(e.topic.value, e.data.value)] else []
  }

  /** The frames the accepted events carry. */
  function Accepted(b: Bounds, es: seq<Event>): seq<Message> {
    if es == [] then [] else FrameOf(b, es[0]) + Accepted(b, es[1..])
  }

  function OversizedIn(b: Bounds, es: seq<Event>): nat {
    if es == [] then 0 else (if Classify(b, es[0]) == Oversized then 1 else 0) + OversizedIn(b, es[1..])
  }

  /** The first event brings all of the message, within the bounds. */
  predicate Whole(b: Bounds, m: Message, parts: seq<Part>)
    requires parts != []
  {
    |m.topic| < b.topicCapacity && |m.payload| < b.payloadCapacity && parts[0].length == |m.payload|
  }

  predicate Admissible(b: Bounds, m: Message, parts: seq<Part>)
    requires parts != []
  {
    m.topic != [] && Whole(b, m, parts) && parts[0].pointer
  }

  /** No topic, or a whole and empty message whose event has no payload pointer. */
  predicate Unseen(b: Bounds, m: Message, parts: seq<Part>)
    requires parts != []
  {
    m.topic == [] || (Whole(b, m, parts) && !parts[0].pointer)
  }

  /** Events behind the first are never accepted nor counted, also one at offset zero. */
  lemma {:induction false} ContinuationsDiscarded(b: Bounds, m: Message, offset: nat, parts: seq<Part>)
    requires offset + Sum(parts) <= |m.payload|
    ensures Accepted(b, EventsFrom(m, false, offset, parts)) == []
    ensures OversizedIn(b, EventsFrom(m, false, offset, parts)) == 0
    decreases |parts|
  {
    if parts != [] {
      ContinuationsDiscarded(b, m, offset + parts[0].length, parts[1..]);
      var es := EventsFrom(m, false, offset, parts);
      assert es[1..] == EventsFrom(m, false, offset + parts[0].length, parts[1..]);
    }
  }

  /**
   However it is cut, a message is accepted once, counted oversized once, or neither. It is neither exactly when it
   is unseen.
   */
  lemma MessageDecidedOnce(b: Bounds, m: Message, parts: seq<Part>)
    requires Cuts(m, parts)
    ensures var es := EventsFrom(m, true, 0, parts);
            && Accepted(b, es) == (if Admissible(b, m, parts) then [m] else [])
            && |Accepted(b, es)| + OversizedIn(b, es) <= 1
            && (|Accepted(b, es)| + OversizedIn(b, es) == 0 <==> Unseen(b, m, parts))
    ensures Unseen(b, m, parts) && m.topic != [] ==> m.payload == []
  {
    var es := EventsFrom(m, true, 0, parts);
    assert es[1..] == EventsFrom(m, false, parts[0].length, parts[1..]);
    ContinuationsDiscarded(b, m, parts[0].length, parts[1..]);
    if parts[0].length == |m.payload| {
      assert m.payload[0..|m.payload|] == m.payload;
    }
  }

  /** An empty message on a topic in bounds, reported without a payload pointer, vanishes; with one it is accepted. */
  lemma EmptyWithoutPointer(b: Bounds)
    requires b.topicCapacity > 1 && b.payloadCapacity > 0
    ensures var m, without, with := Message([97], []), [Part(0, false)], [Part(0, true)];
            && Cuts(m, without) && Unseen(b, m, without)
            && Accepted(b, EventsFrom(m, true, 0, without)) == []
            && OversizedIn(b, EventsFrom(m, true, 0, without)) == 0
            && Cuts(m, with) && Accepted(b, EventsFrom(m, true, 0, with)) == [m]
  {
    var m, without, with := Message([97], []), [Part(0, false)], [Part(0, true)];
    assert without[1..] == [] && with[1..] == [];
    MessageDecidedOnce(b, m, without);
    MessageDecidedOnce(b, m, with);
  }

  /** A topic alone, and the whole payload behind it at offset zero: counted once. */
  lemma TopicAlone(b: Bounds, m: Message)
    requires m.topic != [] && m.payload != []
    ensures var parts := [Part(0, false), Part(|m.payload|, true)];
            && Cuts(m, parts)
            && EventsFrom(m, true, 0, parts) == [PartEvent(m, true, 0, parts[0]), PartEvent(m, false, 0, parts[1])]
            && Accepted(b, EventsFrom(m, true, 0, parts)) == []
            && OversizedIn(b, EventsFrom(m, true, 0, parts)) == 1
  {
    var parts := [Part(0, false), Part(|m.payload|, true)];
    assert parts[1..] == [Part(|m.payload|, true)] && parts[1..][1..] == [];
    assert Sum(parts[1..]) == |m.payload|;
    assert EventsFrom(m, false, |m.payload|, []) == [];
    MessageDecidedOnce(b, m, parts);
  }

  // ---- streams of messages ----

  datatype Sent = Sent(message: Message, parts: seq<Part>)

  ghost predicate Stream(q: seq<Sent>) {
    forall i :: 0 <= i < |q| ==> Cuts(q[i].message, q[i].parts)
  }

  ghost function StreamEvents(q: seq<Sent>): seq<Event>
    requires Stream(q)
  {
    if q == [] then [] else EventsFrom(q[0].message, true, 0, q[0].parts) + StreamEvents(q[1..])
  }

  /** The admissible messages, in order. */
  ghost function Admitted(b: Bounds, q: seq<Sent>): (r: seq<Message>)
    requires Stream(q)
  {
    if q == [] then []
    else (if Admissible(b, q[0].message, q[0].parts) then [q[0].message] else []) + Admitted(b, q[1..])
  }

  ghost function CountUnseen(b: Bounds, q: seq<Sent>): (n: nat)
    requires Stream(q)
    ensures n == 0 <==> forall i :: 0 <= i < |q| ==> !Unseen(b, q[i].message, q[i].parts)
  {
    if q == [] then 0 else (if Unseen(b, q[0].message, q[0].parts) then 1 else 0) + CountUnseen(b, q[1..])
  }

  lemma {:induction false} VerdictsConcat(b: Bounds, s: seq<Event>, t: seq<Event>)
    ensures Accepted(b, s + t) == Accepted(b, s) + Accepted(b, t)
    ensures OversizedIn(b, s + t) == OversizedIn(b, s) + OversizedIn(b, t)
  {
    hide Classify, FrameOf;
    if s == [] {
      assert s + t == t;
    } else {
      assert (s + t)[0] == s[0];
      VerdictsConcat(b, s[1..], t);
      assert (s + t)[1..] == s[1..] + t;
    }
  }

  /**
   Over a stream the accepted frames are the admissible messages in order, and every other message that is not
   unseen is counted oversized once.
   */
  lemma {:induction false} StreamAccounted(b: Bounds, q: seq<Sent>)
    requires Stream(q)
    ensures Accepted(b, StreamEvents(q)) == Admitted(b, q)
    ensures |Admitted(b, q)| + OversizedIn(b, StreamEvents(q)) + CountUnseen(b, q) == |q|
  {
    hide Classify, Whole;
    if q != [] {
      var es := EventsFrom(q[0].message, true, 0, q[0].parts);
      StreamAccounted(b, q[1..]);
      MessageDecidedOnce(b, q[0].message, q[0].parts);
      VerdictsConcat(b, es, StreamEvents(q[1..]));
    }
  }
}
