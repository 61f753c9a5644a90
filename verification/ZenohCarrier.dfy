/**
 The Zenoh carrier: one session, eight subscription slots, a round-robin poll and a retained pending frame.
 The facade is an oracle: every call takes the facade's answers as arguments.
 */
module ZenohCarrier {
  import opened Basics
  import opened CarrierCounters
  import KeyExpression

  const SLOTS: nat := 8

  datatype Phase = Idle | Connected | Subscribed | Disconnected

  datatype Frame = Frame(key: Bytes, payload: Bytes)

  datatype Slot = Slot(active: bool, key: Bytes, handle: Option<nat>)

  const FREE: Slot := Slot(false, [], None)

  datatype Code = Success | QueueEmpty | QueueFull | FrameTooLarge | NotOpen | OtherFailure

  datatype Answer = Pulled(frame: Frame) | Told(code: Code)

  datatype Outcome = FrameOut | NoEvent | Closed | InsufficientCapacity | Failed

  // ---- the slot table ----

  ghost predicate Holds(slots: seq<Slot>, key: Bytes) {
    exists i :: 0 <= i < |slots| && slots[i].active && slots[i].key == key
  }

  /** The first free slot holds the new entry, and the other slots are as they were. */
  ghost predicate FirstTaken(before: seq<Slot>, after: seq<Slot>, entry: Slot) {
    exists i :: 0 <= i < |before| && !before[i].active && (forall j :: 0 <= j < i ==> before[j].active)
                && after == before[i := entry]
  }

  /** The slot of the key is cleared, and the other slots are as they were. */
  ghost predicate Freed(before: seq<Slot>, after: seq<Slot>, key: Bytes) {
    exists i :: 0 <= i < |before| && before[i].active && before[i].key == key && after == before[i := FREE]
  }

  ghost predicate Room(slots: seq<Slot>) {
    exists i :: 0 <= i < |slots| && !slots[i].active
  }

  function ActiveCount(slots: seq<Slot>): nat {
    if slots == [] then 0 else ActiveCount(slots[..|slots| - 1]) + (if slots[|slots| - 1].active then 1 else 0)
  }

  ghost function InUse(slots: seq<Slot>): set<nat> {
    set i | 0 <= i < |slots| && slots[i].active
  }

  lemma {:induction false} CountedInUse(slots: seq<Slot>)
    ensures ActiveCount(slots) == |InUse(slots)|
  {
    if slots != [] {
      var n := |slots| - 1;
      CountedInUse(slots[..n]);
      if slots[n].active {
        assert InUse(slots) == InUse(slots[..n]) + {n};
      } else {
        assert InUse(slots) == InUse(slots[..n]);
      }
    }
  }

  ghost predicate NoneActive(slots: seq<Slot>) {
    forall i :: 0 <= i < |slots| ==> !slots[i].active
  }

  ghost predicate TableOK(slots: seq<Slot>, maxTopic: nat) {
    && |slots| == SLOTS
    && (forall i :: 0 <= i < SLOTS && slots[i].active ==>
          slots[i].handle.Some? && 0 < |slots[i].key| <= maxTopic && KeyExpression.SubscriptionKey(slots[i].key))
    && (forall i, j :: 0 <= i < j < SLOTS && slots[i].active && slots[j].active ==> slots[i].key != slots[j].key)
  }

  lemma {:induction false} CountedActive(slots: seq<Slot>)
    ensures ActiveCount(slots) == 0 <==> NoneActive(slots)
  {
    if slots != [] {
      CountedActive(slots[..|slots| - 1]);
    }
  }

  // ---- the round-robin poll as a function ----

  /** The slot looked at in round `k` of a poll that starts with this cursor. */
  function Visit(cursor: nat, k: nat): (i: nat)
    ensures i < SLOTS
  {
    (cursor + 1 + k) % SLOTS
  }

  /** The facade's answer ends the poll: a frame, a closed session or a failure. */
  predicate Stops(slots: seq<Slot>, cursor: nat, answers: seq<Answer>, k: nat)
    requires |slots| == SLOTS && k < |answers|
  {
    slots[Visit(cursor, k)].active && answers[k] != Told(QueueEmpty) && answers[k] != Told(FrameTooLarge)
  }

  ghost predicate Passes(slots: seq<Slot>, cursor: nat, answers: seq<Answer>, n: nat)
    requires |slots| == SLOTS && n <= |answers|
  {
    forall k :: 0 <= k < n ==> !Stops(slots, cursor, answers, k)
  }

  // ---- what the counters are to show ----

  /** How many of the first `n` rounds ask an active slot and are told of an oversized frame. */
  function TooLarge(slots: seq<Slot>, cursor: nat, answers: seq<Answer>, n: nat): nat
    requires |slots| == SLOTS && n <= |answers|
  {
    if n == 0 then 0
    else
      TooLarge(slots, cursor, answers, n - 1) +
      if slots[(cursor + n) % 8].active && answers[n - 1] == Told(FrameTooLarge) then 1 else 0
  }

  /** The counters after a poll with so many oversized notices, the answer that ended it, and a frame handed over. */
  function Noted(c: Counters, oversized: nat, last: Answer, received: bool): Counters {
    c.(framesOversized := Plus(c.framesOversized, oversized),
       framesDropped := Plus(c.framesDropped, if last == Told(QueueFull) then 1 else 0),
       pollErrors := Plus(c.pollErrors, if last == Told(OtherFailure) then 1 else 0),
       sessionFailures := Plus(c.sessionFailures, if last == Told(NotOpen) || last == Told(OtherFailure) then 1 else 0),
       framesReceived := Plus(c.framesReceived, if received then 1 else 0))
  }

  function Failure(c: Counters, n: nat): Counters {
    c.(sessionFailures := Plus(c.sessionFailures, n))
  }

  function Recovered(c: Counters, n: int): Counters
    requires n >= 0
  {
    c.(reconnectsObserved := Plus(c.reconnectsObserved, n))
  }

  /** The gauge at this many subscriptions, and its peak. */
  function Using(c: Counters, n: nat): Counters {
    c.(active := n, peak := if c.peak < n then n else c.peak)
  }

  lemma GaugeMeans(c: Counters, n: nat)
    ensures SetActive(c, n) == Using(c, n)
    ensures n == 0 ==> SetActive(c, n) == c.(active := 0)
  {
  }

  lemma NothingNoted(c: Counters, slots: seq<Slot>, answers: seq<Answer>, cursor: nat)
    requires |slots| == SLOTS
    ensures TooLarge(slots, cursor, answers, 0) == 0 && Noted(c, 0, Told(QueueEmpty), false) == c
  {
  }

  /** One more round on top of the rounds before. */
  lemma NotedOnce(c: Counters, slots: seq<Slot>, cursor: nat, answers: seq<Answer>, k: nat)
    requires |slots| == SLOTS && k < |answers|
    ensures var n, m := TooLarge(slots, cursor, answers, k), TooLarge(slots, cursor, answers, k + 1);
            var asked := slots[(cursor + 1 + k) % 8].active;
            var notice := if answers[k] == Told(FrameTooLarge) then 1 else 0;
            var once := Noted(Noted(c, n, Told(QueueEmpty), false), notice, answers[k], false);
            && (asked && (answers[k] == Told(QueueEmpty) || answers[k] == Told(FrameTooLarge)) ==>
                  once == Noted(c, m, Told(QueueEmpty), false))
            && (asked && answers[k] != Told(QueueEmpty) && answers[k] != Told(FrameTooLarge) ==>
                  once == Noted(c, n, answers[k], false))
            && (!asked ==> m == n)
  {
    PlusOnce(c.framesOversized, TooLarge(slots, cursor, answers, k));
  }

  lemma PassesNothing(slots: seq<Slot>, cursor: nat, answers: seq<Answer>)
    requires |slots| == SLOTS
    ensures Passes(slots, cursor, answers, 0)
  {
  }

  lemma RoundMeans(slots: seq<Slot>, cursor: nat, answers: seq<Answer>, k: nat)
    requires |slots| == SLOTS && k < |answers|
    ensures Visit(cursor, k) == (cursor + 1 + k) % 8
    ensures Stops(slots, cursor, answers, k) <==>
            slots[(cursor + 1 + k) % 8].active && answers[k] != Told(QueueEmpty) && answers[k] != Told(FrameTooLarge)
    ensures Passes(slots, cursor, answers, k) && !Stops(slots, cursor, answers, k) ==>
              Passes(slots, cursor, answers, k + 1)
  {
  }

  lemma NotedReceived(c: Counters, n: nat, last: Answer)
    ensures Get(Noted(c, n, last, false), FramesReceived) == Get(c, FramesReceived)
  {
  }

  lemma PassesMeans(slots: seq<Slot>, cursor: nat, answers: seq<Answer>, n: nat)
    requires |slots| == SLOTS && n <= |answers| && Passes(slots, cursor, answers, n)
    ensures forall k :: 0 <= k < n && slots[(cursor + 1 + k) % 8].active ==>
              answers[k] == Told(QueueEmpty) || answers[k] == Told(FrameTooLarge)
  {
    forall k | 0 <= k < n && slots[(cursor + 1 + k) % 8].active
      ensures answers[k] == Told(QueueEmpty) || answers[k] == Told(FrameTooLarge)
    {
      assert !Stops(slots, cursor, answers, k);
    }
  }

  /** How many active slots the facade refuses to remove. */
  function Kept(slots: seq<Slot>, removals: seq<Code>, n: nat): nat
    requires n <= |slots| && n <= |removals|
  {
    if n == 0 then 0
    else
      Kept(slots, removals, n - 1) +
      if slots[n - 1].active && slots[n - 1].handle.Some? && removals[n - 1] != Success then 1 else 0
  }

  /** The counters after a teardown with so many refused removals and this answer to the close. */
  function Ended(c: Counters, kept: nat, closing: Code): Counters {
    if closing == Success then Failure(c, kept).(sessionCloses := Plus(c.sessionCloses, 1))
    else Failure(Failure(c, kept), 1)
  }

  lemma FailureNext(c: Counters, n: nat)
    ensures Failure(c, 0) == c && Note(Failure(c, n), SessionFailures) == Failure(c, n + 1)
  {
    PlusOnce(c.sessionFailures, n);
    NoteMeans(Failure(c, n), SessionFailures);
  }

  // ---- bounded bypass ----

  /** One poll that reached the facade; `stop` is the round that ended it, `SLOTS` when none did. */
  datatype Turn = Turn(active: seq<bool>, before: nat, stop: nat, after: nat)

  ghost predicate TurnOK(t: Turn) {
    && |t.active| == SLOTS && t.before < SLOTS && t.stop <= SLOTS
    && (t.stop < SLOTS ==> t.after == Visit(t.before, t.stop) && t.active[t.after])
    && (t.stop == SLOTS ==> t.after == t.before)
  }

  /** The slot was polled in this turn. */
  ghost predicate Polled(t: Turn, s: nat)
    requires TurnOK(t)
  {
    s < SLOTS && t.active[s] && exists k :: 0 <= k < SLOTS && k <= t.stop && Visit(t.before, k) == s
  }

  ghost predicate Chained(turns: seq<Turn>) {
    && (forall i :: 0 <= i < |turns| ==> TurnOK(turns[i]))
    && forall i :: 0 <= i < |turns| - 1 ==> turns[i].after == turns[i + 1].before
  }

  /** In how many rounds the cursor reaches the slot. */
  function Distance(cursor: nat, s: nat): nat
    requires cursor < SLOTS && s < SLOTS
  {
    (s + SLOTS - cursor + SLOTS - 1) % SLOTS
  }

  lemma DistanceReaches(cursor: nat, s: nat)
    requires cursor < SLOTS && s < SLOTS
    ensures Distance(cursor, s) < SLOTS && Visit(cursor, Distance(cursor, s)) == s
  {
  }

  lemma BypassShrinks(t: Turn, s: nat)
    requires TurnOK(t) && s < SLOTS && t.active[s] && !Polled(t, s)
    ensures t.stop < SLOTS && t.after < SLOTS && Distance(t.after, s) < Distance(t.before, s)
  {
    hide Visit, Distance;
    DistanceReaches(t.before, s);
    var d := Distance(t.before, s);
    assert !(d <= t.stop);
    DistanceStep(t.before, s, t.stop);
  }

  lemma DistanceStep(cursor: nat, s: nat, k: nat)
    requires cursor < SLOTS && s < SLOTS && k < Distance(cursor, s)
    ensures Distance(Visit(cursor, k), s) == Distance(cursor, s) - k - 1
  {
    assert Distance(cursor, s) == if s > cursor then s - cursor - 1 else s + SLOTS - cursor - 1;
    assert Visit(cursor, k) == if cursor + 1 + k < SLOTS then cursor + 1 + k else cursor + 1 + k - SLOTS;
  }

  lemma {:induction false} BypassBudget(turns: seq<Turn>, s: nat)
    requires Chained(turns) && turns != [] && s < SLOTS
    requires forall i :: 0 <= i < |turns| ==> turns[i].active[s] && !Polled(turns[i], s)
    ensures |turns| <= Distance(turns[0].before, s)
    decreases |turns|
  {
    BypassShrinks(turns[0], s);
    if |turns| > 1 {
      var rest := turns[1..];
      forall i | 0 <= i < |rest| - 1 ensures rest[i].after == rest[i + 1].before {
        assert turns[i + 1].after == turns[i + 1 + 1].before;
      }
      assert turns[0].after == turns[0 + 1].before;
      BypassBudget(rest, s);
    }
  }

  /** However slots come and go, an active slot is bypassed by at most seven polls in a row. */
  lemma BoundedBypass(turns: seq<Turn>, from: nat, to: nat, s: nat)
    requires Chained(turns) && from <= to <= |turns| && s < SLOTS
    requires forall i :: from <= i < to ==> turns[i].active[s] && !Polled(turns[i], s)
    ensures to - from <= SLOTS - 1
  {
    if from < to {
      var part := turns[from..to];
      forall i | 0 <= i < |part| - 1 ensures part[i].after == part[i + 1].before {
        assert turns[from + i].after == turns[from + i + 1].before;
      }
      BypassBudget(part, s);
      DistanceReaches(part[0].before, s);
    }
  }

  // ---- the carrier ----

  class Carrier {
    const maxTopic: nat
    const maxPayload: nat
    var phase: Phase
    var connectedRouterObserved: bool
    var routerLossObserved: bool
    var frame: Frame
    var hasPendingFrame: bool
    var pollCursor: nat
    var slots: seq<Slot>
    var counters: Counters
    /** This session: frames the facade gave up, frames handed to the caller, polls that reached the facade. */
    ghost var pulled: seq<Frame>
    ghost var delivered: seq<Frame>
    ghost var turns: seq<Turn>
    /** Frames delivered since the counters were last cleared. */
    ghost var sinceReset: nat
    /** This session: router losses observed, and recoveries counted. */
    ghost var losses: nat
    ghost var recoveries: nat

    ghost predicate Valid()
      reads this
    {
      && TableOK(slots, maxTopic) && pollCursor < SLOTS
      && (phase != Subscribed ==> NoneActive(slots) && !hasPendingFrame && !routerLossObserved)
      && pulled == delivered + (if hasPendingFrame then [frame] else [])
      && Get(counters, FramesReceived) == Saturate(sinceReset)
      && Chained(turns) && (turns != [] ==> turns[|turns| - 1].after == pollCursor)
      && losses == recoveries + (if routerLossObserved then 1 else 0)
      && (routerLossObserved ==> !connectedRouterObserved)
    }

    constructor (maxTopic: nat, maxPayload: nat)
      ensures Valid() && phase == Idle && pulled == [] && this.maxTopic == maxTopic && this.maxPayload == maxPayload
    {
      this.maxTopic, this.maxPayload := maxTopic, maxPayload;
      phase, connectedRouterObserved, routerLossObserved := Idle, false, false;
      frame, hasPendingFrame, pollCursor := Frame([], []), false, 0;
      slots := seq(SLOTS, _ => FREE);
      counters := CLEARED;
      pulled, delivered, turns, sinceReset, losses, recoveries := [], [], [], 0, 0, 0;
    }

    /** The histories and the poll position, which only polling and the session lifecycle change. */
    twostate predicate PollingUnchanged()
      reads this
    {
      && pollCursor == old(pollCursor) && turns == old(turns)
      && pulled == old(pulled) && delivered == old(delivered)
      && hasPendingFrame == old(hasPendingFrame) && frame == old(frame) && sinceReset == old(sinceReset)
    }

    twostate predicate RoutersUnchanged()
      reads this
    {
      && connectedRouterObserved == old(connectedRouterObserved) && routerLossObserved == old(routerLossObserved)
      && losses == old(losses) && recoveries == old(recoveries)
    }

    method ResetDiagnostics()
      requires Valid()
      modifies this`counters, this`sinceReset
      ensures Valid() && counters == CLEARED && sinceReset == 0
    {
      counters, sinceReset := CLEARED, 0;
    }

    method FindSlot(key: Bytes) returns (index: Option<nat>)
      requires |slots| == SLOTS
      ensures index.Some? <==> Holds(slots, key)
      ensures index.Some? ==> index.value < SLOTS && slots[index.value].active && slots[index.value].key == key
    {
      var i := 0;
      while i < SLOTS
        invariant 0 <= i <= SLOTS
        invariant forall j :: 0 <= j < i ==> !(slots[j].active && slots[j].key == key)
      {
        if slots[i].active && slots[i].key == key {
          return Some(i);
        }
        i := i + 1;
      }
      index := None;
    }

    method FindFreeSlot() returns (index: Option<nat>)
      requires |slots| == SLOTS
      ensures index.Some? <==> Room(slots)
      ensures index.Some? ==> index.value < SLOTS && !slots[index.value].active
      ensures index.Some? ==> forall j :: 0 <= j < index.value ==> slots[j].active
    {
      var i := 0;
      while i < SLOTS
        invariant 0 <= i <= SLOTS
        invariant forall j :: 0 <= j < i ==> slots[j].active
      {
        if !slots[i].active {
          return Some(i);
        }
        i := i + 1;
      }
      index := None;
    }

    /** Opens a session from idle or after a disconnect; a refused open leaves the carrier where it was. */
    method Connect(endpointLength: int, opening: Code, routers: Option<nat>) returns (ok: bool)
      requires Valid()
      modifies this
      ensures Valid() && slots == old(slots) && PollingUnchanged()
      ensures ok == (old(phase) in {Idle, Disconnected} && endpointLength > 0 && opening == Success)
      ensures phase == if ok then Connected else old(phase)
      ensures losses == old(losses) && recoveries == old(recoveries)
      ensures connectedRouterObserved == if ok then routers.Some? && routers.value > 0 else old(connectedRouterObserved)
      ensures ok ==> counters == old(counters).(sessionOpens := Plus(old(counters).sessionOpens, 1), active := 0)
      ensures !ok ==>
                counters == if old(phase) in {Idle, Disconnected} && endpointLength > 0
                            then Failure(old(counters), 1) else old(counters)
    {
      hide Note, SetActive, TableOK, Chained;
      NoteMeans(counters, SessionOpens);
      NoteMeans(counters, SessionFailures);
      CountedActive(slots);
      GaugeMeans(Note(counters, SessionOpens), ActiveCount(slots));
      if phase != Idle && phase != Disconnected {
        return false;
      }
      ok := false;
      if endpointLength > 0 {
        ok := opening == Success;
        counters := Note(counters, if ok then SessionOpens else SessionFailures);
      }
      if !ok {
        return;
      }
      connectedRouterObserved := routers.Some? && routers.value > 0;
      phase := Connected;
      counters := SetActive(counters, ActiveCount(slots));
    }

    /** Declares the topic once; an already declared topic succeeds without asking the facade. */
    method Subscribe(topic: Bytes, answer: Option<nat>) returns (ok: bool)
      requires Valid()
      modifies this
      ensures Valid() && PollingUnchanged() && RoutersUnchanged()
      ensures forall key :: Holds(slots, key) <==> Holds(old(slots), key) || (ok && key == topic)
      ensures ok ==> phase == Subscribed
      ensures !ok ==> phase == old(phase) && slots == old(slots)
      ensures ok == (old(phase) in {Connected, Subscribed} && 0 < |topic| <= maxTopic
                     && KeyExpression.SubscriptionKey(topic)
                     && (Holds(old(slots), topic) || (answer.Some? && Room(old(slots)))))
      ensures ok && Holds(old(slots), topic) ==> slots == old(slots)
      ensures ok && !Holds(old(slots), topic) ==> FirstTaken(old(slots), slots, Slot(true, topic, answer))
      ensures counters == if !ok then Failure(old(counters), 1)
                          else if Holds(old(slots), topic) then old(counters)
                          else Using(old(counters), |InUse(slots)|)
    {
      hide KeyExpression.SubscriptionKey, ActiveCount, InUse, Note, SetActive, Chained, Room, Holds, FirstTaken;
      NoteMeans(counters, SessionFailures);
      ok := false;
      if (phase != Connected && phase != Subscribed) || topic == [] || |topic| > maxTopic {
        counters := Note(counters, SessionFailures);
        return;
      }
      var valid := KeyExpression.IsValid(topic, true);
      if !valid {
        counters := Note(counters, SessionFailures);
        return;
      }
      var found := FindSlot(topic);
      if found.Some? {
        return true;
      }
      var free := FindFreeSlot();
      if free.None? || answer.None? {
        counters := Note(counters, SessionFailures);
        return;
      }
      Declare(topic, free.value, answer.value);
      ok := true;
    }

    /** Takes the free slot for the declared key. */
    method Declare(topic: Bytes, free: nat, handle: nat)
      requires Valid() && (phase == Connected || phase == Subscribed)
      requires 0 < |topic| <= maxTopic && KeyExpression.SubscriptionKey(topic) && !Holds(slots, topic)
      requires free < SLOTS && !slots[free].active && forall j :: 0 <= j < free ==> slots[j].active
      modifies this`slots, this`phase, this`counters
      ensures Valid() && phase == Subscribed
      ensures FirstTaken(old(slots), slots, Slot(true, topic, Some(handle)))
      ensures forall key :: Holds(slots, key) <==> Holds(old(slots), key) || key == topic
      ensures counters == Using(old(counters), |InUse(slots)|)
    {
      hide KeyExpression.SubscriptionKey, ActiveCount, InUse, SetActive, Chained, Holds;
      HoldsAfterSet(slots, free, Slot(true, topic, Some(handle)));
      TableAfterSet(slots, free, topic, handle, maxTopic);
      slots := slots[free := Slot(true, topic, Some(handle))];
      phase := Subscribed;
      CountedInUse(slots);
      GaugeMeans(counters, ActiveCount(slots));
      counters := SetActive(counters, ActiveCount(slots));
    }

    /** Removes exactly the topic; an unknown topic or a refused removal leaves the table alone. */
    method Unsubscribe(topic: Bytes, answer: Code) returns (ok: bool)
      requires Valid()
      modifies this
      ensures Valid() && PollingUnchanged() && RoutersUnchanged() && phase == old(phase)
      ensures ok == (phase == Subscribed && 0 < |topic| <= maxTopic && Holds(old(slots), topic) && answer == Success)
      ensures forall key :: Holds(slots, key) <==> Holds(old(slots), key) && !(ok && key == topic)
      ensures if ok then Freed(old(slots), slots, topic) else slots == old(slots)
      ensures counters == if ok then Using(old(counters), |InUse(slots)|) else Failure(old(counters), 1)
    {
      hide KeyExpression.SubscriptionKey, ActiveCount, InUse, Note, SetActive, Chained;
      NoteMeans(counters, SessionFailures);
      ok := false;
      if phase != Subscribed || topic == [] || |topic| > maxTopic {
        counters := Note(counters, SessionFailures);
        return;
      }
      var found := FindSlot(topic);
      if found.None? || answer != Success {
        counters := Note(counters, SessionFailures);
        return;
      }
      ghost var before := slots;
      slots := slots[found.value := FREE];
      HoldsAfterFree(before, found.value);
      CountedInUse(slots);
      GaugeMeans(counters, ActiveCount(slots));
      counters := SetActive(counters, ActiveCount(slots));
      ok := true;
    }

    /** Publishing needs a subscription, sizes within bounds and a wildcard-free key; refusals are counted. */
    method Publish(topic: Bytes, payload: Bytes, answer: Code) returns (ok: bool)
      requires Valid()
      modifies this`counters
      ensures Valid()
      ensures ok == (phase == Subscribed && 0 < |topic| <= maxTopic && |payload| <= maxPayload
                     && KeyExpression.PublicationKey(topic) && answer == Success)
      ensures var tried := old(counters).(publishAttempts := Plus(old(counters).publishAttempts, 1));
              var failed := tried.(publishFailures := Plus(tried.publishFailures, 1));
              counters == if ok then tried
                          else if phase == Subscribed && 0 < |topic| <= maxTopic && |payload| <= maxPayload
                               && KeyExpression.PublicationKey(topic) then Failure(failed, 1)
                          else failed
    {
      hide Note, KeyExpression.PublicationKey, TableOK, Chained;
      ok := false;
      NoteMeans(counters, PublishAttempts);
      counters := Note(counters, PublishAttempts);
      var admitted := phase == Subscribed && topic != [] && |topic| <= maxTopic && |payload| <= maxPayload;
      if admitted {
        admitted := KeyExpression.IsValid(topic, false);
      }
      if admitted && answer == Success {
        return true;
      }
      NoteMeans(counters, PublishFailures);
      counters := Note(counters, PublishFailures);
      NoteMeans(counters, SessionFailures);
      if admitted {
        counters := Note(counters, SessionFailures);
      }
    }

    /** Hands over the retained frame when it fits, and keeps it otherwise. */
    method CopyPendingFrame(topicCapacity: int, payloadCapacity: int) returns (r: Outcome, out: Option<Frame>)
      requires Valid() && hasPendingFrame
      modifies this`hasPendingFrame, this`counters, this`delivered, this`sinceReset
      ensures Valid()
      ensures if 0 < |frame.key| <= topicCapacity && |frame.payload| <= payloadCapacity
              then r == FrameOut && out == Some(frame) && !hasPendingFrame
                   && delivered == old(delivered) + [frame] && sinceReset == old(sinceReset) + 1
                   && counters == old(counters).(framesReceived := Plus(old(counters).framesReceived, 1))
              else r == InsufficientCapacity && out == None && hasPendingFrame
                   && delivered == old(delivered) && sinceReset == old(sinceReset) && counters == old(counters)
    {
      hide TableOK, Chained;
      if frame.key == [] || |frame.key| > topicCapacity || |frame.payload| > payloadCapacity {
        return InsufficientCapacity, None;
      }
      counters := Note(counters, FramesReceived);
      hasPendingFrame := false;
      delivered, sinceReset := delivered + [frame], sinceReset + 1;
      r, out := FrameOut, Some(frame);
    }

    predicate Pollable(topicCapacity: int, payloadCapacity: int)
      reads this
    {
      0 < topicCapacity <= maxTopic && 0 <= payloadCapacity <= maxPayload && phase == Subscribed
    }

    /** The notification counters of one facade answer that carried no frame. */
    method NotePollOutcome(code: Code)
      modifies this`counters
      ensures counters == match code
                          case QueueFull => old(counters).(framesDropped := Plus(old(counters).framesDropped, 1))
                          case FrameTooLarge =>
                            old(counters).(framesOversized := Plus(old(counters).framesOversized, 1))
                          case NotOpen => old(counters).(sessionFailures := Plus(old(counters).sessionFailures, 1))
                          case OtherFailure =>
                            old(counters).(pollErrors := Plus(old(counters).pollErrors, 1),
                                           sessionFailures := Plus(old(counters).sessionFailures, 1))
                          case _ => old(counters)
    {
      match code {
        case QueueFull => counters := Note(counters, FramesDropped);
        case FrameTooLarge => counters := Note(counters, FramesOversized);
        case Success =>
        case QueueEmpty =>
        case NotOpen => counters := Note(counters, SessionFailures);
        case OtherFailure =>
          counters := Note(counters, PollErrors);
          counters := Note(counters, SessionFailures);
      }
    }

    /**
     One polled receive. A pending frame is served before the facade is asked; otherwise the slots are asked
     round-robin from behind the cursor until one stops the poll.
     */
    method Poll(topicCapacity: int, payloadCapacity: int, answers: seq<Answer>) returns (r: Outcome, out: Option<Frame>)
      requires Valid() && |answers| == SLOTS
      modifies this
      ensures Valid() && phase == old(phase) && slots == old(slots) && RoutersUnchanged()
      ensures delivered == old(delivered) + (if out.Some? then [out.value] else [])
      ensures out.Some? <==> r == FrameOut
      ensures sinceReset == old(sinceReset) + (if out.Some? then 1 else 0)
      ensures !old(Pollable(topicCapacity, payloadCapacity)) ==>
                PollingUnchanged() && r == if 0 < topicCapacity <= maxTopic && 0 <= payloadCapacity <= maxPayload
                    && phase == Disconnected
                                           then Closed else Failed
      ensures !old(Pollable(topicCapacity, payloadCapacity)) ==> counters == old(counters)
      ensures old(Pollable(topicCapacity, payloadCapacity)) && old(hasPendingFrame) ==>
                && turns == old(turns) && pulled == old(pulled) && pollCursor == old(pollCursor)
                && (if 0 < |old(frame).key| <= topicCapacity && |old(frame).payload| <= payloadCapacity
                    then out == Some(old(frame))
                         && counters == old(counters).(framesReceived := Plus(old(counters).framesReceived, 1))
                    else r == InsufficientCapacity && counters == old(counters))
      ensures old(Pollable(topicCapacity, payloadCapacity)) && !old(hasPendingFrame) && NoneActive(slots) ==>
                PollingUnchanged() && r == NoEvent && counters == old(counters)
      ensures old(Pollable(topicCapacity, payloadCapacity)) && !old(hasPendingFrame) && !NoneActive(slots) ==>
                && |turns| == |old(turns)| + 1 && turns[..|old(turns)|] == old(turns)
                && var turn := turns[|old(turns)|];
                && turn.before == old(pollCursor) && PollTurn(turn, slots, answers)
                && (turn.stop == 8 ==>
                      && r == NoEvent && pulled == old(pulled) && pollCursor == old(pollCursor)
                      && counters == Noted(old(counters), TooLarge(slots, old(pollCursor), answers, 8),
                                           Told(QueueEmpty), false))
                && (turn.stop < 8 ==>
                      var last := answers[turn.stop];
                      && r == (match last
                               case Pulled(f) =>
                                 if 0 < |f.key| <= topicCapacity && |f.payload| <= payloadCapacity then FrameOut
                                 else InsufficientCapacity
                               case Told(NotOpen) => Closed
                               case Told(_) => Failed)
                      && last != Told(QueueEmpty) && last != Told(FrameTooLarge)
                      && pollCursor == (old(pollCursor) + 1 + turn.stop) % 8 && slots[pollCursor].active
                      && pulled == old(pulled) + (if last.Pulled? then [last.frame] else [])
                      && counters == Noted(old(counters), TooLarge(slots, old(pollCursor), answers, turn.stop), last,
                                           r == FrameOut))
                && forall k :: 0 <= k < turn.stop && k < 8 && slots[(old(pollCursor) + 1 + k) % 8].active ==>
                     answers[k] == Told(QueueEmpty) || answers[k] == Told(FrameTooLarge)
    {
      hide Note, TableOK, Chained, PollTurn, Noted, Plus, TooLarge;
      out := None;
      if topicCapacity <= 0 || topicCapacity > maxTopic || payloadCapacity < 0 || payloadCapacity > maxPayload {
        return Failed, None;
      }
      if phase == Disconnected {
        return Closed, None;
      }
      if phase != Subscribed {
        return Failed, None;
      }
      if hasPendingFrame {
        r, out := CopyPendingFrame(topicCapacity, payloadCapacity);
        return;
      }
      CountedActive(slots);
      if ActiveCount(slots) == 0 {
        return NoEvent, None;
      }
      r, out := PollFacade(topicCapacity, payloadCapacity, answers);
    }

    /** The part of a poll that reaches the facade. */
    method PollFacade(topicCapacity: int, payloadCapacity: int, answers: seq<Answer>)
        returns (r: Outcome, out: Option<Frame>)
      requires Valid() && |answers| == SLOTS && phase == Subscribed && !hasPendingFrame && !NoneActive(slots)
      modifies this`pollCursor, this`counters, this`turns, this`frame, this`hasPendingFrame, this`pulled,
          this`delivered, this`sinceReset
      ensures Valid()
      ensures delivered == old(delivered) + (if out.Some? then [out.value] else [])
      ensures out.Some? <==> r == FrameOut
      ensures sinceReset == old(sinceReset) + (if out.Some? then 1 else 0)
      ensures |turns| == |old(turns)| + 1 && turns[..|old(turns)|] == old(turns)
      ensures turns[|old(turns)|].before == old(pollCursor) && PollTurn(turns[|old(turns)|], slots, answers)
      ensures var turn := turns[|old(turns)|];
              && (turn.stop == 8 ==>
                    && r == NoEvent && pulled == old(pulled) && pollCursor == old(pollCursor)
                    && counters == Noted(old(counters), TooLarge(slots, old(pollCursor), answers, 8),
                                         Told(QueueEmpty), false))
              && (turn.stop < 8 ==>
                    var last := answers[turn.stop];
                    && r == (match last
                             case Pulled(f) =>
                               if 0 < |f.key| <= topicCapacity && |f.payload| <= payloadCapacity then FrameOut
                               else InsufficientCapacity
                             case Told(NotOpen) => Closed
                             case Told(_) => Failed)
                    && last != Told(QueueEmpty) && last != Told(FrameTooLarge)
                    && pollCursor == (old(pollCursor) + 1 + turn.stop) % 8 && slots[pollCursor].active
                    && pulled == old(pulled) + (if last.Pulled? then [last.frame] else [])
                    && counters == Noted(old(counters), TooLarge(slots, old(pollCursor), answers, turn.stop), last,
                                         r == FrameOut))
              && forall k :: 0 <= k < turn.stop && k < 8 && slots[(old(pollCursor) + 1 + k) % 8].active ==>
                   answers[k] == Told(QueueEmpty) || answers[k] == Told(FrameTooLarge)
    {
      hide Note, TurnOK, Visit, TableOK, Chained, NoneActive, TooLarge, PollTurn;
      out := None;
      var stop, answer := AskRound(answers);
      if stop == SLOTS {
        return NoEvent, None;
      }
      match answer {
        case Pulled(f) =>
          frame, hasPendingFrame := f, true;
          pulled := pulled + [f];
          r, out := CopyPendingFrame(topicCapacity, payloadCapacity);
        case Told(code) =>
          r := if code == NotOpen then Closed else Failed;
      }
    }

    /** Asks the active slots in turn; `stop` is the round whose answer ends the poll. */
    method AskRound(answers: seq<Answer>) returns (stop: nat, answer: Answer)
      requires Valid() && |answers| == SLOTS && !NoneActive(slots)
      modifies this`pollCursor, this`counters, this`turns
      ensures Valid()
      ensures |turns| == |old(turns)| + 1 && turns[..|old(turns)|] == old(turns)
      ensures turns[|old(turns)|].before == old(pollCursor) && turns[|old(turns)|].stop == stop
      ensures PollTurn(turns[|old(turns)|], slots, answers)
      ensures stop <= 8 && (stop < 8 ==> answer == answers[stop])
      ensures forall k :: 0 <= k < stop && k < 8 && slots[(old(pollCursor) + 1 + k) % 8].active ==>
                answers[k] == Told(QueueEmpty) || answers[k] == Told(FrameTooLarge)
      ensures stop < 8 ==>
                && answer != Told(QueueEmpty) && answer != Told(FrameTooLarge)
                && pollCursor == (old(pollCursor) + 1 + stop) % 8 && slots[pollCursor].active
      ensures stop == 8 ==> pollCursor == old(pollCursor)
      ensures counters == Noted(old(counters), TooLarge(slots, old(pollCursor), answers, stop),
                                if stop < 8 then answer else Told(QueueEmpty), false)
    {
      hide KeyExpression.SubscriptionKey, TooLarge, Noted, Visit, Stops, Passes, PollTurn, NoneActive;
      ghost var start, flags := pollCursor, ActiveFlags(slots);
      stop, answer := AskUntil(answers);
      TurnEnds(slots, start, answers, stop, turns);
      turns := turns + [Turn(flags, start, stop, pollCursor)];
      NotedReceived(old(counters), TooLarge(slots, start, answers, stop),
                    if stop < SLOTS then answer else Told(QueueEmpty));
    }

    /** The loop over the slots. */
    method AskUntil(answers: seq<Answer>) returns (stop: nat, answer: Answer)
      requires |slots| == SLOTS && pollCursor < SLOTS && |answers| == SLOTS
      modifies this`pollCursor, this`counters
      ensures stop <= 8 && Passes(slots, old(pollCursor), answers, stop)
      ensures stop < 8 ==> Stops(slots, old(pollCursor), answers, stop) && answer == answers[stop]
      ensures stop < 8 ==> answer != Told(QueueEmpty) && answer != Told(FrameTooLarge)
      ensures stop < 8 ==> pollCursor == Visit(old(pollCursor), stop)
      ensures pollCursor == if stop < 8 then (old(pollCursor) + 1 + stop) % 8 else old(pollCursor)
      ensures stop < 8 ==> slots[pollCursor].active
      ensures forall k :: 0 <= k < stop && k < 8 && slots[(old(pollCursor) + 1 + k) % 8].active ==>
                answers[k] == Told(QueueEmpty) || answers[k] == Told(FrameTooLarge)
      ensures counters == Noted(old(counters), TooLarge(slots, old(pollCursor), answers, stop),
                                if stop < 8 then answer else Told(QueueEmpty), false)
    {
      hide TooLarge, Noted, Visit, Stops, Passes;
      ghost var start := pollCursor;
      NothingNoted(counters, slots, answers, start);
      PassesNothing(slots, start, answers);
      var k := 0;
      while k < SLOTS
        invariant 0 <= k <= SLOTS && pollCursor < SLOTS
        invariant pollCursor == if k == 0 then start else Visit(start, k - 1)
        invariant Passes(slots, start, answers, k)
        invariant counters == Noted(old(counters), TooLarge(slots, start, answers, k), Told(QueueEmpty), false)
      {
        RoundMeans(slots, start, answers, k);
        VisitNext(start, k);
        var stops := AskSlot(answers[k]);
        NotedOnce(old(counters), slots, start, answers, k);
        if stops {
          PassesMeans(slots, start, answers, k);
          return k, answers[k];
        }
        k := k + 1;
      }
      VisitNext(start, SLOTS);
      PassesMeans(slots, start, answers, SLOTS);
      stop, answer := SLOTS, Told(QueueEmpty);
    }

    /** Moves the cursor on and asks its slot when that is active; a notice without a frame is counted first. */
    method AskSlot(answer: Answer) returns (stops: bool)
      requires |slots| == SLOTS && pollCursor < SLOTS
      modifies this`pollCursor, this`counters
      ensures pollCursor == (old(pollCursor) + 1) % 8
      ensures stops <==> slots[pollCursor].active && answer != Told(QueueEmpty) && answer != Told(FrameTooLarge)
      ensures counters ==
              if slots[pollCursor].active
              then Noted(old(counters), if answer == Told(FrameTooLarge) then 1 else 0, answer, false)
              else old(counters)
    {
      hide Note;
      pollCursor := (pollCursor + 1) % SLOTS;
      stops := false;
      if slots[pollCursor].active {
        if answer.Told? {
          NotePollOutcome(answer.code);
        }
        stops := answer != Told(QueueEmpty) && answer != Told(FrameTooLarge);
      }
    }

    /** One observation of the router count: a loss is remembered once, a recovery counted once. */
    method ObserveRouters(routers: nat) returns (usable: bool)
      requires Valid() && phase == Subscribed
      modifies this`connectedRouterObserved, this`routerLossObserved, this`counters, this`losses, this`recoveries
      ensures Valid() && usable == (routers > 0)
      ensures recoveries == old(recoveries) + (if routers > 0 && old(routerLossObserved) then 1 else 0)
      ensures counters == Recovered(old(counters), recoveries - old(recoveries))
      ensures losses == old(losses) + (if routers == 0 && old(connectedRouterObserved) then 1 else 0)
      ensures connectedRouterObserved == (routers > 0)
    {
      hide Note, TableOK, Chained;
      NoteMeans(counters, ReconnectsObserved);
      if routers == 0 {
        if connectedRouterObserved {
          routerLossObserved := true;
          losses := losses + 1;
        }
        connectedRouterObserved := false;
      } else {
        if routerLossObserved {
          routerLossObserved := false;
          recoveries := recoveries + 1;
          counters := Note(counters, ReconnectsObserved);
        }
        connectedRouterObserved := true;
      }
      usable := routers > 0;
    }

    /**
     Waits for a connected router. Each observation is the clock before and after one query and its answer;
     the wait gives up at the deadline, on a closed session, or when the observations end.
     */
    method WaitForReconnect(first: Query, observations: seq<Observation>, deadline: nat) returns (ok: bool)
      requires Valid()
      modifies this`connectedRouterObserved, this`routerLossObserved, this`counters, this`losses, this`recoveries
      ensures Valid()
      ensures old(phase) != Subscribed ==> !ok && RoutersUnchanged()
      ensures ok ==> connectedRouterObserved && !routerLossObserved && recoveries == losses
      ensures !ok ==> recoveries == old(recoveries)
      ensures recoveries >= old(recoveries) && counters == Recovered(old(counters), recoveries - old(recoveries))
      ensures ok <==> old(phase) == Subscribed &&
                      (Usable(first) || (Silent(first) && exists n ::
                          0 <= n < |observations| && Settles(observations, n, deadline)))
      ensures ok && !(first.Counted? && first.routers > 0) ==>
                && (first.Refused? ==> first.code != NotOpen)
                && exists n :: 0 <= n < |observations| && observations[n].answer.Counted?
                    && observations[n].answer.routers > 0
                    && (forall k :: 0 <= k <= n ==>
                          observations[k].before < deadline && observations[k].after < deadline)
                    && forall k :: 0 <= k < n && observations[k].answer.Refused? ==>
                         observations[k].answer.code != NotOpen
      ensures first.Counted? && first.routers > 0 && phase == Subscribed ==> ok
      ensures !ok && phase == Subscribed && (first.Refused? ==> first.code != NotOpen) ==>
                forall n ::
                  (&& 0 <= n < |observations| && observations[n].answer.Counted? && observations[n].answer.routers > 0
                   && forall k :: 0 <= k <= n ==>
                        observations[k].before < deadline && observations[k].after < deadline) ==>
                  exists k :: 0 <= k < n && observations[k].answer == Refused(NotOpen)
    {
      ok := false;
      if phase != Subscribed {
        return;
      }
      if first.Counted? {
        ok := ObserveRouters(first.routers);
        if ok {
          return;
        }
      } else if first.code == NotOpen {
        return;
      }
      var i := 0;
      while i < |observations|
        invariant 0 <= i <= |observations| && Valid() && phase == Subscribed && !ok && recoveries == old(recoveries)
        invariant counters == old(counters)
        invariant forall k :: 0 <= k < i ==> InTime(observations[k], deadline) && Silent(observations[k].answer)
      {
        var o := observations[i];
        if o.before >= deadline || o.after >= deadline {
          return;
        }
        if o.answer.Counted? {
          ok := ObserveRouters(o.answer.routers);
          if ok {
            assert Settles(observations, i, deadline);
            return;
          }
        } else if o.answer.code == NotOpen {
          return;
        }
        i := i + 1;
      }
    }

    /** Closes the session whatever the facade answers; every declaration and the pending frame go with it. */
    method Disconnect(removals: seq<Code>, closing: Code) returns (ok: bool)
      requires Valid() && |removals| == SLOTS
      modifies this
      ensures Valid() && sinceReset == old(sinceReset)
      ensures ok == (old(phase) in {Connected, Subscribed} && closing == Success)
      ensures old(phase) in {Connected, Subscribed} ==>
                && phase == Disconnected && NoneActive(slots) && !hasPendingFrame && pollCursor == 0
                && !connectedRouterObserved && !routerLossObserved
                && pulled == [] && delivered == []
                && counters == Ended(old(counters), Kept(old(slots), removals, SLOTS), closing).(active := 0)
      ensures old(phase) !in {Connected, Subscribed} ==> counters == old(counters)
      ensures old(phase) !in {Connected, Subscribed} ==>
                  phase == old(phase) && slots == old(slots) && PollingUnchanged()
    {
      ok := false;
      if phase != Connected && phase != Subscribed {
        return;
      }
      ok := Close(removals, closing);
    }

    method Close(removals: seq<Code>, closing: Code) returns (ok: bool)
      requires Valid() && |removals| == SLOTS && (phase == Connected || phase == Subscribed)
      modifies this
      ensures Valid() && sinceReset == old(sinceReset) && ok == (closing == Success)
      ensures phase == Disconnected && NoneActive(slots) && !hasPendingFrame && pollCursor == 0
      ensures !connectedRouterObserved && !routerLossObserved
      ensures counters == Ended(old(counters), Kept(old(slots), removals, SLOTS), closing).(active := 0)
      ensures pulled == [] && delivered == []
    {
      assert |slots| == SLOTS;
      hide Note, ActiveCount, Saturate, TurnOK, Visit, TableOK, NoneActive, Chained, Kept, Plus;
      RemoveDeclarations(removals);
      NoteMeans(counters, SessionCloses);
      NoteMeans(counters, SessionFailures);
      counters := Note(counters, if closing == Success then SessionCloses else SessionFailures);
      Clear();
      ok := closing == Success;
    }

    /** Forgets the session: slots, pending frame, router flags, cursor and histories. */
    method Clear()
      requires Get(counters, FramesReceived) == Saturate(sinceReset)
      modifies this
      ensures Valid() && sinceReset == old(sinceReset)
      ensures phase == Disconnected && NoneActive(slots) && !hasPendingFrame && pollCursor == 0
      ensures !connectedRouterObserved && !routerLossObserved
      ensures counters == old(counters).(active := 0) && pulled == [] && delivered == []
    {
      hide Note, Get, SetActive, ActiveCount, Saturate, TurnOK, Visit, TableOK, NoneActive, Chained;
      slots := seq(SLOTS, _ => FREE);
      FreeTable(slots, maxTopic);
      GaugeMeans(counters, 0);
      counters := SetActive(counters, ActiveCount(slots));
      hasPendingFrame, connectedRouterObserved, routerLossObserved, pollCursor := false, false, false, 0;
      pulled, delivered, turns, losses, recoveries := [], [], [], 0, 0;
      phase := Disconnected;
    }

    /** Asks the facade to remove each declaration; a refusal is counted and does not stop teardown. */
    method RemoveDeclarations(removals: seq<Code>)
      requires |slots| == SLOTS && |removals| == SLOTS
      modifies this`slots, this`counters
      ensures |slots| == SLOTS
      ensures forall i ::
                  0 <= i < SLOTS && old(slots)[i].active && old(slots)[i].handle.Some? && removals[i] == Success ==>
                     slots[i] == FREE
      ensures counters == Failure(old(counters), Kept(old(slots), removals, SLOTS))
    {
      hide Note, Plus;
      FailureNext(counters, 0);
      var i := 0;
      while i < SLOTS
        invariant 0 <= i <= SLOTS && |slots| == SLOTS
        invariant forall j :: i <= j < SLOTS ==> slots[j] == old(slots)[j]
        invariant forall j ::
                      0 <= j < i && old(slots)[j].active && old(slots)[j].handle.Some? && removals[j] == Success ==>
                         slots[j] == FREE
        invariant counters == Failure(old(counters), Kept(old(slots), removals, i))
      {
        FailureNext(old(counters), Kept(old(slots), removals, i));
        if slots[i].active && slots[i].handle.Some? {
          if removals[i] == Success {
            slots := slots[i := FREE];
          } else {
            counters := Note(counters, SessionFailures);
          }
        }
        i := i + 1;
      }
    }
  }

  lemma FreeTable(slots: seq<Slot>, maxTopic: nat)
    requires |slots| == SLOTS && forall i :: 0 <= i < SLOTS ==> slots[i] == FREE
    ensures TableOK(slots, maxTopic) && NoneActive(slots) && ActiveCount(slots) == 0 && Chained([])
  {
    CountedActive(slots);
  }

  datatype Query = Counted(routers: nat) | Refused(code: Code)

  datatype Observation = Observation(before: nat, answer: Query, after: nat)

  /** The query counted a connected router. */
  predicate Usable(q: Query) {
    q.Counted? && q.routers > 0
  }

  /** The query found no router, or failed on a session that is still open: the wait goes on. */
  predicate Silent(q: Query) {
    if q.Counted? then q.routers == 0 else q.code != NotOpen
  }

  predicate InTime(o: Observation, deadline: nat) {
    o.before < deadline && o.after < deadline
  }

  /** The observation ends the wait well: it counts a router in time, and so far there was only silence. */
  predicate Settles(q: seq<Observation>, n: nat, deadline: nat)
    requires n < |q|
  {
    && InTime(q[n], deadline) && Usable(q[n].answer)
    && forall k :: 0 <= k < n ==> InTime(q[k], deadline) && Silent(q[k].answer)
  }

  /** The recorded turn is the poll of these slots with these answers. */
  ghost predicate PollTurn(t: Turn, slots: seq<Slot>, answers: seq<Answer>)
    requires |slots| == SLOTS && |answers| == SLOTS
  {
    && TurnOK(t)
    && (forall i :: 0 <= i < SLOTS ==> t.active[i] == slots[i].active)
    && Passes(slots, t.before, answers, if t.stop < SLOTS then t.stop else SLOTS)
    && (t.stop < SLOTS ==> Stops(slots, t.before, answers, t.stop))
  }

  function ActiveFlags(slots: seq<Slot>): seq<bool> {
    seq(|slots|, i requires 0 <= i < |slots| => slots[i].active)
  }

  lemma TurnEnds(slots: seq<Slot>, start: nat, answers: seq<Answer>, k: nat, turns: seq<Turn>)
    requires |slots| == SLOTS && |answers| == SLOTS && start < SLOTS && k <= SLOTS
    requires Passes(slots, start, answers, k) && (k < SLOTS ==> Stops(slots, start, answers, k))
    requires Chained(turns) && (turns != [] ==> turns[|turns| - 1].after == start)
    ensures var t := Turn(ActiveFlags(slots), start, k, if k < SLOTS then Visit(start, k) else start);
            PollTurn(t, slots, answers) && Chained(turns + [t])
  {
    hide Visit;
    var t := Turn(ActiveFlags(slots), start, k, if k < SLOTS then Visit(start, k) else start);
    assert TurnOK(t);
  }

  lemma VisitNext(cursor: nat, k: nat)
    requires cursor < SLOTS
    ensures Visit(cursor, k) == ((if k == 0 then cursor else Visit(cursor, k - 1)) + 1) % SLOTS
    ensures k == SLOTS ==> Visit(cursor, k - 1) == cursor
  {
  }

  lemma HoldsAfterSet(slots: seq<Slot>, i: nat, s: Slot)
    requires i < |slots| && !slots[i].active && s.active
    ensures forall key :: Holds(slots[i := s], key) <==> Holds(slots, key) || key == s.key
  {
    var after := slots[i := s];
    forall key ensures Holds(after, key) <==> Holds(slots, key) || key == s.key {
      assert after[i] == s;
      if Holds(slots, key) {
        var j :| 0 <= j < |slots| && slots[j].active && slots[j].key == key;
        assert after[j] == slots[j];
      }
      if Holds(after, key) && key != s.key {
        var j :| 0 <= j < |after| && after[j].active && after[j].key == key;
        assert slots[j] == after[j];
      }
    }
  }

  lemma TableAfterSet(slots: seq<Slot>, i: nat, key: Bytes, handle: nat, maxTopic: nat)
    requires TableOK(slots, maxTopic) && i < SLOTS && !slots[i].active && !Holds(slots, key)
    requires 0 < |key| <= maxTopic && KeyExpression.SubscriptionKey(key)
    ensures TableOK(slots[i := Slot(true, key, Some(handle))], maxTopic)
  {
    hide KeyExpression.SubscriptionKey;
  }

  lemma HoldsAfterFree(slots: seq<Slot>, i: nat)
    requires i < |slots| && slots[i].active
    requires forall j, k :: 0 <= j < k < |slots| && slots[j].active && slots[k].active ==> slots[j].key != slots[k].key
    ensures forall key :: Holds(slots[i := FREE], key) <==> Holds(slots, key) && key != slots[i].key
  {
    var after := slots[i := FREE];
    forall key ensures Holds(after, key) <==> Holds(slots, key) && key != slots[i].key {
      if Holds(slots, key) && key != slots[i].key {
        var j :| 0 <= j < |slots| && slots[j].active && slots[j].key == key;
        assert after[j] == slots[j];
      }
      if Holds(after, key) {
        var j :| 0 <= j < |after| && after[j].active && after[j].key == key;
        assert slots[j] == after[j] && j != i;
      }
    }
  }
}
