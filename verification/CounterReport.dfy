/** The counters' own JSON writer: fixed capacity, no allocation, a refusal instead of a truncation. */
module CounterReport {
  import opened Basics
  import opened JsonText
  import opened CarrierCounters

  function KeyText(name: string): string {
    "\"" + name + "\":"
  }

  const PUBLISH_ATTEMPTS := "publishAttempts"
  const PUBLISH_FAILURES := "publishFailures"
  const FRAMES_RECEIVED := "framesReceived"
  const FRAMES_DROPPED := "framesDropped"
  const FRAMES_OVERSIZED := "framesOversized"
  const POLL_ERRORS := "pollErrors"
  const SESSION_OPENS := "sessionOpens"
  const SESSION_CLOSES := "sessionCloses"
  const SESSION_FAILURES := "sessionFailures"
  const RECONNECTS := "reconnectsObserved"
  const ACTIVE := "activeSubscriptions"
  const ACTIVE_PEAK := "activeSubscriptionsPeak"

  /** The opening brace counts with the first key. */
  const KEY_BYTES: nat :=
    1 + |KeyText(PUBLISH_ATTEMPTS)| + |KeyText(PUBLISH_FAILURES)| + |KeyText(FRAMES_RECEIVED)|
        + |KeyText(FRAMES_DROPPED)| +
    |KeyText(FRAMES_OVERSIZED)| + |KeyText(POLL_ERRORS)| + |KeyText(SESSION_OPENS)| + |KeyText(SESSION_CLOSES)| +
    |KeyText(SESSION_FAILURES)| + |KeyText(RECONNECTS)| + |KeyText(ACTIVE)| + |KeyText(ACTIVE_PEAK)|

  /** Keys, eleven commas, twelve fields of ten digits, the closing brace and the terminator. */
  function JsonCapacity(): nat {
    KEY_BYTES + 11 + 12 * 10 + 2
  }

  function Members(c: Counters): seq<Member> {
    [Member(PUBLISH_ATTEMPTS, Number(c.publishAttempts))]
    + [Member(PUBLISH_FAILURES, Number(c.publishFailures))]
    + [Member(FRAMES_RECEIVED, Number(c.framesReceived))]
    + [Member(FRAMES_DROPPED, Number(c.framesDropped))]
    + [Member(FRAMES_OVERSIZED, Number(c.framesOversized))]
    + [Member(POLL_ERRORS, Number(c.pollErrors))]
    + [Member(SESSION_OPENS, Number(c.sessionOpens))]
    + [Member(SESSION_CLOSES, Number(c.sessionCloses))]
    + [Member(SESSION_FAILURES, Number(c.sessionFailures))]
    + [Member(RECONNECTS, Number(c.reconnectsObserved))]
    + [Member(ACTIVE, Number(c.active))]
    + [Member(ACTIVE_PEAK, Number(c.peak))]
  }

  /** The object the counters stand for. */
  function CountersText(c: Counters): string {
    Write(Object(Members(c)))
  }

  predicate Plain(s: string) {
    forall i :: 0 <= i < |s| ==> !Special(s[i]) && !Control(s[i])
  }

  lemma {:induction false} PlainEscape(s: string)
    requires Plain(s)
    ensures Escape(s) == s
  {
    if s != "" {
      PlainEscape(s[..|s| - 1]);
      assert s == s[..|s| - 1] + [s[|s| - 1]];
    }
  }

  predicate Fits(c: Counters) {
    && c.publishAttempts <= MAX32 && c.publishFailures <= MAX32 && c.framesReceived <= MAX32 && c.framesDropped <= MAX32
    && c.framesOversized <= MAX32 && c.pollErrors <= MAX32 && c.sessionOpens <= MAX32 && c.sessionCloses <= MAX32
    && c.sessionFailures <= MAX32 && c.reconnectsObserved <= MAX32 && c.active <= MAX32 && c.peak <= MAX32
  }

  /** One more field: how the unbounded text grows. */
  lemma Grow(q: seq<Member>, key: string, n: nat)
    requires Plain(key)
    ensures q != [] ==>
              "{" + WriteMembers(q) + ("," + KeyText(key)) + Digits(n) ==
              "{" + WriteMembers(q + [Member(key, Number(n))])
    ensures q == [] ==> "{" + KeyText(key) + Digits(n) == "{" + WriteMembers(q + [Member(key, Number(n))])
  {
    MembersSnoc(q, Member(key, Number(n)));
    PlainEscape(key);
    hide Digits;
    assert q == [] ==> WriteMembers(q) == "";
    hide WriteMembers;
    Pieces(WriteMembers(q), KeyText(key), Digits(n));
  }

  lemma Pieces(w: string, k: string, d: string)
    ensures "{" + (w + "," + (k + d)) == "{" + w + ("," + k) + d
    ensures "{" + ("" + "" + (k + d)) == "{" + k + d
  {
  }

  class JsonSink {
    var buffer: array<char>
    var capacity: nat
    var length: nat
    var overflowed: bool
    /** The unbounded text. */
    ghost var text: string

    ghost predicate Sound()
      reads this, buffer
    {
      && 0 < capacity <= buffer.Length
      && (overflowed <==> |text| >= capacity)
      && length == (if overflowed then 0 else |text|)
      && (!overflowed ==> buffer[..length] == text)
    }

    constructor (storage: array<char>, size: nat)
      requires 0 < size <= storage.Length
      ensures Sound() && text == "" && buffer == storage && capacity == size
    {
      buffer, capacity, length, overflowed, text := storage, size, 0, false, "";
    }

    method Append(s: string)
      requires Sound()
      modifies this, buffer
      ensures Sound() && text == old(text) + s && buffer == old(buffer) && capacity == old(capacity)
    {
      var remaining := if overflowed then 0 else capacity - length;
      ghost var before := text;
      var i := 0;
      while i < |s|
        invariant 0 <= i <= |s| && buffer == old(buffer) && capacity == old(capacity)
        invariant Sound() && text == before + s[..i]
        invariant remaining == if |before| >= capacity then 0 else capacity - |before|
        invariant i > 0 ==> !overflowed
      {
        if i + 1 >= remaining {
          overflowed, length := true, 0;
          text := before + s;
          return;
        }
        buffer[length] := s[i];
        length := length + 1;
        text := text + [s[i]];
        i := i + 1;
      }
    }

    method AppendUnsigned(n: nat)
      requires Sound() && n <= MAX32
      modifies this, buffer
      ensures Sound() && text == old(text) + Digits(n) && buffer == old(buffer) && capacity == old(capacity)
    {
      var digits, count := LowDigits(n);
      var shown := new char[11];
      for i := 0 to count
        invariant forall k :: 0 <= k < i ==> shown[k] == Digits(n)[k]
        modifies shown
      {
        shown[i] := digits[count - 1 - i];
      }
      shown[count] := '\0';
      assert shown[..count] == Digits(n);
      Append(shown[..count]);
    }
  }

  /** The digit loop, least significant first, with zero written by itself. */
  method LowDigits(n: nat) returns (digits: array<char>, count: nat)
    requires n <= MAX32
    ensures fresh(digits) && digits.Length == 10 && count == |Digits(n)| <= 10
    ensures forall i :: 0 <= i < count ==> digits[i] == Digits(n)[count - 1 - i]
  {
    digits := new char[10];
    count := 0;
    ghost var all := Digits(n);
    TenDigits(n);
    if n == 0 {
      digits[count] := '0';
      count := 1;
      return;
    }
    var value: nat := n;
    while value > 0 && count < 10
      invariant count <= |all| <= 10
      invariant forall i :: 0 <= i < count ==> digits[i] == all[|all| - 1 - i]
      invariant value == 0 <==> count == |all|
      invariant value > 0 ==> all[..|all| - count] == Digits(value)
    {
      DigitsFront(value);
      digits[count] := DigitChar(value % 10);
      value := value / 10;
      count := count + 1;
    }
  }

  /** The key with its brace or comma, then the number. */
  method AppendField(sink: JsonSink, lead: string, key: string, n: nat, ghost q: seq<Member>)
      returns (ghost next: seq<Member>)
    requires sink.Sound() && n <= MAX32 && Plain(key)
    requires if q == [] then lead == "{" && sink.text == "" else lead == "," && sink.text == "{" + WriteMembers(q)
    modifies sink, sink.buffer
    ensures sink.Sound() && sink.buffer == old(sink.buffer) && sink.capacity == old(sink.capacity)
    ensures next == q + [Member(key, Number(n))] && sink.text == "{" + WriteMembers(next)
    ensures |sink.text| == old(|sink.text|) + 1 + |KeyText(key)| + |Digits(n)|
  {
    hide Digits, WriteMembers, Plain;
    sink.Append(lead + KeyText(key));
    sink.AppendUnsigned(n);
    Grow(q, key, n);
    next := q + [Member(key, Number(n))];
  }

  lemma PlainNamesA()
    ensures Plain(PUBLISH_ATTEMPTS) && Plain(PUBLISH_FAILURES) && Plain(FRAMES_RECEIVED)
  {
  }

  lemma PlainNamesB()
    ensures Plain(FRAMES_DROPPED) && Plain(FRAMES_OVERSIZED) && Plain(POLL_ERRORS)
  {
  }

  lemma PlainNamesC()
    ensures Plain(SESSION_OPENS) && Plain(SESSION_CLOSES) && Plain(SESSION_FAILURES)
  {
  }

  lemma PlainNamesD()
    ensures Plain(RECONNECTS) && Plain(ACTIVE) && Plain(ACTIVE_PEAK)
  {
  }

  lemma DigitsBounded(c: Counters)
    requires Fits(c)
    ensures DigitBytes(c) <= 12 * 10
  {
    TenDigits(c.publishAttempts);
    TenDigits(c.publishFailures);
    TenDigits(c.framesReceived);
    TenDigits(c.framesDropped);
    TenDigits(c.framesOversized);
    TenDigits(c.pollErrors);
    TenDigits(c.sessionOpens);
    TenDigits(c.sessionCloses);
    TenDigits(c.sessionFailures);
    TenDigits(c.reconnectsObserved);
    TenDigits(c.active);
    TenDigits(c.peak);
  }

  function DigitBytes(c: Counters): nat {
    |Digits(c.publishAttempts)| + |Digits(c.publishFailures)| + |Digits(c.framesReceived)| +
    |Digits(c.framesDropped)| + |Digits(c.framesOversized)| + |Digits(c.pollErrors)| +
    |Digits(c.sessionOpens)| + |Digits(c.sessionCloses)| + |Digits(c.sessionFailures)|
        + |Digits(c.reconnectsObserved)| + |Digits(c.active)| + |Digits(c.peak)|
  }

  /** The twelve fields in order, each with its key. */
  method WriteFields(sink: JsonSink, c: Counters)
    requires sink.Sound() && sink.text == "" && Fits(c)
    modifies sink, sink.buffer
    ensures sink.Sound() && sink.buffer == old(sink.buffer) && sink.capacity == old(sink.capacity)
    ensures sink.text == "{" + WriteMembers(Members(c))
    ensures |sink.text| == KEY_BYTES + 11 + DigitBytes(c)
  {
    hide Digits, WriteMembers, Plain, KeyText;
    PlainNamesA();
    PlainNamesB();
    PlainNamesC();
    PlainNamesD();
    ghost var q := [];
    q := AppendField(sink, "{", PUBLISH_ATTEMPTS, c.publishAttempts, q);
    assert q == [Member(PUBLISH_ATTEMPTS, Number(c.publishAttempts))];
    q := AppendField(sink, ",", PUBLISH_FAILURES, c.publishFailures, q);
    q := AppendField(sink, ",", FRAMES_RECEIVED, c.framesReceived, q);
    q := AppendField(sink, ",", FRAMES_DROPPED, c.framesDropped, q);
    q := AppendField(sink, ",", FRAMES_OVERSIZED, c.framesOversized, q);
    q := AppendField(sink, ",", POLL_ERRORS, c.pollErrors, q);
    q := AppendField(sink, ",", SESSION_OPENS, c.sessionOpens, q);
    q := AppendField(sink, ",", SESSION_CLOSES, c.sessionCloses, q);
    q := AppendField(sink, ",", SESSION_FAILURES, c.sessionFailures, q);
    q := AppendField(sink, ",", RECONNECTS, c.reconnectsObserved, q);
    q := AppendField(sink, ",", ACTIVE, c.active, q);
    q := AppendField(sink, ",", ACTIVE_PEAK, c.peak, q);
  }

  /** Writes the twelve fields; a buffer of the declared capacity always takes all of them. */
  method WriteJson(storage: array?<char>, size: nat, c: Counters) returns (n: nat)
    requires storage != null ==> size <= storage.Length
    requires Fits(c)
    modifies storage
    ensures n > 0 <==> storage != null && size >= JsonCapacity()
    ensures n == 0 ==> storage == null || storage[..] == old(storage[..])
    ensures n > 0 ==>
              && storage != null && n == |CountersText(c)| && n < storage.Length
              && storage[..n] == CountersText(c) && storage[n] == '\0'
  {
    if storage == null || size < JsonCapacity() {
      return 0;
    }
    hide Digits, WriteMembers, Plain, KeyText, Members;
    var sink := new JsonSink(storage, size);
    WriteFields(sink, c);
    sink.Append("}");
    DigitsBounded(c);
    assert sink.text == CountersText(c);
    n := 0;
    if !sink.overflowed {
      storage[sink.length] := '\0';
      n := sink.length;
    }
  }

  // ---- the capacity and the way back ----

  /** The exact length of the report. */
  lemma CountersLength(c: Counters)
    ensures |CountersText(c)| == KEY_BYTES + 11 + DigitBytes(c) + 1
  {
    hide Digits, WriteMembers, Plain, KeyText;
    PlainNamesA();
    PlainNamesB();
    PlainNamesC();
    PlainNamesD();
    var q: seq<Member> := [];
    NoMembers();
    q := Lengthen(q, PUBLISH_ATTEMPTS, c.publishAttempts);
    assert q == [Member(PUBLISH_ATTEMPTS, Number(c.publishAttempts))];
    q := Lengthen(q, PUBLISH_FAILURES, c.publishFailures);
    q := Lengthen(q, FRAMES_RECEIVED, c.framesReceived);
    q := Lengthen(q, FRAMES_DROPPED, c.framesDropped);
    q := Lengthen(q, FRAMES_OVERSIZED, c.framesOversized);
    q := Lengthen(q, POLL_ERRORS, c.pollErrors);
    q := Lengthen(q, SESSION_OPENS, c.sessionOpens);
    q := Lengthen(q, SESSION_CLOSES, c.sessionCloses);
    q := Lengthen(q, SESSION_FAILURES, c.sessionFailures);
    q := Lengthen(q, RECONNECTS, c.reconnectsObserved);
    q := Lengthen(q, ACTIVE, c.active);
    q := Lengthen(q, ACTIVE_PEAK, c.peak);
    assert q == Members(c);
  }

  /** The report spelled out: keys, numbers, commas and braces. */
  lemma CountersSpelled(c: Counters)
    ensures CountersText(c) ==
            "{" + "\"" + "publishAttempts" + "\":" + Digits(c.publishAttempts) +
            ",\"" + "publishFailures" + "\":" + Digits(c.publishFailures) +
            ",\"" + "framesReceived" + "\":" + Digits(c.framesReceived) +
            ",\"" + "framesDropped" + "\":" + Digits(c.framesDropped) +
            ",\"" + "framesOversized" + "\":" + Digits(c.framesOversized) +
            ",\"" + "pollErrors" + "\":" + Digits(c.pollErrors) +
            ",\"" + "sessionOpens" + "\":" + Digits(c.sessionOpens) +
            ",\"" + "sessionCloses" + "\":" + Digits(c.sessionCloses) +
            ",\"" + "sessionFailures" + "\":" + Digits(c.sessionFailures) +
            ",\"" + "reconnectsObserved" + "\":" + Digits(c.reconnectsObserved) +
            ",\"" + "activeSubscriptions" + "\":" + Digits(c.active) +
            ",\"" + "activeSubscriptionsPeak" + "\":" + Digits(c.peak) + "}"
  {
    hide Digits, WriteMembers, Plain, KeyText;
    PlainNamesA();
    PlainNamesB();
    PlainNamesC();
    PlainNamesD();
    NoMembers();
    var q: seq<Member> := [];
    var t := "{";
    q, t := Spell(q, t, PUBLISH_ATTEMPTS, c.publishAttempts);
    assert q == [Member(PUBLISH_ATTEMPTS, Number(c.publishAttempts))];
    q, t := Spell(q, t, PUBLISH_FAILURES, c.publishFailures);
    q, t := Spell(q, t, FRAMES_RECEIVED, c.framesReceived);
    q, t := Spell(q, t, FRAMES_DROPPED, c.framesDropped);
    q, t := Spell(q, t, FRAMES_OVERSIZED, c.framesOversized);
    q, t := Spell(q, t, POLL_ERRORS, c.pollErrors);
    q, t := Spell(q, t, SESSION_OPENS, c.sessionOpens);
    q, t := Spell(q, t, SESSION_CLOSES, c.sessionCloses);
    q, t := Spell(q, t, SESSION_FAILURES, c.sessionFailures);
    q, t := Spell(q, t, RECONNECTS, c.reconnectsObserved);
    q, t := Spell(q, t, ACTIVE, c.active);
    q, t := Spell(q, t, ACTIVE_PEAK, c.peak);
    assert q == Members(c);
  }

  lemma Spell(q: seq<Member>, t: string, key: string, n: nat) returns (next: seq<Member>, longer: string)
    requires Plain(key) && t == "{" + WriteMembers(q)
    ensures next == q + [Member(key, Number(n))] && longer == "{" + WriteMembers(next)
    ensures longer == t + (if q == [] then "\"" else ",\"") + key + "\":" + Digits(n)
  {
    next := q + [Member(key, Number(n))];
    longer := "{" + WriteMembers(next);
    Grow(q, key, n);
  }

  lemma NoMembers()
    ensures WriteMembers([]) == ""
  {
  }

  lemma Lengthen(q: seq<Member>, key: string, n: nat) returns (next: seq<Member>)
    requires Plain(key)
    ensures next == q + [Member(key, Number(n))]
    ensures |WriteMembers(next)| == |WriteMembers(q)| + (if q == [] then 0 else 1) + |KeyText(key)| + |Digits(n)|
  {
    next := q + [Member(key, Number(n))];
    MembersSnoc(q, Member(key, Number(n)));
    PlainEscape(key);
  }

  const SATURATED: Counters :=
    Counters(MAX32, MAX32, MAX32, MAX32, MAX32, MAX32, MAX32, MAX32, MAX32, MAX32, MAX32, MAX32)

  /** The declared capacity takes every report with its terminator, and no smaller one would. */
  lemma CapacityIsExact(c: Counters)
    requires Fits(c)
    ensures |CountersText(c)| + 1 <= JsonCapacity()
    ensures Fits(SATURATED) && |CountersText(SATURATED)| + 1 == JsonCapacity()
  {
    hide CountersText, Digits;
    CountersLength(c);
    DigitsBounded(c);
    CountersLength(SATURATED);
    SaturatedDigits();
  }

  lemma SaturatedDigits()
    ensures |Digits(MAX32)| == 10
  {
    assert |Digits(42)| == 2;
    assert |Digits(4_2949)| == 5 by { assert |Digits(4294)| == 4; }
    assert |Digits(4_2949_672)| == 8 by { assert |Digits(4_2949_67)| == 7 by { assert |Digits(4_2949_6)| == 6; } }
    assert |Digits(4_2949_6729)| == 9;
  }

  /** What a reader of the report makes of it. */
  function ReadCounters(t: string): Option<Counters> {
    match Parse(t)
    case Some(Object(m)) => CountersOf(m)
    case _ => None
  }

  function CountersOf(m: seq<Member>): Option<Counters> {
    if |m| == 12 && (forall i :: 0 <= i < 12 ==> m[i].value.Number?) then
      var c := Counters(m[0].value.n, m[1].value.n, m[2].value.n, m[3].value.n, m[4].value.n, m[5].value.n,
                        m[6].value.n, m[7].value.n, m[8].value.n, m[9].value.n, m[10].value.n, m[11].value.n);
      if Members(c) == m then Some(c) else None
    else None
  }

  lemma MembersListed(c: Counters)
    ensures Members(c) == [
      Member("publishAttempts", Number(c.publishAttempts)), Member("publishFailures", Number(c.publishFailures)),
      Member("framesReceived", Number(c.framesReceived)), Member("framesDropped", Number(c.framesDropped)),
      Member("framesOversized", Number(c.framesOversized)), Member("pollErrors", Number(c.pollErrors)),
      Member("sessionOpens", Number(c.sessionOpens)), Member("sessionCloses", Number(c.sessionCloses)),
      Member("sessionFailures", Number(c.sessionFailures)),
      Member("reconnectsObserved", Number(c.reconnectsObserved)),
      Member("activeSubscriptions", Number(c.active)), Member("activeSubscriptionsPeak", Number(c.peak))]
  {
  }

  /** The report reads back as the same twelve values under the same twelve keys. */
  lemma CountersReadBack(c: Counters)
    ensures ReadCounters(CountersText(c)) == Some(c)
    ensures Parse(CountersText(c)) == Some(Object([
      Member("publishAttempts", Number(c.publishAttempts)), Member("publishFailures", Number(c.publishFailures)),
      Member("framesReceived", Number(c.framesReceived)), Member("framesDropped", Number(c.framesDropped)),
      Member("framesOversized", Number(c.framesOversized)), Member("pollErrors", Number(c.pollErrors)),
      Member("sessionOpens", Number(c.sessionOpens)), Member("sessionCloses", Number(c.sessionCloses)),
      Member("sessionFailures", Number(c.sessionFailures)),
      Member("reconnectsObserved", Number(c.reconnectsObserved)),
      Member("activeSubscriptions", Number(c.active)), Member("activeSubscriptionsPeak", Number(c.peak))]))
  {
    hide Write, Parse, WriteMembers;
    PrintableMembers(c);
    ParseWrite(Object(Members(c)));
    MembersListed(c);
  }

  lemma PrintableMembers(c: Counters)
    ensures Printable(Object(Members(c)))
  {
    PlainNamesA();
    PlainNamesB();
    PlainNamesC();
    PlainNamesD();
    forall i | 0 <= i < 12 ensures !HasControl(Members(c)[i].key) && Printable(Members(c)[i].value) {
      assert Plain(Members(c)[i].key);
    }
  }
}
