/** The bounded JSON line builder: a fixed caller-owned buffer that refuses rather than truncates. */
module CarrierReport {
  import opened Basics
  import opened JsonText

  /** One call: a key with a string, with an unsigned number, or with text copied as it is. */
  datatype Entry =
    | StringEntry(key: string, text: string)
    | NumberEntry(key: string, n: nat)
    | RawEntry(key: string, raw: string)

  function EntryValue(e: Entry): string {
    match e
    case StringEntry(_, text) => "\"" + Escape(text) + "\""
    case NumberEntry(_, n) => Digits(n)
    case RawEntry(_, raw) => raw
  }

  function EntryText(e: Entry): string {
    "\"" + Escape(e.key) + "\":" + EntryValue(e)
  }

  /** The unbounded text of the calls so far. */
  function Open(entries: seq<Entry>): string {
    if entries == [] then "{"
    else Open(entries[..|entries| - 1]) + Comma(|entries| == 1) + EntryText(entries[|entries| - 1])
  }

  function Comma(first: bool): string {
    if first then "" else ","
  }

  function Line(entries: seq<Entry>): string {
    Open(entries) + "}"
  }

  /** A control character in a key or an escaped string: such a line is refused outright. */
  predicate Refusable(e: Entry) {
    HasControl(e.key) || (e.StringEntry? && HasControl(e.text))
  }

  predicate Refused(entries: seq<Entry>) {
    exists i :: 0 <= i < |entries| && Refusable(entries[i])
  }

  lemma OpenAppend(entries: seq<Entry>, e: Entry)
    ensures Open(entries + [e]) == Open(entries) + Comma(entries == []) + EntryText(e)
    ensures Refused(entries + [e]) <==> Refused(entries) || Refusable(e)
  {
    var all := entries + [e];
    assert all[..|entries|] == entries;
    if Refused(entries) {
      var i :| 0 <= i < |entries| && Refusable(entries[i]);
      assert Refusable(all[i]);
    }
    assert all[|entries|] == e;
  }

  /** How one more call shows in the line: after a comma unless it is the first, before the closing brace. */
  lemma LineMeans(entries: seq<Entry>, e: Entry)
    ensures Line([]) == "{}" && |Line(entries)| >= 2
    ensures Line(entries + [e]) ==
            Line(entries)[..|Line(entries)| - 1] + (if entries == [] then "" else ",") +
            "\"" + Escape(e.key) + "\":" + EntryValue(e) + "}"
    ensures e.StringEntry? ==> EntryValue(e) == "\"" + Escape(e.text) + "\""
    ensures e.NumberEntry? ==> EntryValue(e) == Digits(e.n)
    ensures e.RawEntry? ==> EntryValue(e) == e.raw
  {
    OpenAppend(entries, e);
    OpenLength(entries);
    assert Open([]) == "{";
    hide Open;
    assert Line(entries)[..|Line(entries)| - 1] == Open(entries);
    LinePieces(Open(entries) + Comma(entries == []), Escape(e.key), EntryValue(e));
  }

  lemma LinePieces(a: string, k: string, v: string)
    ensures a + ("\"" + k + "\":" + v) + "}" == a + "\"" + k + "\":" + v + "}"
  {
  }

  lemma OpenLength(entries: seq<Entry>)
    ensures |Open(entries)| >= 1
  {
  }

  /** A line is refused for a character before the space in a key or in a quoted text, and for nothing else. */
  lemma RefusedMeans(entries: seq<Entry>)
    ensures Refused(entries) <==>
            || (exists i, j :: 0 <= i < |entries| && 0 <= j < |entries[i].key| && entries[i].key[j] < ' ')
            || exists i, j :: 0 <= i < |entries| && entries[i].StringEntry? && 0 <= j < |entries[i].text|
                              && entries[i].text[j] < ' '
  {
    forall i | 0 <= i < |entries|
      ensures Refusable(entries[i]) <==>
              || (exists j :: 0 <= j < |entries[i].key| && entries[i].key[j] < ' ')
              || (entries[i].StringEntry? && exists j :: 0 <= j < |entries[i].text| && entries[i].text[j] < ' ')
    {
    }
  }

  class Sink {
    var buffer: array?<char>
    var capacity: nat
    var length: nat
    var overflowed: bool
    var first: bool
    /** The unbounded text, and whether a control character was met in it. */
    ghost var text: string
    ghost var refused: bool
    ghost var entries: seq<Entry>

    /** The buffer holds the unbounded text, or the sink has overflowed and the text cannot be emitted. */
    ghost predicate Sound()
      reads this, buffer
    {
      && (buffer != null ==> capacity <= buffer.Length)
      && (!overflowed ==>
             buffer != null && |text| < capacity && length == |text| && buffer[..length] == text && !refused)
      && (overflowed ==> buffer == null || refused || |text| >= capacity)
    }

    ghost predicate Valid()
      reads this, buffer
    {
      Sound() && text == Open(entries) && refused == Refused(entries) && first == (entries == [])
    }

    /** Nothing but the growing text: what every append leaves alone. */
    twostate predicate Same()
      reads this
    {
      buffer == old(buffer) && capacity == old(capacity) && entries == old(entries)
    }

    method AppendChar(value: char) returns (ok: bool)
      requires Sound()
      modifies this, buffer
      ensures Sound() && Same() && text == old(text) + [value] && refused == old(refused) && first == old(first)
      ensures ok <==> !overflowed
    {
      text := text + [value];
      if overflowed {
        return false;
      }
      if length + 1 >= capacity {
        overflowed := true;
        return false;
      }
      buffer[length] := value;
      length := length + 1;
      return true;
    }

    method AppendText(s: string) returns (ok: bool)
      requires Sound()
      modifies this, buffer
      ensures Sound() && Same() && text == old(text) + s && refused == old(refused) && first == old(first)
      ensures ok <==> s == "" || !overflowed
    {
      ghost var before := text;
      var i := 0;
      while i < |s|
        invariant 0 <= i <= |s| && Sound() && Same() && text == before + s[..i] && refused == old(refused)
                  && first == old(first)
        invariant i > 0 ==> !overflowed
      {
        var done := AppendChar(s[i]);
        if !done {
          text := before + s;
          return false;
        }
        i := i + 1;
      }
      return true;
    }

    method AppendEscapedChar(c: char) returns (ok: bool)
      requires Sound()
      modifies this, buffer
      ensures Sound() && Same() && text == old(text) + EscapeChar(c) && refused == old(refused) && first == old(first)
      ensures ok <==> !overflowed
    {
      ghost var all := text + EscapeChar(c);
      if Special(c) {
        var slash := AppendChar('\\');
        if !slash {
          text := all;
          return false;
        }
      }
      ok := AppendChar(c);
      assert text == all;
    }

    method AppendEscaped(s: string) returns (ok: bool)
      requires Sound()
      modifies this, buffer
      ensures Sound() && Same() && text == old(text) + Escape(s) && first == old(first)
      ensures refused == (old(refused) || HasControl(s))
      ensures ok <==> s == "" || !overflowed
    {
      hide Escape, HasControl;
      ghost var before, all := text, Escape(s);
      EscapeNone();
      assert s[..0] == "";
      var i := 0;
      while i < |s|
        invariant 0 <= i <= |s| && Sound() && Same() && text == before + Escape(s[..i]) && first == old(first)
        invariant refused == old(refused) && !HasControl(s[..i])
        invariant i > 0 ==> !overflowed
      {
        EscapePrefix(s, i);
        EscapeLonger(s, i + 1);
        if Control(s[i]) {
          overflowed := true;
          text, refused := before + all, true;
          return false;
        }
        var done := AppendEscapedChar(s[i]);
        if !done {
          text, refused := before + all, old(refused) || HasControl(s);
          return false;
        }
        i := i + 1;
      }
      assert s[..|s|] == s;
      return true;
    }

    method AppendUnsigned(n: nat) returns (ok: bool)
      requires Sound() && n <= 0xFFFF_FFFF
      modifies this, buffer
      ensures Sound() && Same() && text == old(text) + Digits(n) && refused == old(refused) && first == old(first)
      ensures ok <==> !overflowed
    {
      ghost var before := text;
      var digits, count := CollectDigits(n);
      ghost var all := Digits(n);
      DigitsRead(n);
      var left := count;
      while left > 0
        invariant 0 <= left <= count && Sound() && Same() && refused == old(refused) && first == old(first)
        invariant text == before + all[..count - left]
        invariant left < count ==> !overflowed
        invariant forall i :: 0 <= i < count ==> digits[i] == all[count - 1 - i]
      {
        left := left - 1;
        assert all[..count - left] == all[..count - left - 1] + [digits[left]];
        var done := AppendChar(digits[left]);
        if !done {
          text := before + all;
          return false;
        }
      }
      assert all[..count] == all;
      return true;
    }

    method Separator() returns (ok: bool)
      requires Sound()
      modifies this, buffer
      ensures Sound() && Same() && text == old(text) + Comma(old(first)) && refused == old(refused) && !first
      ensures !ok ==> overflowed
    {
      if !first {
        var done := AppendChar(',');
        if !done {
          return false;
        }
      }
      first := false;
      return true;
    }

    method KeyPrefix(key: string) returns (ok: bool)
      requires Sound()
      modifies this, buffer
      ensures Sound() && Same() && !first
      ensures text == old(text) + Comma(old(first)) + ("\"" + Escape(key) + "\":")
              && refused == (old(refused) || HasControl(key))
      ensures ok <==> !overflowed
    {
      ghost var before := text + Comma(first);
      ghost var all, bad := before + ("\"" + Escape(key) + "\":"), refused || HasControl(key);
      var done := Separator();
      if !done {
        text, refused := all, bad;
        return false;
      }
      done := AppendChar('"');
      if done {
        done := AppendEscaped(key);
        if done {
          done := AppendText("\":");
          assert text == all by { PrefixPieces(before, Escape(key)); }
          return done;
        }
      }
      text, refused := all, bad;
      return false;
    }

    method AppendQuoted(value: string) returns (ok: bool)
      requires Sound()
      modifies this, buffer
      ensures Sound() && Same() && text == old(text) + ("\"" + Escape(value) + "\"") && first == old(first)
      ensures refused == (old(refused) || HasControl(value))
      ensures ok <==> !overflowed
    {
      ghost var all, bad := text + ("\"" + Escape(value) + "\""), refused || HasControl(value);
      var done := AppendChar('"');
      if done {
        done := AppendEscaped(value);
        if done {
          done := AppendChar('"');
          assert text == all by { QuotedPieces(old(text), Escape(value)); }
          return done;
        }
      }
      text, refused := all, bad;
      return false;
    }

    method KeyString(key: string, value: string) returns (ok: bool)
      requires Valid()
      modifies this, buffer
      ensures Valid() && buffer == old(buffer) && capacity == old(capacity)
      ensures entries == old(entries) + [StringEntry(key, value)]
      ensures ok <==> !overflowed
    {
      hide Open, Refused, HasControl, Escape;
      ghost var e := StringEntry(key, value);
      ghost var all, bad := text + Comma(first) + EntryText(e), refused || Refusable(e);
      OpenAppend(entries, e);
      var done := KeyPrefix(key);
      assert all == text + EntryValue(e) by { EntryPieces(old(text) + Comma(old(first)), Escape(key), EntryValue(e)); }
      if done {
        done := AppendQuoted(value);
        entries := entries + [e];
        return done;
      }
      text, refused := all, bad;
      entries := entries + [e];
      return false;
    }

    method KeyUnsigned(key: string, value: nat) returns (ok: bool)
      requires Valid() && value <= 0xFFFF_FFFF
      modifies this, buffer
      ensures Valid() && buffer == old(buffer) && capacity == old(capacity)
      ensures entries == old(entries) + [NumberEntry(key, value)]
      ensures ok <==> !overflowed
    {
      hide Open, Refused, HasControl, Escape;
      ghost var e := NumberEntry(key, value);
      ghost var all, bad := text + Comma(first) + EntryText(e), refused || Refusable(e);
      OpenAppend(entries, e);
      var done := KeyPrefix(key);
      assert all == text + EntryValue(e) by { EntryPieces(old(text) + Comma(old(first)), Escape(key), EntryValue(e)); }
      if done {
        done := AppendUnsigned(value);
        entries := entries + [e];
        return done;
      }
      text, refused := all, bad;
      entries := entries + [e];
      return false;
    }

    method KeyRaw(key: string, raw: string) returns (ok: bool)
      requires Valid()
      modifies this, buffer
      ensures Valid() && buffer == old(buffer) && capacity == old(capacity)
      ensures entries == old(entries) + [RawEntry(key, raw)]
      ensures ok <==> !overflowed
    {
      hide Open, Refused, HasControl, Escape;
      ghost var e := RawEntry(key, raw);
      ghost var all, bad := text + Comma(first) + EntryText(e), refused || Refusable(e);
      OpenAppend(entries, e);
      var done := KeyPrefix(key);
      assert all == text + EntryValue(e) by { EntryPieces(old(text) + Comma(old(first)), Escape(key), EntryValue(e)); }
      if done {
        done := AppendText(raw);
        entries := entries + [e];
        return done;
      }
      text, refused := all, bad;
      entries := entries + [e];
      return false;
    }

    method Begin(storage: array?<char>, size: nat)
      requires storage != null ==> size <= storage.Length
      modifies this, storage
      ensures Valid() && entries == [] && buffer == storage && capacity == size
    {
      buffer, capacity, length := storage, size, 0;
      overflowed := storage == null || size == 0;
      first := true;
      text, refused, entries := "", false, [];
      if !overflowed {
        var _ := AppendChar('{');
      } else {
        text := "{";
      }
    }

    /** Ends the object: all of it with its terminator, or nothing. */
    method End() returns (n: nat)
      requires Valid()
      modifies this, buffer
      ensures buffer == old(buffer)
      ensures n > 0 <==> old(buffer) != null && !Refused(old(entries)) && |Line(old(entries))| < old(capacity)
      ensures n > 0 ==> buffer != null && n == |Line(old(entries))| && n < buffer.Length
      ensures n > 0 ==> buffer[..n] == Line(old(entries)) && buffer[n] == '\0'
    {
      var done := AppendChar('}');
      if !done || overflowed {
        return 0;
      }
      buffer[length] := '\0';
      return length;
    }
  }

  lemma EscapeNone()
    ensures Escape("") == "" && !HasControl("")
  {
  }

  lemma EscapePrefix(s: string, i: nat)
    requires i < |s|
    ensures Escape(s[..i + 1]) == Escape(s[..i]) + EscapeChar(s[i])
    ensures HasControl(s[..i + 1]) <==> HasControl(s[..i]) || Control(s[i])
    ensures Control(s[i]) ==> HasControl(s)
  {
    var t := s[..i + 1];
    assert t[..i] == s[..i] && t[i] == s[i];
    if HasControl(s[..i]) {
      var k :| 0 <= k < i && Control(s[..i][k]);
      assert Control(t[k]);
    }
    if HasControl(t) {
      var k :| 0 <= k < |t| && Control(t[k]);
      assert k < i ==> Control(s[..i][k]);
    }
  }

  lemma {:induction false} EscapeLonger(s: string, i: nat)
    requires i <= |s|
    ensures |Escape(s[..i])| <= |Escape(s)|
  {
    if i < |s| {
      EscapeLonger(s[..|s| - 1], i);
      assert s[..|s| - 1][..i] == s[..i];
    } else {
      assert s[..i] == s;
    }
  }

  lemma PrefixPieces(a: string, e: string)
    ensures a + "\"" + e + "\":" == a + ("\"" + e + "\":")
  {
  }

  lemma EntryPieces(a: string, e: string, v: string)
    ensures a + ("\"" + e + "\":" + v) == a + ("\"" + e + "\":") + v
  {
  }

  lemma QuotedPieces(a: string, e: string)
    ensures a + ("\"" + e + "\"") == a + "\"" + e + "\""
  {
  }

  /** The digit loop: least significant first into ten places, which always suffice. */
  method CollectDigits(n: nat) returns (digits: array<char>, count: nat)
    requires n <= 0xFFFF_FFFF
    ensures fresh(digits) && digits.Length == 10 && count == |Digits(n)| <= 10
    ensures forall i :: 0 <= i < count ==> digits[i] == Digits(n)[count - 1 - i]
  {
    digits := new char[10];
    ghost var all := Digits(n);
    TenDigits(n);
    DigitsRead(n);
    DigitsFront(n);
    digits[0] := DigitChar(n % 10);
    count := 1;
    var value: nat := n / 10;
    while value != 0 && count < 10
      invariant 1 <= count <= |all| <= 10
      invariant forall i :: 0 <= i < count ==> digits[i] == all[|all| - 1 - i]
      invariant value == 0 <==> count == |all|
      invariant value != 0 ==> all[..|all| - count] == Digits(value)
    {
      DigitsFront(value);
      digits[count] := DigitChar(value % 10);
      value := value / 10;
      count := count + 1;
    }
  }

  /** One report call. */
  method Report(sink: Sink, e: Entry) returns (ok: bool)
    requires sink.Valid() && (e.NumberEntry? ==> e.n <= 0xFFFF_FFFF)
    modifies sink, sink.buffer
    ensures sink.Valid() && sink.buffer == old(sink.buffer) && sink.capacity == old(sink.capacity)
    ensures sink.entries == old(sink.entries) + [e]
    ensures ok <==> !sink.overflowed
  {
    match e
    case StringEntry(key, text) => ok := sink.KeyString(key, text);
    case NumberEntry(key, n) => ok := sink.KeyUnsigned(key, n);
    case RawEntry(key, raw) => ok := sink.KeyRaw(key, raw);
  }

  /** Any sequence of report calls between a begin and an end, with every result ignored on the way. */
  method WriteLine(storage: array?<char>, size: nat, calls: seq<Entry>) returns (n: nat)
    requires storage != null ==> size <= storage.Length
    requires forall i :: 0 <= i < |calls| ==> (calls[i].NumberEntry? ==> calls[i].n <= 0xFFFF_FFFF)
    modifies storage
    ensures n > 0 <==> storage != null && !Refused(calls) && |Line(calls)| < size
    ensures n > 0 ==> storage != null && n == |Line(calls)| && n < storage.Length
    ensures n > 0 ==> storage[..n] == Line(calls) && storage[n] == '\0'
  {
    var sink := new Sink;
    sink.Begin(storage, size);
    for i := 0 to |calls|
      invariant sink.Valid() && sink.buffer == storage && sink.capacity == size
      invariant sink.entries == calls[..i] && fresh(sink)
    {
      var _ := Report(sink, calls[i]);
      assert calls[..i + 1] == calls[..i] + [calls[i]];
    }
    assert calls[..|calls|] == calls;
    n := sink.End();
  }

  // ---- reading a line back ----

  /** What a call says, when a raw text is itself a written value. */
  predicate Means(e: Entry, m: Member) {
    && e.key == m.key
    && match e
       case StringEntry(_, text) => m.value == Text(text)
       case NumberEntry(_, n) => m.value == Number(n)
       case RawEntry(_, raw) => Printable(m.value) && raw == Write(m.value)
  }

  ghost predicate Meaning(entries: seq<Entry>, members: seq<Member>) {
    |entries| == |members| && forall i :: 0 <= i < |entries| ==> Means(entries[i], members[i])
  }

  lemma {:induction false} OpenMembers(entries: seq<Entry>, members: seq<Member>)
    requires Meaning(entries, members)
    ensures Open(entries) == "{" + WriteMembers(members)
  {
    if entries != [] {
      var k := |entries| - 1;
      OpenMembers(entries[..k], members[..k]);
      MembersSnoc(members[..k], members[k]);
      assert members[..k] + [members[k]] == members;
      assert Means(entries[k], members[k]);
      assert EntryText(entries[k]) == WriteMember(members[k]);
      Join("{", WriteMembers(members[..k]), Comma(k == 0), WriteMember(members[k]));
    }
  }

  lemma Join(a: string, b: string, c: string, d: string)
    ensures a + b + c + d == a + (b + c + d)
  {
  }

  /** An emitted line reads back as exactly the keys and values the calls were given. */
  lemma LineReadsBack(entries: seq<Entry>, members: seq<Member>)
    requires Meaning(entries, members) && !Refused(entries)
    ensures Parse(Line(entries)) == Some(Object(members))
  {
    OpenMembers(entries, members);
    forall i | 0 <= i < |members| ensures !HasControl(members[i].key) && Printable(members[i].value) {
      assert Means(entries[i], members[i]) && !Refusable(entries[i]);
    }
    ParseWrite(Object(members));
    assert Line(entries) == Write(Object(members));
  }
}
