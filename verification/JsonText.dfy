/** The JSON text the bounded writers aim at, and a reader for it: strings, unsigned numbers and objects. */
module JsonText {

  import opened Basics

  datatype Value = Text(s: string) | Number(n: nat) | Object(members: seq<Member>)

  datatype Member = Member(key: string, value: Value)

  /** The characters before the space. */
  predicate Control(c: char): (r: bool)
    ensures r <==> c < ' '
  {
    c as int < 0x20
  }

  predicate HasControl(s: string) {
    exists i :: 0 <= i < |s| && Control(s[i])
  }

  /** The two characters that would end or bend a string (section 7 of RFC 8259). */
  predicate Special(c: char) {
    c == '"' || c == '\\'
  }

  function EscapeChar(c: char): (r: string)
    ensures c == '"' ==> r == "\\\""
    ensures c == '\\' ==> r == "\\\\"
    ensures c != '"' && c != '\\' ==> r == [c]
  {
    if Special(c) then ['\\', c] else [c]
  }

  function Escape(s: string): string {
    if s == "" then "" else Escape(s[..|s| - 1]) + EscapeChar(s[|s| - 1])
  }

  function DigitChar(d: nat): (c: char)
    requires d < 10
    ensures c == "0123456789"[d]
  {
    ('0' as int + d) as char
  }

  /** Decimal digits, most significant first. */
  function Digits(n: nat): string {
    if n < 10 then [DigitChar(n)] else Digits(n / 10) + [DigitChar(n % 10)]
  }

  function Write(v: Value): string {
    match v
    case Text(s) => "\"" + Escape(s) + "\""
    case Number(n) => Digits(n)
    case Object(members) => "{" + WriteMembers(members) + "}"
  }

  function WriteMember(m: Member): string {
    "\"" + Escape(m.key) + "\":" + Write(m.value)
  }

  function WriteMembers(q: seq<Member>): string {
    if q == [] then ""
    else if |q| == 1 then WriteMember(q[0])
    else WriteMember(q[0]) + "," + WriteMembers(q[1..])
  }

  /** No string or key anywhere in the value holds a control character. */
  predicate Printable(v: Value) {
    match v
    case Text(s) => !HasControl(s)
    case Number(_) => true
    case Object(members) => forall i :: 0 <= i < |members| ==>
        !HasControl(members[i].key) && Printable(members[i].value)
  }

  // ---- reading ----

  predicate IsDigit(c: char) {
    '0' <= c <= '9'
  }

  /** What follows an opening quote: the characters up to the closing one, and the text after it. */
  function ReadString(t: string): (r: Option<(string, string)>)
    ensures r.Some? ==> |r.value.1| < |t|
  {
    if t == "" || Control(t[0]) then None
    else if t[0] == '"' then Some(("", t[1..]))
    else if t[0] == '\\' then
      if |t| >= 2 && Special(t[1]) then Prepend(t[1], ReadString(t[2..])) else None
    else Prepend(t[0], ReadString(t[1..]))
  }

  function Prepend(c: char, r: Option<(string, string)>): Option<(string, string)> {
    if r.None? then None else Some(([c] + r.value.0, r.value.1))
  }

  function DigitRun(t: string): (k: nat)
    ensures k <= |t|
  {
    if t == "" || !IsDigit(t[0]) then 0 else 1 + DigitRun(t[1..])
  }

  function NumberOf(t: string): nat
    requires forall i :: 0 <= i < |t| ==> IsDigit(t[i])
  {
    if t == "" then 0
    else
      assert IsDigit(t[|t| - 1]);
      10 * NumberOf(t[..|t| - 1]) + (t[|t| - 1] as int - '0' as int)
  }

  lemma {:induction false} DigitRunDigits(t: string)
    ensures forall i :: 0 <= i < DigitRun(t) ==> IsDigit(t[i])
  {
    if t != "" && IsDigit(t[0]) {
      DigitRunDigits(t[1..]);
      assert forall i :: 0 < i < DigitRun(t) ==> t[i] == t[1..][i - 1];
    }
  }

  function ReadValue(t: string): (r: Option<(Value, string)>)
    ensures r.Some? ==> |r.value.1| < |t|
    decreases |t|, 0
  {
    if t == "" then None
    else if t[0] == '"' then
      var s := ReadString(t[1..]);
      if s.None? then None else Some((Text(s.value.0), s.value.1))
    else if IsDigit(t[0]) then
      DigitRunDigits(t);
      Some((Number(NumberOf(t[..DigitRun(t)])), t[DigitRun(t)..]))
    else if t[0] == '{' then
      if |t| >= 2 && t[1] == '}' then Some((Object([]), t[2..]))
      else
        var m := ReadMembers(t[1..]);
        if m.None? then None else Some((Object(m.value.0), m.value.1))
    else None
  }

  /** One or more members, up to and with the closing brace. */
  function ReadMembers(t: string): (r: Option<(seq<Member>, string)>)
    ensures r.Some? ==> |r.value.1| < |t|
    decreases |t|, 1
  {
    if t == "" || t[0] != '"' then None
    else
      var k := ReadString(t[1..]);
      if k.None? || k.value.1 == "" || k.value.1[0] != ':' then None
      else
        var v := ReadValue(k.value.1[1..]);
        if v.None? || v.value.1 == "" then None
        else
          var m := Member(k.value.0, v.value.0);
          if v.value.1[0] == '}' then Some(([m], v.value.1[1..]))
          else if v.value.1[0] == ',' then
            var rest := ReadMembers(v.value.1[1..]);
            if rest.None? then None else Some(([m] + rest.value.0, rest.value.1))
          else None
  }

  /** A whole text is one value. */
  function Parse(t: string): Option<Value> {
    var r := ReadValue(t);
    if r.Some? && r.value.1 == "" then Some(r.value.0) else None
  }

  // ---- round trips ----

  lemma {:induction false} EscapeFront(s: string)
    requires s != ""
    ensures Escape(s) == EscapeChar(s[0]) + Escape(s[1..])
  {
    if |s| == 1 {
      assert s[..0] == "" && s[1..] == "";
    } else {
      var front := s[..|s| - 1];
      EscapeFront(front);
      assert front[1..] == s[1..][..|s[1..]| - 1];
    }
  }

  lemma ReadEscapedChar(c: char, rest: string)
    requires !Control(c)
    ensures ReadString(EscapeChar(c) + rest) == Prepend(c, ReadString(rest))
  {
    var t := EscapeChar(c) + rest;
    assert t[|EscapeChar(c)|..] == rest;
    assert !Control('\\');
  }

  /** Reading undoes escaping, whatever text follows the closing quote. */
  lemma {:induction false} UnescapeEscape(s: string, post: string)
    requires !HasControl(s)
    ensures ReadString(Escape(s) + "\"" + post) == Some((s, post))
  {
    if s == "" {
      assert Escape(s) + "\"" + post == "\"" + post;
      assert ("\"" + post)[1..] == post;
    } else {
      EscapeFront(s);
      hide Escape;
      var rest := Escape(s[1..]) + "\"" + post;
      assert Escape(s) + "\"" + post == EscapeChar(s[0]) + rest;
      assert !Control(s[0]);
      assert !HasControl(s[1..]) by {
        assert forall i :: 0 <= i < |s[1..]| ==> s[1..][i] == s[i + 1];
      }
      UnescapeEscape(s[1..], post);
      ReadEscapedChar(s[0], rest);
      assert [s[0]] + s[1..] == s;
    }
  }

  lemma {:induction false} DigitsRead(n: nat)
    ensures |Digits(n)| > 0 && forall i :: 0 <= i < |Digits(n)| ==> IsDigit(Digits(n)[i])
    ensures NumberOf(Digits(n)) == n
  {
    if n < 10 {
      assert [DigitChar(n)][..0] == "";
    } else {
      DigitsRead(n / 10);
      assert Digits(n)[..|Digits(n)| - 1] == Digits(n / 10);
    }
  }

  /** The last digit is the remainder by ten, and the digits before it are those of the quotient. */
  lemma DigitsFront(n: nat)
    ensures |Digits(n)| >= 1 && Digits(n)[|Digits(n)| - 1] == DigitChar(n % 10) == "0123456789"[n % 10]
    ensures n / 10 == 0 <==> |Digits(n)| == 1
    ensures n / 10 != 0 ==> Digits(n)[..|Digits(n)| - 1] == Digits(n / 10)
  {
    DigitsRead(n / 10);
  }

  lemma {:induction false} RunStops(d: string, post: string)
    requires forall i :: 0 <= i < |d| ==> IsDigit(d[i])
    requires post == "" || !IsDigit(post[0])
    ensures DigitRun(d + post) == |d|
  {
    if d == "" {
      assert d + post == post;
    } else {
      RunStops(d[1..], post);
      assert (d + post)[1..] == d[1..] + post;
    }
  }

  lemma NumberRead(n: nat, post: string)
    requires post == "" || !IsDigit(post[0])
    ensures ReadValue(Digits(n) + post) == Some((Number(n), post))
  {
    var d := Digits(n);
    DigitsRead(n);
    RunStops(d, post);
    var t := d + post;
    assert t[0] == d[0];
    assert t[..|d|] == d && t[|d|..] == post;
  }

  lemma TextRead(s: string, post: string)
    requires !HasControl(s)
    ensures ReadValue(Write(Text(s)) + post) == Some((Text(s), post))
  {
    UnescapeEscape(s, post);
    assert Write(Text(s)) + post == "\"" + (Escape(s) + "\"" + post);
    assert ("\"" + (Escape(s) + "\"" + post))[1..] == Escape(s) + "\"" + post;
  }

  /** Writing a value and reading it back gives the value and leaves the text after it. */
  lemma {:induction false} ReadWritten(v: Value, post: string)
    requires Printable(v)
    requires v.Number? ==> post == "" || !IsDigit(post[0])
    ensures ReadValue(Write(v) + post) == Some((v, post))
    decreases v, if v.Object? then |v.members| + 1 else 0
  {
    match v
    case Text(s) => TextRead(s, post);
    case Number(n) => NumberRead(n, post);
    case Object(members) =>
      if members == [] {
        assert Write(v) + post == "{}" + post;
        assert ("{}" + post)[2..] == post;
      } else {
        MembersRead(v, 0, post);
        assert members[0..] == members;
        ObjectRead(members, post);
      }
  }

  lemma ObjectRead(members: seq<Member>, post: string)
    requires members != [] && ReadMembers(WriteMembers(members) + "}" + post) == Some((members, post))
    ensures ReadValue(Write(Object(members)) + post) == Some((Object(members), post))
  {
    var inner := WriteMembers(members) + "}" + post;
    MembersOpen(members);
    hide WriteMembers, ReadMembers, ReadString, DigitRun, NumberOf;
    ObjectPieces(WriteMembers(members), post);
    Uncons('{', inner);
    assert inner[0] == '"';
  }

  lemma ObjectPieces(w: string, post: string)
    ensures "{" + w + "}" + post == "{" + (w + "}" + post)
  {
  }

  lemma Uncons(c: char, t: string)
    ensures ([c] + t)[0] == c && ([c] + t)[1..] == t
  {
  }

  lemma MembersOpen(q: seq<Member>)
    requires q != []
    ensures WriteMembers(q) != "" && WriteMembers(q)[0] == '"'
  {
  }

  lemma {:induction false} MembersRead(v: Value, i: nat, post: string)
    requires v.Object? && Printable(v) && i < |v.members|
    ensures ReadMembers(WriteMembers(v.members[i..]) + "}" + post) == Some((v.members[i..], post))
    decreases v, |v.members| - i
  {
    var q := v.members[i..];
    var m := q[0];
    assert m == v.members[i];
    var tail := if |q| == 1 then "}" + post else "," + (WriteMembers(q[1..]) + "}" + post);
    ReadWritten(m.value, tail);
    MemberRead(m, tail);
    if |q| > 1 {
      assert q[1..] == v.members[i + 1..];
      MembersRead(v, i + 1, post);
    }
    MembersJoin(q, post);
  }

  lemma MembersJoin(q: seq<Member>, post: string)
    requires q != []
    requires |q| > 1 ==> ReadMembers(WriteMembers(q[1..]) + "}" + post) == Some((q[1..], post))
    requires var tail := if |q| == 1 then "}" + post else "," + (WriteMembers(q[1..]) + "}" + post);
             ReadMembers(WriteMember(q[0]) + tail) ==
             if tail[0] == '}' then Some(([q[0]], tail[1..]))
             else if tail[0] != ',' || ReadMembers(tail[1..]).None? then None
             else Some(([q[0]] + ReadMembers(tail[1..]).value.0, ReadMembers(tail[1..]).value.1))
    ensures ReadMembers(WriteMembers(q) + "}" + post) == Some((q, post))
  {
    hide WriteMember, ReadMembers;
    if |q| == 1 {
      Uncons('}', post);
      assert q == [q[0]];
      assert WriteMembers(q) + "}" + post == WriteMember(q[0]) + ("}" + post);
    } else {
      var rest := WriteMembers(q[1..]) + "}" + post;
      Uncons(',', rest);
      assert q == [q[0]] + q[1..];
      assert WriteMembers(q) + "}" + post == WriteMember(q[0]) + ("," + rest);
    }
  }

  /** The reader gets through one member to whatever ends it. */
  lemma MemberRead(m: Member, tail: string)
    requires !HasControl(m.key) && tail != ""
    requires ReadValue(Write(m.value) + tail) == Some((m.value, tail))
    ensures ReadMembers(WriteMember(m) + tail) ==
            if tail[0] == '}' then Some(([m], tail[1..]))
            else if tail[0] != ',' || ReadMembers(tail[1..]).None? then None
            else Some(([m] + ReadMembers(tail[1..]).value.0, ReadMembers(tail[1..]).value.1))
  {
    var value := Write(m.value) + tail;
    UnescapeEscape(m.key, ":" + value);
    MemberPieces(Escape(m.key), Write(m.value), tail);
    MemberSteps(m.key, m.value, Escape(m.key) + "\"" + (":" + value), value, tail);
  }

  lemma MemberPieces(e: string, w: string, tail: string)
    ensures "\"" + e + "\":" + w + tail == "\"" + (e + "\"" + (":" + (w + tail)))
  {
  }

  /** One pass of the member reader, when its string and its value are known. */
  lemma MemberSteps(k: string, v: Value, afterQuote: string, value: string, tail: string)
    requires tail != "" && ReadString(afterQuote) == Some((k, ":" + value)) && ReadValue(value) == Some((v, tail))
    ensures ReadMembers("\"" + afterQuote) ==
            if tail[0] == '}' then Some(([Member(k, v)], tail[1..]))
            else if tail[0] != ',' || ReadMembers(tail[1..]).None? then None
            else Some(([Member(k, v)] + ReadMembers(tail[1..]).value.0, ReadMembers(tail[1..]).value.1))
  {
    hide ReadString, ReadValue;
    Uncons('"', afterQuote);
    Uncons(':', value);
    var t := "\"" + afterQuote;
    assert t != "" && t[0] == '"' && t[1..] == afterQuote;
    assert (":" + value) != "" && (":" + value)[0] == ':' && (":" + value)[1..] == value;
  }

  /** A written value parses to itself. */
  lemma ParseWrite(v: Value)
    requires Printable(v)
    ensures Parse(Write(v)) == Some(v)
  {
    ReadWritten(v, "");
    assert Write(v) + "" == Write(v);
  }

  // ---- appending members ----

  lemma {:induction false} MembersSnoc(q: seq<Member>, m: Member)
    ensures WriteMembers(q + [m]) == WriteMembers(q) + (if q == [] then "" else ",") + WriteMember(m)
  {
    if q == [] {
      assert q + [m] == [m];
    } else {
      assert (q + [m])[1..] == q[1..] + [m];
      MembersSnoc(q[1..], m);
    }
  }

  lemma {:induction false} DigitsFit(n: nat, width: nat, limit: nat)
    requires width > 0 && n < limit && limit == Power10(width)
    ensures |Digits(n)| <= width
  {
    if n >= 10 {
      DigitsFit(n / 10, width - 1, limit / 10);
    }
  }

  function Power10(k: nat): nat {
    if k == 0 then 1 else 10 * Power10(k - 1)
  }

  /** A 32-bit number has at most ten digits. */
  lemma TenDigits(n: nat)
    requires n <= 0xFFFF_FFFF
    ensures |Digits(n)| <= 10
  {
    assert Power10(3) == 1000;
    assert Power10(6) == 1000_000;
    assert Power10(9) == 1000_000_000;
    DigitsFit(n, 10, Power10(10));
  }
}
