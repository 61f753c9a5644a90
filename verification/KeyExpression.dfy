/** The key-expression scanner of the Zenoh carrier, against the grammar it documents. */
module KeyExpression {

  import opened Basics

  const SLASH: Byte := 0x2F
  const STAR: Byte := 0x2A
  const DOLLAR: Byte := 0x24
  const HASH: Byte := 0x23
  const QUESTION: Byte := 0x3F

  // ---- the grammar ----

  /** A part of a chunk: an ordinary byte, or the in-chunk wildcard `$*`. */
  datatype Piece = Literal(b: Byte) | AnyPart

  datatype Chunk = Single | Deep | Text(pieces: seq<Piece>)

  predicate Ordinary(b: Byte) {
    b != SLASH && b != STAR && b != DOLLAR && b != HASH && b != QUESTION
  }

  function RenderPieces(ps: seq<Piece>): Bytes {
    if ps == [] then []
    else (match ps[0] case Literal(b) => [b] case AnyPart => [DOLLAR, STAR]) + RenderPieces(ps[1..])
  }

  /** No two `$*` back to back. */
  ghost predicate Spread(ps: seq<Piece>) {
    && (forall i :: 0 <= i < |ps| && ps[i].Literal? ==> Ordinary(ps[i].b))
    && (forall i :: 0 <= i < |ps| - 1 ==> !(ps[i].AnyPart? && ps[i + 1].AnyPart?))
  }

  function RenderChunk(c: Chunk): Bytes {
    match c
    case Single => [STAR]
    case Deep => [STAR, STAR]
    case Text(ps) => RenderPieces(ps)
  }

  ghost predicate WellFormed(c: Chunk) {
    c.Text? ==> c.pieces != [] && Spread(c.pieces)
  }

  /** Chunks separated by slashes. */
  function Join(cs: seq<Chunk>): Bytes
    requires cs != []
  {
    if |cs| == 1 then RenderChunk(cs[0]) else RenderChunk(cs[0]) + [SLASH] + Join(cs[1..])
  }

  ghost predicate KeyOf(cs: seq<Chunk>, key: Bytes) {
    cs != [] && (forall i :: 0 <= i < |cs| ==> WellFormed(cs[i])) && Join(cs) == key
  }

  /** A key a router accepts as a subscription. */
  ghost predicate SubscriptionKey(key: Bytes) {
    exists cs :: KeyOf(cs, key)
  }

  ghost predicate Plain(c: Chunk) {
    c.Text? && forall i :: 0 <= i < |c.pieces| ==> c.pieces[i].Literal?
  }

  /** A key that can be published to: no wildcard of any kind. */
  ghost predicate PublicationKey(key: Bytes) {
    exists cs :: KeyOf(cs, key) && forall i :: 0 <= i < |cs| ==> Plain(cs[i])
  }

  // ---- the scan as a function of the remaining bytes ----

  predicate TextFrom(s: Bytes, afterPair: bool, wildcards: bool) {
    if s == [] then true
    else if s[0] == HASH || s[0] == QUESTION || s[0] == STAR then false
    else if s[0] == DOLLAR then
      wildcards && |s| > 1 && s[1] == STAR && !afterPair && TextFrom(s[2..], true, wildcards)
    else TextFrom(s[1..], false, wildcards)
  }

  predicate ChunkAccepted(s: Bytes, wildcards: bool) {
    if s == [STAR] || s == [STAR, STAR] then wildcards else TextFrom(s, false, wildcards)
  }

  function ChunkEnd(key: Bytes, start: nat): (e: nat)
    requires start <= |key|
    ensures start <= e <= |key| && (e < |key| ==> key[e] == SLASH)
    ensures forall i :: start <= i < e ==> key[i] != SLASH
    decreases |key| - start
  {
    if start == |key| || key[start] == SLASH then start else ChunkEnd(key, start + 1)
  }

  predicate AcceptedFrom(key: Bytes, start: nat, wildcards: bool)
    requires start <= |key|
    decreases |key| - start
  {
    var e := ChunkEnd(key, start);
    e > start && ChunkAccepted(key[start..e], wildcards) && (e == |key| || AcceptedFrom(key, e + 1, wildcards))
  }

  // ---- the scanner ----

  /** One byte of the scan, or two of them for a `$*`. */
  lemma TextAt(s: Bytes, i: nat, afterPair: bool, wildcards: bool)
    requires i < |s|
    ensures TextFrom(s[i..], afterPair, wildcards) <==>
            if s[i] == HASH || s[i] == QUESTION || s[i] == STAR then false
            else if s[i] == DOLLAR then
              wildcards && i + 1 < |s| && s[i + 1] == STAR && !afterPair && TextFrom(s[i + 2..], true, wildcards)
            else TextFrom(s[i + 1..], false, wildcards)
  {
    var rest := s[i..];
    assert rest[0] == s[i] && rest[1..] == s[i + 1..];
    if i + 1 < |s| {
      assert rest[1] == s[i + 1] && rest[2..] == s[i + 2..];
    }
  }

  lemma ChunkStarts(s: Bytes, wildcards: bool)
    ensures s != [STAR] && s != [STAR, STAR] ==> (ChunkAccepted(s, wildcards) <==> TextFrom(s[0..], false, wildcards))
    ensures TextFrom(s[|s|..], false, wildcards) && TextFrom(s[|s|..], true, wildcards)
  {
    assert s[0..] == s && s[|s|..] == [];
  }

  method ChunkIsValid(key: Bytes, start: nat, length: nat, wildcards: bool) returns (ok: bool)
    requires 0 < length && start + length <= |key|
    ensures ok == ChunkAccepted(key[start..start + length], wildcards)
  {
    ghost var chunk := key[start..start + length];
    if length == 1 && key[start] == STAR {
      assert chunk == [STAR];
      return wildcards;
    }
    if length == 2 && key[start] == STAR && key[start + 1] == STAR {
      assert chunk == [STAR, STAR];
      return wildcards;
    }
    var index := 0;
    var previousWasPair := false;
    ChunkStarts(chunk, wildcards);
    hide TextFrom, ChunkAccepted;
    while index < length
      invariant 0 <= index <= length
      invariant ChunkAccepted(chunk, wildcards) == TextFrom(chunk[index..], previousWasPair, wildcards)
      decreases length - index
    {
      var b := key[start + index];
      assert b == chunk[index];
      TextAt(chunk, index, previousWasPair, wildcards);
      if b == HASH || b == QUESTION || b == STAR {
        return false;
      }
      if b == DOLLAR {
        if !(wildcards && index + 1 < length && key[start + index + 1] == STAR && !previousWasPair) {
          return false;
        }
        previousWasPair := true;
        index := index + 2;
      } else {
        previousWasPair := false;
        index := index + 1;
      }
    }
    ok := true;
  }

  method IsValid(key: Bytes, wildcards: bool) returns (ok: bool)
    ensures ok == (key != [] && AcceptedFrom(key, 0, wildcards))
    ensures ok == if wildcards then SubscriptionKey(key) else PublicationKey(key)
  {
    ScanMatchesGrammar(key, wildcards);
    hide SubscriptionKey, PublicationKey, ChunkAccepted, AcceptedFrom;
    var count := |key|;
    if count == 0 {
      return false;
    }
    var chunkStart, index := 0, 0;
    while index <= count
      invariant 0 <= index <= count + 1 && chunkStart <= index
      invariant index <= count ==> chunkStart <= count
      invariant index == count + 1 ==> chunkStart == count + 1
      invariant forall i :: chunkStart <= i < index && i < count ==> key[i] != SLASH
      invariant chunkStart <= count ==> AcceptedFrom(key, 0, wildcards) == AcceptedFrom(key, chunkStart, wildcards)
      invariant chunkStart == count + 1 ==> AcceptedFrom(key, 0, wildcards)
    {
      if index == count || key[index] == SLASH {
        var length := index - chunkStart;
        EndIs(key, chunkStart, index);
        AcceptedUnfolds(key, chunkStart, index, wildcards);
        if length == 0 {
          return false;
        }
        var valid := ChunkIsValid(key, chunkStart, length, wildcards);
        if !valid {
          return false;
        }
        chunkStart := index + 1;
      }
      index := index + 1;
    }
    ok := true;
  }

  lemma {:induction false} EndIs(key: Bytes, start: nat, e: nat)
    requires start <= e <= |key| && (e < |key| ==> key[e] == SLASH)
    requires forall i :: start <= i < e ==> key[i] != SLASH
    ensures ChunkEnd(key, start) == e
    decreases e - start
  {
    if start < e {
      EndIs(key, start + 1, e);
    }
  }

  // ---- scan and grammar agree ----

  ghost predicate PiecesOf(ps: seq<Piece>, s: Bytes, afterPair: bool, wildcards: bool) {
    && RenderPieces(ps) == s && Spread(ps)
    && (afterPair && ps != [] ==> ps[0].Literal?)
    && (!wildcards ==> forall i :: 0 <= i < |ps| ==> ps[i].Literal?)
  }

  lemma {:induction false} TextParses(s: Bytes, afterPair: bool, wildcards: bool) returns (ps: seq<Piece>)
    requires TextFrom(s, afterPair, wildcards) && SLASH !in s
    ensures PiecesOf(ps, s, afterPair, wildcards) && (s != [] ==> ps != [])
    decreases |s|
  {
    if s == [] {
      ps := [];
    } else {
      var p, rest;
      if s[0] == DOLLAR {
        rest := TextParses(s[2..], true, wildcards);
        p := AnyPart;
        assert s == [DOLLAR, STAR] + s[2..];
      } else {
        rest := TextParses(s[1..], false, wildcards);
        p := Literal(s[0]);
        assert s == [s[0]] + s[1..];
      }
      ps := [p] + rest;
      assert ps[1..] == rest;
      forall i | 0 <= i < |ps| - 1 ensures !(ps[i].AnyPart? && ps[i + 1].AnyPart?) {
        if i > 0 {
          assert ps[i] == rest[i - 1] && ps[i + 1] == rest[i - 1 + 1];
        }
      }
    }
  }

  lemma {:induction false} PiecesScan(ps: seq<Piece>, afterPair: bool, wildcards: bool)
    requires Spread(ps) && (afterPair && ps != [] ==> ps[0].Literal?)
    requires !wildcards ==> forall i :: 0 <= i < |ps| ==> ps[i].Literal?
    ensures TextFrom(RenderPieces(ps), afterPair, wildcards) && SLASH !in RenderPieces(ps)
    ensures ps != [] ==> RenderPieces(ps) != [] && RenderPieces(ps)[0] != STAR
    decreases |ps|
  {
    if ps != [] {
      var rest := ps[1..];
      assert ps[0].AnyPart? && rest != [] ==> ps[0 + 1].Literal?;
      forall i | 0 <= i < |rest| - 1 ensures !(rest[i].AnyPart? && rest[i + 1].AnyPart?) {
        assert !(ps[i + 1].AnyPart? && ps[i + 1 + 1].AnyPart?);
      }
      PiecesScan(rest, ps[0].AnyPart?, wildcards);
      var s := RenderPieces(ps);
      if ps[0].AnyPart? {
        assert s[2..] == RenderPieces(rest);
      } else {
        assert Ordinary(ps[0].b);
        assert s[1..] == RenderPieces(rest);
      }
    }
  }

  ghost predicate Allowed(c: Chunk, wildcards: bool) {
    WellFormed(c) && (wildcards || Plain(c))
  }

  lemma ChunkParses(s: Bytes, wildcards: bool) returns (c: Chunk)
    requires s != [] && SLASH !in s && ChunkAccepted(s, wildcards)
    ensures Allowed(c, wildcards) && RenderChunk(c) == s
  {
    if s == [STAR] {
      c := Single;
    } else if s == [STAR, STAR] {
      c := Deep;
    } else {
      var ps := TextParses(s, false, wildcards);
      c := Text(ps);
    }
  }

  lemma ChunkScans(c: Chunk, wildcards: bool)
    requires Allowed(c, wildcards)
    ensures RenderChunk(c) != [] && SLASH !in RenderChunk(c) && ChunkAccepted(RenderChunk(c), wildcards)
  {
    if c.Text? {
      PiecesScan(c.pieces, false, wildcards);
    }
  }

  ghost predicate Chunks(cs: seq<Chunk>, s: Bytes, wildcards: bool) {
    cs != [] && (forall i :: 0 <= i < |cs| ==> Allowed(cs[i], wildcards)) && Join(cs) == s
  }

  lemma {:induction false} KeyParses(key: Bytes, start: nat, wildcards: bool) returns (cs: seq<Chunk>)
    requires start <= |key| && AcceptedFrom(key, start, wildcards)
    ensures Chunks(cs, key[start..], wildcards)
    decreases |key| - start
  {
    hide Allowed, ChunkAccepted, RenderChunk;
    var e := ChunkEnd(key, start);
    var c := ChunkParses(key[start..e], wildcards);
    if e == |key| {
      cs := [c];
    } else {
      var rest := KeyParses(key, e + 1, wildcards);
      cs := [c] + rest;
      assert cs[1..] == rest;
      assert key[start..] == key[start..e] + [SLASH] + key[e + 1..];
    }
  }

  lemma SuffixSplits(key: Bytes, start: nat, a: Bytes, rest: Bytes)
    requires start <= |key| && key[start..] == a + rest
    ensures start + |a| <= |key| && key[start..start + |a|] == a && key[start + |a|..] == rest
  {
    assert |key| - start == |a| + |rest|;
    forall i | 0 <= i < |a| ensures key[start + i] == a[i] {
      assert key[start..][i] == a[i];
    }
    forall i | 0 <= i < |rest| ensures key[start + |a| + i] == rest[i] {
      assert key[start..][|a| + i] == rest[i];
    }
  }

  lemma {:induction false} KeyScans(key: Bytes, start: nat, cs: seq<Chunk>, wildcards: bool)
    requires start <= |key| && Chunks(cs, key[start..], wildcards)
    ensures AcceptedFrom(key, start, wildcards)
    decreases |cs|
  {
    hide Allowed, ChunkAccepted, RenderChunk, AcceptedFrom, ChunkEnd;
    var first := RenderChunk(cs[0]);
    ChunkScans(cs[0], wildcards);
    var e := start + |first|;
    if |cs| > 1 {
      assert first + [SLASH] + Join(cs[1..]) == first + ([SLASH] + Join(cs[1..]));
      SuffixSplits(key, start, first, [SLASH] + Join(cs[1..]));
      SuffixSplits(key, e, [SLASH], Join(cs[1..]));
      assert key[e] == key[e..][0];
      KeyScans(key, e + 1, cs[1..], wildcards);
    } else {
      assert key[start..] == first + [];
      SuffixSplits(key, start, first, []);
    }
    NoSlashWithin(key, start, e, first);
    EndIs(key, start, e);
    AcceptedUnfolds(key, start, e, wildcards);
  }

  lemma NoSlashWithin(key: Bytes, start: nat, e: nat, chunk: Bytes)
    requires start <= e <= |key| && key[start..e] == chunk && SLASH !in chunk
    ensures forall i :: start <= i < e ==> key[i] != SLASH
  {
    forall i | start <= i < e ensures key[i] != SLASH {
      assert key[i] == chunk[i - start];
    }
  }

  lemma AcceptedUnfolds(key: Bytes, start: nat, e: nat, wildcards: bool)
    requires start <= e <= |key| && e == ChunkEnd(key, start)
    ensures AcceptedFrom(key, start, wildcards) <==>
            e > start && ChunkAccepted(key[start..e], wildcards) && (e == |key| || AcceptedFrom(key, e + 1, wildcards))
  {
    hide ChunkAccepted;
  }

  /** The scan accepts exactly the keys the grammar derives. */
  lemma ScanMatchesGrammar(key: Bytes, wildcards: bool)
    ensures (key != [] && AcceptedFrom(key, 0, wildcards)) ==
            if wildcards then SubscriptionKey(key) else PublicationKey(key)
  {
    assert key[0..] == key;
    if key != [] && AcceptedFrom(key, 0, wildcards) {
      var cs := KeyParses(key, 0, wildcards);
      assert KeyOf(cs, key);
    }
    if wildcards && SubscriptionKey(key) {
      var cs :| KeyOf(cs, key);
      KeyScans(key, 0, cs, true);
    }
    if !wildcards && PublicationKey(key) {
      var cs :| KeyOf(cs, key) && forall i :: 0 <= i < |cs| ==> Plain(cs[i]);
      KeyScans(key, 0, cs, false);
    }
  }

  // ---- publication keys are the wildcard-free subscription keys ----

  lemma {:induction false} TextModes(s: Bytes, afterPair: bool)
    ensures TextFrom(s, afterPair, false) <==> TextFrom(s, afterPair, true) && DOLLAR !in s && STAR !in s
    decreases |s|
  {
    if s != [] {
      assert s == [s[0]] + s[1..];
      TextModes(s[1..], false);
    }
  }

  lemma {:induction false} KeyModes(key: Bytes, start: nat)
    requires start <= |key|
    ensures AcceptedFrom(key, start, false) <==>
            AcceptedFrom(key, start, true) && DOLLAR !in key[start..] && STAR !in key[start..]
    decreases |key| - start
  {
    var e := ChunkEnd(key, start);
    var chunk := key[start..e];
    TextModes(chunk, false);
    if e == |key| {
      assert key[start..] == chunk;
    } else {
      KeyModes(key, e + 1);
      assert key[start..] == chunk + [SLASH] + key[e + 1..];
    }
  }

  lemma PublicationIsWildcardFree(key: Bytes)
    ensures PublicationKey(key) <==> SubscriptionKey(key) && STAR !in key && DOLLAR !in key
  {
    ScanMatchesGrammar(key, true);
    ScanMatchesGrammar(key, false);
    KeyModes(key, 0);
    assert key[0..] == key;
  }

  // ---- which keys these are, byte by byte ----

  /** A stretch of the key between separators or ends, with none inside. */
  ghost predicate Stretch(key: Bytes, a: int, b: int) {
    && 0 <= a <= b <= |key| && (a > 0 ==> key[a - 1] == 0x2F) && (b < |key| ==> key[b] == 0x2F)
    && forall i :: a <= i < b ==> key[i] != 0x2F
  }

  /** `#` and `?` nowhere, `$` only before `*` and not right behind a `$*`, `*` only behind `$`. */
  ghost predicate PlaceAllowed(s: Bytes, j: int)
    requires 0 <= j < |s|
  {
    && s[j] != 0x23 && s[j] != 0x3F
    && (s[j] == 0x24 ==> j + 1 < |s| && s[j + 1] == 0x2A && !(j >= 2 && s[j - 1] == 0x2A && s[j - 2] == 0x24))
    && (s[j] == 0x2A ==> j > 0 && s[j - 1] == 0x24)
  }

  ghost predicate ChunkAllowed(s: Bytes) {
    s != [] && (s == [0x2A] || s == [0x2A, 0x2A] || forall j :: 0 <= j < |s| ==> PlaceAllowed(s, j))
  }

  lemma {:induction false} TextPlaces(s: Bytes, i: nat, afterPair: bool)
    requires i <= |s| && (i > 0 ==> s[i - 1] != DOLLAR)
    requires afterPair <==> i >= 2 && s[i - 1] == STAR && s[i - 2] == DOLLAR
    ensures TextFrom(s[i..], afterPair, true) <==> forall j :: i <= j < |s| ==> PlaceAllowed(s, j)
    decreases |s| - i
  {
    if i < |s| {
      TextAt(s, i, afterPair, true);
      hide TextFrom;
      if s[i] == DOLLAR {
        if i + 1 < |s| && s[i + 1] == STAR {
          TextPlaces(s, i + 2, true);
          assert PlaceAllowed(s, i + 1) && (PlaceAllowed(s, i) <==> !afterPair);
        } else {
          assert !PlaceAllowed(s, i);
        }
      } else {
        if s[i] != STAR {
          TextPlaces(s, i + 1, false);
          assert PlaceAllowed(s, i) <==> s[i] != HASH && s[i] != QUESTION;
        } else {
          assert !PlaceAllowed(s, i);
        }
      }
    }
  }

  lemma ChunkPlaces(s: Bytes)
    requires s != []
    ensures ChunkAccepted(s, true) <==> ChunkAllowed(s)
  {
    TextPlaces(s, 0, false);
    assert s[0..] == s;
  }

  lemma {:induction false} ScanStretches(key: Bytes, start: nat)
    requires start <= |key| && (start > 0 ==> key[start - 1] == SLASH)
    ensures AcceptedFrom(key, start, true) <==>
            forall a, b :: start <= a && Stretch(key, a, b) ==> ChunkAllowed(key[a..b])
    decreases |key| - start
  {
    var e := ChunkEnd(key, start);
    assert Stretch(key, start, e);
    forall b | Stretch(key, start, b) ensures b == e {
      assert !(b < e) && !(e < b);
    }
    if e > start {
      ChunkPlaces(key[start..e]);
    }
    hide ChunkAccepted, ChunkAllowed;
    if e < |key| {
      ScanStretches(key, e + 1);
    }
    forall a, b | start <= a && Stretch(key, a, b) ensures a == start || e + 1 <= a {
      assert !(start < a <= e);
    }
    assert key[start..start] == [];
    EmptyNotAllowed();
  }

  lemma EmptyNotAllowed()
    ensures !ChunkAllowed([])
  {
  }

  /** Subscription keys: no empty stretch, and each is `*`, `**`, or has every byte in an allowed place. */
  lemma SubscriptionPlaces(key: Bytes)
    ensures SubscriptionKey(key) <==> forall a, b :: Stretch(key, a, b) ==> ChunkAllowed(key[a..b])
  {
    ScanMatchesGrammar(key, true);
    ScanStretches(key, 0);
    hide SubscriptionKey, AcceptedFrom, ChunkAllowed;
    EmptyNotAllowed();
    if key == [] {
      assert Stretch(key, 0, 0) && key[0..0] == [];
    }
    assert (forall a, b :: 0 <= a && Stretch(key, a, b) ==> ChunkAllowed(key[a..b])) <==>
           forall a, b :: Stretch(key, a, b) ==> ChunkAllowed(key[a..b]);
  }

  /** Publication keys: no separator at an end or beside another, and none of the four special bytes. */
  lemma PublicationPlaces(key: Bytes)
    ensures PublicationKey(key) <==>
            && key != [] && key[0] != 0x2F && key[|key| - 1] != 0x2F
            && (forall i :: 0 <= i < |key| ==> key[i] != 0x23 && key[i] != 0x3F && key[i] != 0x2A && key[i] != 0x24)
            && forall i, j :: 0 <= i && j == i + 1 < |key| && key[i] == 0x2F ==> key[j] != 0x2F
  {
    PublicationIsWildcardFree(key);
    SubscriptionPlaces(key);
    hide SubscriptionKey, PublicationKey;
    if SubscriptionKey(key) && STAR !in key && DOLLAR !in key {
      NoEmptyStretch(key);
    }
    if && key != [] && key[0] != 0x2F && key[|key| - 1] != 0x2F
       && (forall i :: 0 <= i < |key| ==> key[i] != 0x23 && key[i] != 0x3F && key[i] != 0x2A && key[i] != 0x24)
       && forall i, j :: 0 <= i && j == i + 1 < |key| && key[i] == 0x2F ==> key[j] != 0x2F
    {
      forall a, b | Stretch(key, a, b) ensures ChunkAllowed(key[a..b]) {
        NotEmptyThere(key, a, b);
        assert forall j :: 0 <= j < |key[a..b]| ==> key[a..b][j] == key[a + j];
      }
    }
  }

  lemma NotEmptyThere(key: Bytes, a: int, b: int)
    requires key != [] && key[0] != 0x2F && key[|key| - 1] != 0x2F && Stretch(key, a, b)
    requires forall i, j :: 0 <= i && j == i + 1 < |key| && key[i] == 0x2F ==> key[j] != 0x2F
    ensures a < b
  {
    if 0 < a < |key| {
      var i := a - 1;
      assert key[i] == 0x2F;
      assert key[a] != 0x2F;
    }
  }

  lemma NoEmptyStretch(key: Bytes)
    requires forall a, b :: Stretch(key, a, b) ==> ChunkAllowed(key[a..b])
    requires STAR !in key && DOLLAR !in key
    ensures key != [] && key[0] != 0x2F && key[|key| - 1] != 0x2F
    ensures forall i :: 0 <= i < |key| ==> key[i] != 0x23 && key[i] != 0x3F && key[i] != 0x2A && key[i] != 0x24
    ensures forall i, j :: 0 <= i && j == i + 1 < |key| && key[i] == 0x2F ==> key[j] != 0x2F
  {
    EmptyNotAllowed();
    forall a | 0 <= a <= |key| ensures !Stretch(key, a, a) {
      assert key[a..a] == [];
    }
    assert Stretch(key, 0, 0) <==> key == [] || key[0] == 0x2F;
    assert key != [] ==> (Stretch(key, |key|, |key|) <==> key[|key| - 1] == 0x2F);
    forall i, j | 0 <= i && j == i + 1 < |key| && key[i] == 0x2F ensures key[j] != 0x2F {
      assert !Stretch(key, j, j);
    }
    forall i | 0 <= i < |key| ensures key[i] != 0x23 && key[i] != 0x3F && key[i] != 0x2A && key[i] != 0x24 {
      assert key[i] in key;
      if key[i] != 0x2F {
        var a, b := Around(key, i);
        var s := key[a..b];
        assert s[i - a] == key[i] && ChunkAllowed(s);
        assert s[0] == key[a] && key[a] in key;
        assert PlaceAllowed(s, i - a);
      }
    }
  }

  lemma Around(key: Bytes, i: nat) returns (a: nat, b: nat)
    requires i < |key| && key[i] != 0x2F
    ensures a <= i < b <= |key| && Stretch(key, a, b)
  {
    a, b := i, i + 1;
    while a > 0 && key[a - 1] != 0x2F
      invariant 0 <= a <= i && forall k :: a <= k < b ==> key[k] != 0x2F
    {
      a := a - 1;
    }
    while b < |key| && key[b] != 0x2F
      invariant i < b <= |key| && forall k :: a <= k < b ==> key[k] != 0x2F
    {
      b := b + 1;
    }
  }
}
