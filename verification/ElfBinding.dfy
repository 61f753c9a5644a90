/** Binding a disassembly to the image: accepted functions are exactly the bytes of the ELF file. */
module ElfBinding {
  import opened Basics
  import opened Ranges
  import opened Disassembly

  /** An executable section with its bytes. */
  datatype Section = Section(start: int, contents: Bytes) {
    function End(): int {
      start + |contents|
    }
  }

  datatype Symbol = Symbol(name: string, address: int, size: nat, isFunction: bool, absolute: bool)

  /** One line of the symbol listing. */
  datatype Row = Row(name: string, address: int, size: nat)

  /** A function of the listing: whether its symbol kinds claim code, and the instructions given to it. */
  datatype Listed = Listed(f: Function, claimsCode: bool, instructions: seq<Instruction>)

  predicate Contains(s: Section, address: int, size: nat) {
    s.start <= address && address + size <= s.End()
  }

  predicate ContainedSomewhere(sections: seq<Section>, address: int, size: nat) {
    exists k :: 0 <= k < |sections| && Contains(sections[k], address, size)
  }

  /** A function symbol inside the image. */
  predicate InImage(sections: seq<Section>, s: Symbol) {
    s.isFunction && !s.absolute && ContainedSomewhere(sections, s.address, s.size)
  }

  /** For each address the largest extent of an in-image function symbol there, and nothing else. */
  ghost predicate Largest(symbols: seq<Symbol>, sections: seq<Section>, extents: map<int, nat>) {
    && (forall s :: s in symbols && InImage(sections, s) ==> s.address in extents && s.size <= extents[s.address])
    && (forall a :: a in extents ==>
           exists s :: s in symbols && InImage(sections, s) && s.address == a && s.size == extents[a])
  }

  lemma LargestStep(symbols: seq<Symbol>, sections: seq<Section>, extents: map<int, nat>, s: Symbol, size: nat)
    requires Largest(symbols, sections, extents)
    requires InImage(sections, s) && size == if s.address in extents && extents[s.address] > s.size
             then extents[s.address] else s.size
    ensures Largest(symbols + [s], sections, extents[s.address := size])
  {
    var next := extents[s.address := size];
    forall a | a in next ensures exists x ::
        x in symbols + [s] && InImage(sections, x) && x.address == a && x.size == next[a] {
      if a == s.address && size == s.size {
        assert s in symbols + [s];
      } else {
        var x :| x in symbols && InImage(sections, x) && x.address == a && x.size == extents[a];
        assert x in symbols + [s];
      }
    }
  }

  method Extents(symbols: seq<Symbol>, sections: seq<Section>) returns (extents: map<int, nat>)
    ensures Largest(symbols, sections, extents)
  {
    hide InImage;
    extents := map[];
    for i := 0 to |symbols|
      invariant Largest(symbols[..i], sections, extents)
    {
      var s := symbols[i];
      assert symbols[..i + 1] == symbols[..i] + [s];
      if InImage(sections, s) {
        var size := if s.address in extents && extents[s.address] > s.size then extents[s.address] else s.size;
        LargestStep(symbols[..i], sections, extents, s, size);
        extents := extents[s.address := size];
      }
    }
    assert symbols[..|symbols|] == symbols;
  }

  // ---- one instruction ----

  function Power256(k: nat): (p: nat)
    ensures p > 0
  {
    if k == 0 then 1 else 256 * Power256(k - 1)
  }

  function LittleEndian(value: nat, size: nat): (q: Bytes)
    ensures |q| == size
  {
    if size == 0 then [] else [value % 256] + LittleEndian(value / 256, size - 1)
  }

  /** A printed value that fits is recovered from its bytes. */
  lemma {:induction false} LittleEndianValue(value: nat, size: nat)
    requires value < Power256(size)
    ensures ValueOf(LittleEndian(value, size)) == value
  {
    if size > 0 {
      LittleEndianValue(value / 256, size - 1);
    }
  }

  /** The bytes a printed encoding stands for. */
  function BytesOf(i: Instruction): Bytes
    requires i.encoding.Some?
  {
    LittleEndian(i.encoding.value.value, i.Size())
  }

  predicate Reads(s: Section, i: Instruction) {
    && i.encoding.Some?
    && i.encoding.value.value < Power256(i.Size())
    && Contains(s, i.address, i.Size())
    && s.contents[i.address - s.start..i.address - s.start + i.Size()] == BytesOf(i)
  }

  /** The instruction lies in exactly one section, and that section's bytes are its printed encoding. */
  predicate Bound(sections: seq<Section>, i: Instruction) {
    exists k :: 0 <= k < |sections| && Reads(sections[k], i) &&
                forall m :: 0 <= m < |sections| && Contains(sections[m], i.address, i.Size()) ==> m == k
  }

  method Matching(sections: seq<Section>, address: int, size: nat) returns (matching: seq<nat>)
    ensures forall k :: k in matching <==> 0 <= k < |sections| && Contains(sections[k], address, size)
    ensures forall i, j :: 0 <= i < j < |matching| ==> matching[i] < matching[j]
  {
    matching := [];
    for k := 0 to |sections|
      invariant forall m :: m in matching <==> 0 <= m < k && Contains(sections[m], address, size)
      invariant forall i, j :: 0 <= i < j < |matching| ==> matching[i] < matching[j]
    {
      if Contains(sections[k], address, size) {
        forall i | 0 <= i < |matching| ensures matching[i] < k {
          assert matching[i] in matching;
        }
        matching := matching + [k];
      }
    }
  }

  method CheckBytes(sections: seq<Section>, i: Instruction) returns (ok: bool)
    ensures ok <==> Bound(sections, i)
  {
    if i.encoding.None? {
      return false;
    }
    var matching := Matching(sections, i.address, i.Size());
    if |matching| != 1 {
      NotUnique(sections, i, matching);
      return false;
    }
    var k := matching[0];
    assert k in matching;
    var s := sections[k];
    var raw := s.contents[i.address - s.start..i.address - s.start + i.Size()];
    ok := i.encoding.value.value < Power256(i.Size()) && raw == BytesOf(i);
    assert forall m :: 0 <= m < |sections| && Contains(sections[m], i.address, i.Size()) ==> m in matching;
  }

  lemma NotUnique(sections: seq<Section>, i: Instruction, matching: seq<nat>)
    requires forall k :: k in matching <==> 0 <= k < |sections| && Contains(sections[k], i.address, i.Size())
    requires forall a, b :: 0 <= a < b < |matching| ==> matching[a] < matching[b]
    requires |matching| != 1
    ensures !Bound(sections, i)
  {
    forall k | 0 <= k < |sections| && Reads(sections[k], i)
      ensures exists m :: 0 <= m < |sections| && Contains(sections[m], i.address, i.Size()) && m != k
    {
      assert k in matching;
      assert matching[0] in matching && matching[1] in matching;
    }
  }

  // ---- tiling ----

  /** Laid end to end from `a`, the instructions stop exactly at `b`. */
  predicate Tiles(q: seq<Instruction>, a: int, b: int) {
    if q == [] then a == b else q[0].address == a && Tiles(q[1..], a + q[0].Size(), b)
  }

  predicate NoRepeat(q: seq<Instruction>) {
    forall i, j :: 0 <= i < j < |q| ==> q[i].address != q[j].address
  }

  method CheckTiles(q: seq<Instruction>, a: int, b: int) returns (ok: bool)
    ensures ok <==> Tiles(q, a, b)
  {
    var cursor := a;
    assert q[0..] == q;
    for i := 0 to |q|
      invariant Tiles(q, a, b) <==> Tiles(q[i..], cursor, b)
    {
      assert q[i..] != [] && q[i..][0] == q[i] && q[i..][1..] == q[i + 1..];
      if q[i].address != cursor {
        return false;
      }
      cursor := cursor + q[i].Size();
    }
    ok := cursor == b;
  }

  ghost predicate Accepts(sections: seq<Section>, x: Listed) {
    && NoRepeat(x.instructions)
    && (forall i :: 0 <= i < |x.instructions| ==> Bound(sections, x.instructions[i]))
    && Tiles(Sorted(x.instructions, PlaceOf), x.f.start, x.f.End())
  }

  /** The checks of one function. */
  method ValidateFunction(sections: seq<Section>, x: Listed) returns (ok: bool)
    ensures ok <==> Accepts(sections, x)
    ensures ok ==> forall i, j :: 0 <= i < j < |x.instructions| ==>
                x.instructions[i].address != x.instructions[j].address
  {
    hide Bound, Tiles, Sorted;
    var q := x.instructions;
    var pcs: set<int> := {};
    for i := 0 to |q|
      invariant forall a :: a in pcs <==> exists k :: 0 <= k < i && q[k].address == a
      invariant NoRepeat(q[..i])
      invariant forall k :: 0 <= k < i ==> Bound(sections, q[k])
    {
      if q[i].address in pcs {
        return false;
      }
      pcs := pcs + {q[i].address};
      var bound := CheckBytes(sections, q[i]);
      if !bound {
        return false;
      }
    }
    assert q[..|q|] == q;
    ok := CheckTiles(Sorted(q, PlaceOf), x.f.start, x.f.End());
  }

  /** Some in-image function symbol is at the address. */
  ghost predicate Placed(symbols: seq<Symbol>, sections: seq<Section>, a: int) {
    exists s :: s in symbols && InImage(sections, s) && s.address == a
  }

  /** `size` is the largest extent of an in-image function symbol at the address. */
  ghost predicate LargestAt(symbols: seq<Symbol>, sections: seq<Section>, a: int, size: nat) {
    && (exists s :: s in symbols && InImage(sections, s) && s.address == a && s.size == size)
    && forall s :: s in symbols && InImage(sections, s) && s.address == a ==> s.size <= size
  }

  /** What one function of the listing must satisfy. */
  ghost predicate Valid(symbols: seq<Symbol>, sections: seq<Section>, x: Listed) {
    if Placed(symbols, sections, x.f.start)
    then LargestAt(symbols, sections, x.f.start, x.f.size) && Accepts(sections, x)
    else !x.claimsCode
  }

  lemma ExtentsAgree(symbols: seq<Symbol>, sections: seq<Section>, extents: map<int, nat>, a: int)
    requires Largest(symbols, sections, extents)
    ensures a in extents <==> Placed(symbols, sections, a)
    ensures a in extents ==> forall n :: LargestAt(symbols, sections, a, n) <==> n == extents[a]
  {
    hide InImage;
  }

  /** Every listed symbol is a symbol of the image, with its address and size. */
  ghost predicate Genuine(symbols: seq<Symbol>, rows: seq<Row>) {
    forall r :: r in rows ==> exists s :: s in symbols && Row(s.name, s.address, s.size) == r
  }

  lemma GenuineRow(symbols: seq<Symbol>, rows: seq<Row>, r: Row) returns (s: Symbol)
    requires r in rows && Genuine(symbols, rows)
    ensures s in symbols && s.name == r.name && s.address == r.address && s.size == r.size
  {
    s :| s in symbols && Row(s.name, s.address, s.size) == r;
  }

  method CheckRows(symbols: seq<Symbol>, rows: seq<Row>) returns (ok: bool)
    ensures ok <==> Genuine(symbols, rows)
  {
    var byName: set<Row> := {};
    for i := 0 to |symbols|
      invariant forall r :: r in byName <==>
                  exists k :: 0 <= k < i && Row(symbols[k].name, symbols[k].address, symbols[k].size) == r
    {
      byName := byName + {Row(symbols[i].name, symbols[i].address, symbols[i].size)};
    }
    for i := 0 to |rows|
      invariant forall k :: 0 <= k < i ==> rows[k] in byName
    {
      if rows[i] !in byName {
        assert rows[i] in rows;
        return false;
      }
    }
    ok := true;
  }

  /** The listing is accepted exactly when its rows are genuine and every function passes. */
  method ValidateLinkedInputs(symbols: seq<Symbol>, sections: seq<Section>, rows: seq<Row>, functions: seq<Listed>)
    returns (ok: bool)
    ensures ok <==> (&& Genuine(symbols, rows)
                     && forall i :: 0 <= i < |functions| ==> Valid(symbols, sections, functions[i]))
    ensures ok ==> forall r :: r in rows ==>
                exists s :: s in symbols && s.name == r.name && s.address == r.address && s.size == r.size
    ensures ok ==> forall i :: 0 <= i < |functions| && functions[i].claimsCode ==> exists s, k, q ::
                && s in symbols && s.isFunction && !s.absolute
                && s.address == functions[i].f.start && s.size == functions[i].f.size
                && 0 <= k < |sections| && sections[k].start <= functions[i].f.start
                && functions[i].f.start + functions[i].f.size <= sections[k].start + |sections[k].contents|
                && q == Sorted(functions[i].instructions, PlaceOf) && Encoded(q)
                && Concat(q) ==
                   sections[k].contents[functions[i].f.start - sections[k].start..][..functions[i].f.size]
  {
    hide Valid;
    var genuine := CheckRows(symbols, rows);
    if !genuine {
      return false;
    }
    ok := ValidateFunctions(symbols, sections, functions);
    if ok {
      forall r | r in rows
        ensures exists s :: s in symbols && s.name == r.name && s.address == r.address && s.size == r.size
      {
        var s := GenuineRow(symbols, rows, r);
      }
      forall i | 0 <= i < |functions| && functions[i].claimsCode ensures exists s, k, q ::
          && s in symbols && s.isFunction && !s.absolute
          && s.address == functions[i].f.start && s.size == functions[i].f.size
          && 0 <= k < |sections| && sections[k].start <= functions[i].f.start
          && functions[i].f.start + functions[i].f.size <= sections[k].start + |sections[k].contents|
          && q == Sorted(functions[i].instructions, PlaceOf) && Encoded(q)
          && Concat(q) == sections[k].contents[functions[i].f.start - sections[k].start..][..functions[i].f.size]
      {
        var s, k := AcceptedClaim(symbols, sections, functions[i]);
      }
    }
  }

  method ValidateFunctions(symbols: seq<Symbol>, sections: seq<Section>, functions: seq<Listed>) returns (ok: bool)
    ensures ok <==> forall i :: 0 <= i < |functions| ==> Valid(symbols, sections, functions[i])
  {
    hide Largest, Accepts, Placed, LargestAt;
    var extents := Extents(symbols, sections);
    for i := 0 to |functions|
      invariant forall k :: 0 <= k < i ==> Valid(symbols, sections, functions[k])
    {
      var x := functions[i];
      ExtentsAgree(symbols, sections, extents, x.f.start);
      if x.f.start !in extents {
        if x.claimsCode {
          return false;
        }
      } else {
        if extents[x.f.start] != x.f.size {
          return false;
        }
        var accepted := ValidateFunction(sections, x);
        if !accepted {
          return false;
        }
      }
    }
    ok := true;
  }

  // ---- what acceptance means ----

  predicate Encoded(q: seq<Instruction>) {
    forall i :: 0 <= i < |q| ==> q[i].encoding.Some?
  }

  function Concat(q: seq<Instruction>): Bytes
    requires Encoded(q)
  {
    if q == [] then [] else BytesOf(q[0]) + Concat(q[1..])
  }

  lemma {:induction false} TilesUp(q: seq<Instruction>, a: int, b: int)
    requires Tiles(q, a, b)
    ensures a <= b
  {
    if q != [] {
      TilesUp(q[1..], a + q[0].Size(), b);
    }
  }

  /** Laid out inside one section, bound instructions spell out that section's bytes. */
  lemma {:induction false} TilesSpell(q: seq<Instruction>, a: int, b: int, sections: seq<Section>, k: nat)
    requires Tiles(q, a, b) && forall i :: 0 <= i < |q| ==> Bound(sections, q[i])
    requires k < |sections| && sections[k].start <= a && b <= sections[k].End()
    ensures a <= b && forall i :: 0 <= i < |q| ==> q[i].encoding.Some?
    ensures Concat(q) == sections[k].contents[a - sections[k].start..b - sections[k].start]
  {
    hide Bound;
    TilesUp(q, a, b);
    if q != [] {
      var next := a + q[0].Size();
      TilesUp(q[1..], next, b);
      forall i | 0 <= i < |q[1..]| ensures Bound(sections, q[1..][i]) {
        assert q[1..][i] == q[i + 1];
      }
      TilesSpell(q[1..], next, b, sections, k);
      BoundHere(sections, k, q[0]);
      SpellStep(sections[k], q, a, b);
    }
  }

  lemma SpellStep(s: Section, q: seq<Instruction>, a: int, b: int)
    requires q != [] && Reads(s, q[0]) && q[0].address == a && s.start <= a && a + q[0].Size() <= b <= s.End()
    requires forall i :: 0 <= i < |q[1..]| ==> q[1..][i].encoding.Some?
    requires Concat(q[1..]) == s.contents[a + q[0].Size() - s.start..b - s.start]
    ensures forall i :: 0 <= i < |q| ==> q[i].encoding.Some?
    ensures Concat(q) == s.contents[a - s.start..b - s.start]
  {
    hide LittleEndian, BytesOf;
    AllEncoded(q);
    assert BytesOf(q[0]) == s.contents[a - s.start..a + q[0].Size() - s.start];
    hide Reads;
    Glue(s.contents, BytesOf(q[0]), Concat(q[1..]), a - s.start, a + q[0].Size() - s.start, b - s.start);
  }

  lemma AllEncoded(q: seq<Instruction>)
    requires q != [] && q[0].encoding.Some? && forall i :: 0 <= i < |q[1..]| ==> q[1..][i].encoding.Some?
    ensures forall i :: 0 <= i < |q| ==> q[i].encoding.Some?
  {
    forall i | 0 <= i < |q| ensures q[i].encoding.Some? {
      assert i > 0 ==> q[i] == q[1..][i - 1];
    }
  }

  lemma Glue(c: Bytes, x: Bytes, y: Bytes, i: nat, j: nat, k: nat)
    requires i <= j <= k <= |c| && x == c[i..j] && y == c[j..k]
    ensures x + y == c[i..k]
  {
  }

  lemma BoundHere(sections: seq<Section>, k: nat, i: Instruction)
    requires k < |sections| && Bound(sections, i) && Contains(sections[k], i.address, i.Size())
    ensures Reads(sections[k], i)
  {
  }

  /** Every address of a tiled extent belongs to one instruction and no other. */
  lemma {:induction false} TilesOnce(q: seq<Instruction>, a: int, b: int, at: int)
    requires Tiles(q, a, b) && a <= at < b
    ensures exists i :: 0 <= i < |q| && Covers(q[i], at) && forall j :: 0 <= j < |q| && Covers(q[j], at) ==> j == i
  {
    var rest := q[1..];
    var next := a + q[0].Size();
    TilesUp(rest, next, b);
    assert forall j :: 0 <= j < |rest| ==> rest[j] == q[j + 1];
    if at < next {
      forall j | 0 <= j < |rest| ensures !Covers(rest[j], at) {
        TilesFrom(rest, next, b, j);
      }
      assert Covers(q[0], at);
    } else {
      TilesOnce(rest, next, b, at);
      var i :| 0 <= i < |rest| && Covers(rest[i], at) && forall j :: 0 <= j < |rest| && Covers(rest[j], at) ==> j == i;
      assert Covers(q[i + 1], at);
      forall j | 0 <= j < |q| && Covers(q[j], at) ensures j == i + 1 {
        assert j > 0 ==> Covers(rest[j - 1], at);
      }
    }
  }

  predicate Covers(i: Instruction, a: int) {
    i.address <= a < i.address + i.Size()
  }

  lemma {:induction false} TilesFrom(q: seq<Instruction>, a: int, b: int, j: nat)
    requires Tiles(q, a, b) && j < |q|
    ensures a <= q[j].address
  {
    if j > 0 {
      TilesFrom(q[1..], a + q[0].Size(), b, j - 1);
    }
  }

  lemma AllBound(sections: seq<Section>, x: Listed)
    requires Accepts(sections, x)
    ensures forall i :: 0 <= i < |Sorted(x.instructions, PlaceOf)| ==>
                Bound(sections, Sorted(x.instructions, PlaceOf)[i])
  {
    var q := Sorted(x.instructions, PlaceOf);
    SortedOrdered(x.instructions, PlaceOf);
    forall i | 0 <= i < |q| ensures Bound(sections, q[i]) {
      assert q[i] in multiset(x.instructions);
    }
  }

  /** An accepted in-image function has the largest extent at its address, and its disassembly is its ELF bytes. */
  lemma AcceptedIsImage(symbols: seq<Symbol>, sections: seq<Section>, x: Listed) returns (k: nat)
    requires Valid(symbols, sections, x) && Placed(symbols, sections, x.f.start)
    ensures k < |sections| && Contains(sections[k], x.f.start, x.f.size)
    ensures LargestAt(symbols, sections, x.f.start, x.f.size)
    ensures var q := Sorted(x.instructions, PlaceOf);
            && Tiles(q, x.f.start, x.f.End())
            && (forall i :: 0 <= i < |q| ==> q[i].encoding.Some?)
            && Concat(q) == sections[k].contents[x.f.start - sections[k].start..x.f.End() - sections[k].start]
  {
    hide Bound, Sorted, Concat, Tiles, Accepts;
    k := HomeOf(symbols, sections, x);
    AcceptedTiles(sections, x);
    AllBound(sections, x);
    TilesSpell(Sorted(x.instructions, PlaceOf), x.f.start, x.f.End(), sections, k);
  }

  lemma HomeOf(symbols: seq<Symbol>, sections: seq<Section>, x: Listed) returns (k: nat)
    requires LargestAt(symbols, sections, x.f.start, x.f.size)
    ensures k < |sections| && Contains(sections[k], x.f.start, x.f.size)
  {
    var s :| s in symbols && InImage(sections, s) && s.address == x.f.start && s.size == x.f.size;
    k :| 0 <= k < |sections| && Contains(sections[k], s.address, s.size);
  }

  lemma AcceptedTiles(sections: seq<Section>, x: Listed)
    requires Accepts(sections, x)
    ensures Tiles(Sorted(x.instructions, PlaceOf), x.f.start, x.f.End())
  {
  }

  /** Code claimed by an accepted function is the image's, named there by a function symbol of the same extent. */
  lemma AcceptedClaim(symbols: seq<Symbol>, sections: seq<Section>, x: Listed) returns (s: Symbol, k: nat)
    requires Valid(symbols, sections, x) && x.claimsCode
    ensures s in symbols && s.isFunction && !s.absolute && s.address == x.f.start && s.size == x.f.size
    ensures k < |sections| && sections[k].start <= x.f.start
    ensures x.f.start + x.f.size <= sections[k].start + |sections[k].contents|
    ensures var q := Sorted(x.instructions, PlaceOf);
            Encoded(q) && Concat(q) == sections[k].contents[x.f.start - sections[k].start..][..x.f.size]
  {
    hide Bound, Sorted, Concat, Tiles, Accepts;
    s :| s in symbols && InImage(sections, s) && s.address == x.f.start && s.size == x.f.size;
    k := AcceptedIsImage(symbols, sections, x);
  }
}
