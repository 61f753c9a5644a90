/** What it means to accept a listing, in addresses, bytes and numbers alone. */
module ImageMeaning {
  import opened Basics
  import opened Disassembly
  import opened ElfBinding
  import opened Ranges

  /** The function symbols of the image at an address. */
  ghost function SymbolsAt(symbols: seq<Symbol>, sections: seq<Section>, a: int): set<Symbol> {
    set s | s in symbols && s.isFunction && !s.absolute && s.address == a &&
            exists k :: 0 <= k < |sections| && sections[k].start <= a <= a + s.size <= sections[k].End()
  }

  /**
   A function with a symbol in the image must have the largest size there and be covered by checked instructions;
   one without must not claim code.
   */
  lemma ValidMeans(symbols: seq<Symbol>, sections: seq<Section>, x: Listed)
    ensures var here := SymbolsAt(symbols, sections, x.f.start);
            Valid(symbols, sections, x) <==>
            if here == {} then !x.claimsCode
            else (exists s :: s in here && s.size == x.f.size) && (forall s :: s in here ==> s.size <= x.f.size)
                 && Accepts(sections, x)
  {
    hide Accepts;
    var here := SymbolsAt(symbols, sections, x.f.start);
    forall s ensures s in here <==> s in symbols && InImage(sections, s) && s.address == x.f.start {
      InImageMeans(sections, s);
    }
    hide InImage;
    hide SymbolsAt;
    assert Placed(symbols, sections, x.f.start) <==> here != {} by {
      if here != {} {
        var s :| s in here;
      }
    }
  }

  lemma InImageMeans(sections: seq<Section>, s: Symbol)
    ensures InImage(sections, s) <==>
            s.isFunction && !s.absolute &&
            exists k :: 0 <= k < |sections| && sections[k].start <= s.address <= s.address + s.size <= sections[k].End()
    ensures forall k :: 0 <= k < |sections| ==> sections[k].End() == sections[k].start + |sections[k].contents|
  {
    forall k | 0 <= k < |sections|
      ensures Contains(sections[k], s.address, s.size) <==>
              sections[k].start <= s.address <= s.address + s.size <= sections[k].End()
    {
    }
  }

  /** Laid end to end: the first starts the extent, each ends where the next starts, the last ends the extent. */
  lemma {:induction false} TilesMeans(q: seq<Instruction>, a: int, b: int)
    ensures Tiles(q, a, b) <==>
            if q == [] then a == b
            else && q[0].address == a && q[|q| - 1].address + q[|q| - 1].Size() == b
                 && forall i :: 0 <= i < |q| - 1 ==> q[i + 1].address == q[i].address + q[i].Size()
  {
    if |q| > 1 {
      var rest := q[1..];
      TilesMeans(rest, a + q[0].Size(), b);
      assert rest[|rest| - 1] == q[|q| - 1];
      assert q == [q[0]] + rest;
      forall i | 0 <= i < |q| - 1 ensures q[i + 1] == rest[i] {
      }
      if forall i :: 0 <= i < |q| - 1 ==> q[i + 1].address == q[i].address + q[i].Size() {
        forall i | 0 <= i < |rest| - 1 ensures rest[i + 1].address == rest[i].address + rest[i].Size() {
          var j := i + 1;
          assert q[j + 1].address == q[j].address + q[j].Size();
        }
        assert q[0 + 1].address == q[0].address + q[0].Size();
      }
      if Tiles(q, a, b) {
        forall i | 0 <= i < |q| - 1 ensures q[i + 1].address == q[i].address + q[i].Size() {
          if i > 0 {
            var j := i - 1;
            assert rest[j + 1].address == rest[j].address + rest[j].Size();
          }
        }
      }
    }
  }

  /** An encoding is printed in hex digits, two to a byte; a line without one counts four bytes. */
  lemma SizeMeans(i: Instruction)
    ensures i.Size() == if i.encoding.Some? then i.encoding.value.digits / 2 else 4
    ensures i.encoding.Some? ==> BytesOf(i) == LittleEndian(i.encoding.value.value, i.encoding.value.digits / 2)
  {
  }

  /** The byte at place `j` is digit `j` of the value in base 256, the lowest first. */
  lemma {:induction false} ByteMeans(value: nat, size: nat, j: nat)
    requires j < size
    ensures Power256(0) == 1 && Power256(j + 1) == 256 * Power256(j)
    ensures LittleEndian(value, size)[j] == value / Power256(j) % 256
    decreases size
  {
    if j > 0 {
      ByteMeans(value / 256, size - 1, j - 1);
      DivideTwice(value, Power256(j - 1));
    }
  }

  lemma DivideTwice(v: nat, p: nat)
    requires p > 0
    ensures v / 256 / p == v / (256 * p)
  {
    var q, r := v / 256, v % 256;
    var m, n := q / p, q % p;
    assert v == 256 * (p * m + n) + r;
    assert v == (256 * p) * m + (256 * n + r);
    assert 256 * n + r < 256 * p;
    DividedBy(v, 256 * p, m, 256 * n + r);
  }

  lemma DividedBy(v: nat, d: nat, m: nat, r: nat)
    requires v == d * m + r && r < d
    ensures v / d == m
  {
    var x := v / d;
    assert v == d * x + v % d;
    assert d * (x - m) == r - v % d;
    assert x - m < 1 by {
      if x - m >= 1 {
        Larger(d, x - m);
      }
    }
    assert x - m > -1 by {
      if x - m <= -1 {
        Larger(d, m - x);
      }
    }
  }

  lemma Larger(d: nat, n: nat)
    requires n >= 1
    ensures d * n >= d
  {
  }

  /** An instruction is accepted when just one section holds it and has its printed bytes there. */
  lemma BoundMeans(sections: seq<Section>, i: Instruction)
    ensures Bound(sections, i) <==>
            && i.encoding.Some?
            && exists k :: 0 <= k < |sections| && Within(sections[k], i) && Printed(sections[k], i)
                           && forall m :: 0 <= m < |sections| && Within(sections[m], i) ==> m == k
  {
    hide Power256, LittleEndian, Printed;
    if i.encoding.Some? {
      forall k | 0 <= k < |sections| ensures Within(sections[k], i) <==> Contains(sections[k], i.address, i.Size()) {
      }
      forall k | 0 <= k < |sections| && Within(sections[k], i)
        ensures Printed(sections[k], i) <==> Reads(sections[k], i)
      {
        PrintedMeans(sections[k], i);
      }
    }
  }

  /** The section holds every byte of the printed encoding. */
  predicate Within(s: Section, i: Instruction)
    requires i.encoding.Some?
  {
    s.start <= i.address && i.address + i.encoding.value.digits / 2 <= s.start + |s.contents|
  }

  /** The section's bytes there are the digits of the printed value in base 256, and nothing is left of it. */
  ghost predicate Printed(s: Section, i: Instruction)
    requires i.encoding.Some? && Within(s, i)
  {
    var size, value := i.encoding.value.digits / 2, i.encoding.value.value;
    && value / Power256(size) == 0
    && forall j :: 0 <= j < size ==> s.contents[i.address - s.start + j] == value / Power256(j) % 256
  }

  lemma PrintedMeans(s: Section, i: Instruction)
    requires i.encoding.Some? && Within(s, i)
    ensures Printed(s, i) <==> Reads(s, i)
  {
    hide Power256, LittleEndian;
    var size, value, at := i.encoding.value.digits / 2, i.encoding.value.value, i.address - s.start;
    var bytes := LittleEndian(value, size);
    forall j | 0 <= j < size ensures bytes[j] == value / Power256(j) % 256 {
      ByteMeans(value, size, j);
    }
    NothingLeft(value, Power256(size));
    SameBytes(s.contents, at, bytes);
  }

  lemma NothingLeft(v: nat, p: nat)
    requires p > 0
    ensures v / p == 0 <==> v < p
  {
  }

  lemma SameBytes(c: Bytes, at: nat, q: Bytes)
    requires at + |q| <= |c|
    ensures c[at..at + |q|] == q <==> forall j :: 0 <= j < |q| ==> c[at + j] == q[j]
  {
    var part := c[at..at + |q|];
    forall j | 0 <= j < |q| ensures part[j] == c[at + j] {
    }
  }
}
