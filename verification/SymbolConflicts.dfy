/** Overlap sweep over writable symbols, and charging each distinct symbol range once. */
module SymbolConflicts {
  import opened Ranges
  import Sets

  datatype Symbol = Symbol(index: int, section: string, address: int, size: nat, name: string) {
    function Extent(): Range {
      Range(address, address + size)
    }

    /** Same range in a section of the same name: an alias, charged once. */
    function RangeKey(): (string, int, nat) {
      (section, address, size)
    }
  }

  function ExtentOf(s: Symbol): Range {
    s.Extent()
  }

  predicate Touch(a: Range, b: Range) {
    a != b && a.start < b.stop && b.start < a.stop
  }

  /** The two symbols share a byte of one section without having equal ranges. */
  predicate Clash(a: Symbol, b: Symbol) {
    a.index == b.index && Touch(a.Extent(), b.Extent())
  }

  lemma TouchShares(a: Range, b: Range)
    requires a.start < a.stop && b.start < b.stop
    ensures Touch(a, b) <==> a != b && exists c :: Has(a, c) && Has(b, c)
  {
    if Touch(a, b) {
      var c := Max(a.start, b.start);
      assert Has(a, c) && Has(b, c);
    }
  }

  // ---- sorting by start, stop and name ----

  predicate NameLe(a: string, b: string) {
    a == "" || (b != "" && (a[0] < b[0] || (a[0] == b[0] && NameLe(a[1..], b[1..]))))
  }

  /** The order of names: a prefix comes first, otherwise the first different character decides. */
  lemma {:induction false} NameOrder(a: string, b: string)
    ensures NameLe(a, b) <==>
            || (|a| <= |b| && a == b[..|a|])
            || exists k :: 0 <= k < |a| && k < |b| && a[..k] == b[..k] && a[k] < b[k]
  {
    if a != "" && b != "" {
      var c, d := a[1..], b[1..];
      NameOrder(c, d);
      assert a == [a[0]] + c && b == [b[0]] + d;
      if a[0] < b[0] {
        assert a[..0] == b[..0];
      } else if a[0] == b[0] {
        if |c| <= |d| && c == d[..|c|] {
          assert b[..|a|] == [b[0]] + d[..|c|];
        }
        if k :| 0 <= k < |c| && k < |d| && c[..k] == d[..k] && c[k] < d[k] {
          assert a[..k + 1] == [a[0]] + c[..k] && b[..k + 1] == [b[0]] + d[..k];
          assert a[k + 1] < b[k + 1];
        }
        SharedFirst(a, b);
      } else {
        forall k | 0 < k < |a| && k < |b| ensures a[..k] != b[..k] {
          assert a[..k][0] != b[..k][0];
        }
        assert |a| <= |b| ==> a[0] != b[..|a|][0];
      }
    }
  }

  lemma SharedFirst(a: string, b: string)
    requires a != "" && b != "" && a[0] == b[0]
    ensures |a| <= |b| && a == b[..|a|] ==> a[1..] == b[1..][..|a[1..]|]
    ensures forall k :: 0 < k < |a| && k < |b| && a[..k] == b[..k] ==> a[1..][..k - 1] == b[1..][..k - 1]
  {
    if |a| <= |b| && a == b[..|a|] {
      assert a[1..] == b[..|a|][1..];
    }
    forall k | 0 < k < |a| && k < |b| && a[..k] == b[..k] ensures a[1..][..k - 1] == b[1..][..k - 1] {
      assert a[1..][..k - 1] == a[..k][1..] && b[1..][..k - 1] == b[..k][1..];
    }
  }

  lemma {:induction false} NameTotal(a: string, b: string)
    ensures NameLe(a, b) || NameLe(b, a)
  {
    if a != "" && b != "" {
      NameTotal(a[1..], b[1..]);
    }
  }

  lemma {:induction false} NameTransitive(a: string, b: string, c: string)
    requires NameLe(a, b) && NameLe(b, c)
    ensures NameLe(a, c)
  {
    if a != "" && a[0] == b[0] && b[0] == c[0] {
      NameTransitive(a[1..], b[1..], c[1..]);
    }
  }

  predicate Precedes(a: Symbol, b: Symbol) {
    Before(a.Extent(), b.Extent()) && (a.Extent() == b.Extent() ==> NameLe(a.name, b.name))
  }

  lemma PrecedesTotal(a: Symbol, b: Symbol)
    ensures Precedes(a, b) || Precedes(b, a)
  {
    NameTotal(a.name, b.name);
  }

  lemma PrecedesTransitive(a: Symbol, b: Symbol, c: Symbol)
    requires Precedes(a, b) && Precedes(b, c)
    ensures Precedes(a, c)
  {
    if a.Extent() == c.Extent() {
      NameTransitive(a.name, b.name, c.name);
    }
  }

  function Place(x: Symbol, q: seq<Symbol>): seq<Symbol> {
    if q == [] || Precedes(x, q[0]) then [x] + q else [q[0]] + Place(x, q[1..])
  }

  /** Stable insertion sort. */
  function Arranged(q: seq<Symbol>): seq<Symbol> {
    if q == [] then [] else Place(q[0], Arranged(q[1..]))
  }

  ghost predicate Lined(q: seq<Symbol>) {
    forall i, j :: 0 <= i < j < |q| ==> Precedes(q[i], q[j])
  }

  lemma {:induction false} PlaceKeeps(x: Symbol, q: seq<Symbol>)
    ensures multiset(Place(x, q)) == multiset(q) + multiset{x}
  {
    if q != [] {
      assert q == [q[0]] + q[1..];
      PlaceKeeps(x, q[1..]);
    }
  }

  lemma {:induction false} PlaceOrdered(x: Symbol, q: seq<Symbol>)
    requires Lined(q)
    ensures Lined(Place(x, q))
  {
    hide Precedes;
    if q == [] {
    } else if Precedes(x, q[0]) {
      forall j | 0 <= j < |q| ensures Precedes(x, q[j]) {
        if j > 0 {
          PrecedesTransitive(x, q[0], q[j]);
        }
      }
    } else {
      PrecedesTotal(x, q[0]);
      var rest := Place(x, q[1..]);
      PlaceOrdered(x, q[1..]);
      PlaceKeeps(x, q[1..]);
      forall y | y in rest ensures Precedes(q[0], y) {
        assert y in multiset(q[1..]) + multiset{x} by { assert y in multiset(rest); }
        assert y == x || y in q[1..];
      }
    }
  }

  /** Sorted by start, then stop, then name, with the same symbols. */
  lemma {:induction false} ArrangedOrdered(q: seq<Symbol>)
    ensures Lined(Arranged(q)) && Ordered(Arranged(q), ExtentOf) && multiset(Arranged(q)) == multiset(q)
    ensures forall i, j :: 0 <= i < j < |Arranged(q)| ==>
              var a, b := Arranged(q)[i], Arranged(q)[j];
              a.address < b.address || (a.address == b.address &&
                                        (a.size < b.size || (a.size == b.size && NameLe(a.name, b.name))))
  {
    if q != [] {
      ArrangedOrdered(q[1..]);
      PlaceOrdered(q[0], Arranged(q[1..]));
      PlaceKeeps(q[0], Arranged(q[1..]));
      assert q == [q[0]] + q[1..];
    }
    RangesInOrder(Arranged(q));
  }

  lemma RangesInOrder(q: seq<Symbol>)
    requires Lined(q)
    ensures Ordered(q, ExtentOf)
  {
    forall i, j | 0 <= i < j < |q| ensures Before(ExtentOf(q[i]), ExtentOf(q[j])) {
      assert Precedes(q[i], q[j]);
    }
  }

  // ---- the sweep ----

  /** Symbols that still reach past an address. */
  function Alive(q: seq<Symbol>, a: int): seq<Symbol> {
    if q == [] then []
    else Alive(q[..|q| - 1], a) + (if q[|q| - 1].address + q[|q| - 1].size > a then [q[|q| - 1]] else [])
  }

  /** Pairs of earlier symbols with a later one whose range differs. */
  function Differing(q: seq<Symbol>, s: Symbol): seq<(Symbol, Symbol)> {
    if q == [] then []
    else Differing(q[..|q| - 1], s) +
         (if (q[|q| - 1].address, q[|q| - 1].size) != (s.address, s.size) then [(q[|q| - 1], s)] else [])
  }

  /** All conflicts of a sorted group, without an active list: every earlier symbol against every later one. */
  function GroupConflicts(q: seq<Symbol>): seq<(Symbol, Symbol)> {
    if q == [] then []
    else
      var last := q[|q| - 1];
      GroupConflicts(q[..|q| - 1]) + Differing(Alive(q[..|q| - 1], last.address), last)
  }

  lemma {:induction false} InAlive(q: seq<Symbol>, a: int, x: Symbol)
    ensures x in Alive(q, a) <==> x in q && x.address + x.size > a
  {
    if q != [] {
      InAlive(q[..|q| - 1], a, x);
      assert q == q[..|q| - 1] + [q[|q| - 1]];
    }
  }

  lemma {:induction false} InDiffering(q: seq<Symbol>, s: Symbol, p: (Symbol, Symbol))
    ensures p in Differing(q, s) <==> p.0 in q && p.1 == s && p.0.Extent() != s.Extent()
  {
    if q != [] {
      InDiffering(q[..|q| - 1], s, p);
      assert q == q[..|q| - 1] + [q[|q| - 1]];
    }
  }

  lemma {:induction false} InGroupConflicts(q: seq<Symbol>, p: (Symbol, Symbol))
    ensures p in GroupConflicts(q) <==> PairAt(q, p)
  {
    if q != [] {
      var rest, last := q[..|q| - 1], q[|q| - 1];
      InGroupConflicts(rest, p);
      InDiffering(Alive(rest, last.address), last, p);
      InAlive(rest, last.address, p.0);
      hide GroupConflicts, Differing, Alive;
      assert p in GroupConflicts(q) <==>
                 p in GroupConflicts(rest) || (p.1 == last && p.0 in rest && ReachesInto(p.0, last)) by {
        GroupConflictsSplit(q, p);
      }
      LastPairs(q, p);
    }
  }

  lemma GroupConflictsSplit(q: seq<Symbol>, p: (Symbol, Symbol))
    requires q != []
    ensures p in GroupConflicts(q) <==>
            p in GroupConflicts(q[..|q| - 1]) || p in Differing(Alive(q[..|q| - 1], q[|q| - 1].address), q[|q| - 1])
  {
  }

  predicate ReachesInto(a: Symbol, b: Symbol) {
    a.address + a.size > b.address && a.Extent() != b.Extent()
  }

  predicate PairAt(q: seq<Symbol>, p: (Symbol, Symbol)) {
    exists i, j :: 0 <= i < j < |q| && p == (q[i], q[j]) && ReachesInto(q[i], q[j])
  }

  /** A pair of places is among the first symbols, or its second place is the last. */
  lemma LastPairs(q: seq<Symbol>, p: (Symbol, Symbol))
    requires q != []
    ensures PairAt(q, p) <==>
            PairAt(q[..|q| - 1], p) ||
            (p.1 == q[|q| - 1] && p.0 in q[..|q| - 1] && ReachesInto(p.0, q[|q| - 1]))
  {
    var rest := q[..|q| - 1];
    assert forall k :: 0 <= k < |rest| ==> rest[k] == q[k];
    if PairAt(rest, p) {
      var i, j :| 0 <= i < j < |rest| && p == (rest[i], rest[j]) && ReachesInto(rest[i], rest[j]);
      assert p == (q[i], q[j]);
    }
    if p.1 == q[|q| - 1] && p.0 in rest && ReachesInto(p.0, q[|q| - 1]) {
      var i :| 0 <= i < |rest| && rest[i] == p.0;
      assert p == (q[i], q[|q| - 1]);
    }
  }

  lemma {:induction false} AliveAppend(q: seq<Symbol>, s: seq<Symbol>, a: int)
    ensures Alive(q + s, a) == Alive(q, a) + Alive(s, a)
  {
    if s == [] {
      assert q + s == q;
    } else {
      AliveAppend(q, s[..|s| - 1], a);
      assert (q + s)[..|q + s| - 1] == q + s[..|s| - 1];
    }
  }

  lemma {:induction false} AliveTwice(q: seq<Symbol>, a: int, b: int)
    requires a <= b
    ensures Alive(Alive(q, a), b) == Alive(q, b)
  {
    if q != [] {
      var last := q[|q| - 1];
      AliveTwice(q[..|q| - 1], a, b);
      AliveAppend(Alive(q[..|q| - 1], a), if last.address + last.size > a then [last] else [], b);
      AliveOne(last, b);
    }
  }

  lemma AliveOne(s: Symbol, b: int)
    ensures Alive([s], b) == if s.address + s.size > b then [s] else []
  {
    assert [s][..0] == [];
  }

  /** Later than `a`, the active list says the same as all the symbols so far. */
  ghost predicate Tracks(active: seq<Symbol>, q: seq<Symbol>, a: int) {
    forall b :: a <= b ==> Alive(active, b) == Alive(q, b)
  }

  lemma TracksStep(active: seq<Symbol>, q: seq<Symbol>, a: int, s: Symbol)
    requires Tracks(active, q, a) && a <= s.address
    ensures Tracks(Alive(active, s.address) + [s], q + [s], s.address)
    ensures Alive(active, s.address) == Alive(q, s.address)
  {
    forall b | s.address <= b
      ensures Alive(Alive(active, s.address) + [s], b) == Alive(q + [s], b)
    {
      AliveAppend(Alive(active, s.address), [s], b);
      AliveAppend(q, [s], b);
      AliveTwice(active, s.address, b);
      assert Alive(active, b) == Alive(q, b);
    }
  }

  /** One pass with an active list over a sorted group finds every pair the double loop would. */
  method Sweep(q: seq<Symbol>) returns (conflicts: seq<(Symbol, Symbol)>)
    requires Ordered(q, ExtentOf)
    ensures conflicts == GroupConflicts(q)
  {
    hide Ordered;
    conflicts := [];
    var active, i := [], 0;
    ghost var low := if q == [] then 0 else q[0].address;
    while i < |q|
      invariant 0 <= i <= |q|
      invariant conflicts == GroupConflicts(q[..i])
      invariant Tracks(active, q[..i], low)
      invariant i < |q| ==> low <= q[i].address
    {
      var s := q[i];
      assert q[..i + 1] == q[..i] + [s] && q[..i + 1][..i] == q[..i];
      TracksStep(active, q[..i], low, s);
      active := Filter(active, s.address);
      var found := Compare(active, s);
      conflicts := conflicts + found;
      active := active + [s];
      low := s.address;
      if i + 1 < |q| {
        InOrder(q, i, i + 1);
      }
      i := i + 1;
    }
    assert q[..|q|] == q;
  }

  lemma InOrder(q: seq<Symbol>, i: nat, j: nat)
    requires i < j < |q| && Ordered(q, ExtentOf)
    ensures q[i].address <= q[j].address
  {
    assert Before(ExtentOf(q[i]), ExtentOf(q[j]));
  }

  method Filter(active: seq<Symbol>, a: int) returns (kept: seq<Symbol>)
    ensures kept == Alive(active, a)
  {
    kept := [];
    for i := 0 to |active|
      invariant kept == Alive(active[..i], a)
    {
      assert active[..i + 1][..i] == active[..i];
      if active[i].address + active[i].size > a {
        kept := kept + [active[i]];
      }
    }
    assert active[..|active|] == active;
  }

  method Compare(active: seq<Symbol>, s: Symbol) returns (found: seq<(Symbol, Symbol)>)
    ensures found == Differing(active, s)
  {
    found := [];
    for i := 0 to |active|
      invariant found == Differing(active[..i], s)
    {
      assert active[..i + 1][..i] == active[..i];
      if (active[i].address, active[i].size) != (s.address, s.size) {
        found := found + [(active[i], s)];
      }
    }
    assert active[..|active|] == active;
  }

  // ---- grouping by section ----

  function Group(q: seq<Symbol>, index: int): seq<Symbol> {
    if q == [] then [] else Group(q[..|q| - 1], index) + (if q[|q| - 1].index == index then [q[|q| - 1]] else [])
  }

  lemma {:induction false} InGroup(q: seq<Symbol>, index: int, x: Symbol)
    ensures x in Group(q, index) <==> x in q && x.index == index
  {
    if q != [] {
      InGroup(q[..|q| - 1], index, x);
      assert q == q[..|q| - 1] + [q[|q| - 1]];
    }
  }

  /** The section indices in order of first appearance. */
  function Indices(q: seq<Symbol>): seq<int> {
    if q == [] then []
    else
      var rest := Indices(q[..|q| - 1]);
      if q[|q| - 1].index in rest then rest else rest + [q[|q| - 1].index]
  }

  lemma {:induction false} InIndices(q: seq<Symbol>, x: Symbol)
    requires x in q
    ensures x.index in Indices(q)
  {
    if x != q[|q| - 1] {
      assert q == q[..|q| - 1] + [q[|q| - 1]];
      InIndices(q[..|q| - 1], x);
    }
  }

  /** The conflicts of one section: its symbols, sorted, each pair looked at. */
  function SectionConflicts(q: seq<Symbol>, index: int): seq<(Symbol, Symbol)> {
    GroupConflicts(Arranged(Group(q, index)))
  }

  /** A section's report holds exactly its clashing pairs, the one that starts first on the left. */
  lemma SectionConflictsExact(q: seq<Symbol>, index: int, p: (Symbol, Symbol))
    requires forall s :: s in q ==> s.size > 0
    ensures p in SectionConflicts(q, index) <==>
            p.0 in q && p.1 in q && p.0.index == index && Clash(p.0, p.1) && Before(p.0.Extent(), p.1.Extent())
  {
    var g := Group(q, index);
    var t := Arranged(g);
    ArrangedOrdered(g);
    InGroupConflicts(t, p);
    SameMembers(g, t, p.0);
    SameMembers(g, t, p.1);
    InGroup(q, index, p.0);
    InGroup(q, index, p.1);
    InOrderBack(t, p.0, p.1);
    if i, j :| 0 <= i < j < |t| && p == (t[i], t[j]) {
      InOrderPair(t, i, j);
    }
  }

  lemma InOrderPair(t: seq<Symbol>, i: nat, j: nat)
    requires Ordered(t, ExtentOf) && i < j < |t|
    ensures Before(t[i].Extent(), t[j].Extent())
  {
    assert Before(ExtentOf(t[i]), ExtentOf(t[j]));
  }

  /** In a sorted group, the lesser of two members with different ranges stands first. */
  lemma InOrderBack(t: seq<Symbol>, a: Symbol, b: Symbol)
    requires Ordered(t, ExtentOf)
    ensures a in t && b in t && a.Extent() != b.Extent() && Before(a.Extent(), b.Extent()) ==>
            exists i, j :: 0 <= i < j < |t| && t[i] == a && t[j] == b
  {
    if a in t && b in t && a.Extent() != b.Extent() && Before(a.Extent(), b.Extent()) {
      var i :| 0 <= i < |t| && t[i] == a;
      var j :| 0 <= j < |t| && t[j] == b;
      NotAfter(t, i, j);
      assert i < j;
    }
  }

  lemma NotAfter(t: seq<Symbol>, i: nat, j: nat)
    requires Ordered(t, ExtentOf) && i < |t| && j < |t|
    ensures j <= i ==> Before(t[j].Extent(), t[i].Extent())
  {
    if j < i {
      assert Before(ExtentOf(t[j]), ExtentOf(t[i]));
    }
  }

  lemma SameMembers(p: seq<Symbol>, q: seq<Symbol>, x: Symbol)
    requires multiset(p) == multiset(q)
    ensures x in p <==> x in q
  {
    assert x in p <==> x in multiset(p);
    assert x in q <==> x in multiset(q);
  }

  function AllConflicts(q: seq<Symbol>, order: seq<int>): seq<(Symbol, Symbol)> {
    if order == [] then []
    else AllConflicts(q, order[..|order| - 1]) + SectionConflicts(q, order[|order| - 1])
  }

  lemma {:induction false} InAllConflicts(q: seq<Symbol>, order: seq<int>, p: (Symbol, Symbol))
    ensures p in AllConflicts(q, order) <==> exists n :: n in order && p in SectionConflicts(q, n)
  {
    if order != [] {
      InAllConflicts(q, order[..|order| - 1], p);
      assert order == order[..|order| - 1] + [order[|order| - 1]];
    }
  }

  /** The dictionary holds each section's symbols in input order, and lists sections as they first appear. */
  ghost predicate Grouped(q: seq<Symbol>, groups: map<int, seq<Symbol>>, order: seq<int>) {
    && order == Indices(q)
    && (forall n :: n in groups <==> n in order)
    && (forall n :: n in groups ==> groups[n] == Group(q, n))
    && (forall n :: n !in groups ==> Group(q, n) == [])
  }

  lemma GroupedStep(q: seq<Symbol>, groups: map<int, seq<Symbol>>, order: seq<int>, s: Symbol)
    requires Grouped(q, groups, order)
    ensures s.index in groups ==> Grouped(q + [s], groups[s.index := groups[s.index] + [s]], order)
    ensures s.index !in groups ==> Grouped(q + [s], groups[s.index := [s]], order + [s.index])
  {
    GroupAppend(q, s);
    hide Group, Indices;
    assert s.index !in groups ==> Group(q, s.index) == [];
  }

  lemma GroupAppend(q: seq<Symbol>, s: Symbol)
    ensures forall n :: Group(q + [s], n) == if s.index == n then Group(q, n) + [s] else Group(q, n)
    ensures Indices(q + [s]) == if s.index in Indices(q) then Indices(q) else Indices(q) + [s.index]
  {
    assert (q + [s])[..|q|] == q;
  }

  lemma GroupedNone()
    ensures Grouped([], map[], [])
  {
  }

  lemma GroupOf(q: seq<Symbol>, groups: map<int, seq<Symbol>>, order: seq<int>, k: nat)
    requires k < |order| && Grouped(q, groups, order)
    ensures order == Indices(q) && order[k] in groups && groups[order[k]] == Group(q, order[k])
  {
    var n := order[k];
    assert n in order && (n in groups <==> n in order);
  }

  method GroupByIndex(symbols: seq<Symbol>) returns (groups: map<int, seq<Symbol>>, order: seq<int>)
    ensures Grouped(symbols, groups, order)
  {
    hide Grouped, Group, Indices;
    groups, order := map[], [];
    GroupedNone();
    for i := 0 to |symbols|
      invariant Grouped(symbols[..i], groups, order)
    {
      var s := symbols[i];
      assert symbols[..i + 1] == symbols[..i] + [s];
      GroupedStep(symbols[..i], groups, order, s);
      if s.index in groups {
        groups := groups[s.index := groups[s.index] + [s]];
      } else {
        groups, order := groups[s.index := [s]], order + [s.index];
      }
    }
    assert symbols[..|symbols|] == symbols;
  }

  /** Groups by section index, sorts and sweeps each group. */
  method ConflictingOverlaps(symbols: seq<Symbol>) returns (conflicts: seq<(Symbol, Symbol)>)
    ensures conflicts == AllConflicts(symbols, Indices(symbols))
  {
    hide Group, Indices, GroupConflicts, Arranged, Ordered, Lined, Grouped;
    var groups, order := GroupByIndex(symbols);
    conflicts := [];
    for k := 0 to |order|
      invariant conflicts == AllConflicts(symbols, order[..k])
    {
      assert order[..k + 1][..k] == order[..k];
      GroupOf(symbols, groups, order, k);
      var group := Arranged(groups[order[k]]);
      ArrangedOrdered(groups[order[k]]);
      var found := Sweep(group);
      conflicts := conflicts + found;
    }
    assert order[..|order|] == order;
    assert order == Indices(symbols) by { IndicesOf(symbols, groups, order); }
  }

  lemma IndicesOf(q: seq<Symbol>, groups: map<int, seq<Symbol>>, order: seq<int>)
    requires Grouped(q, groups, order)
    ensures order == Indices(q)
  {
  }

  lemma ClashMeans(a: Symbol, b: Symbol)
    ensures Clash(a, b) <==>
            && a.index == b.index && !(a.address == b.address && a.size == b.size)
            && a.address < b.address + b.size && b.address < a.address + a.size
    ensures Before(a.Extent(), b.Extent()) <==>
            a.address < b.address || (a.address == b.address && a.size <= b.size)
  {
  }

  /** What the report means: every pair in it clashes, and every clash is in it, once ordered. */
  lemma ReportExact(symbols: seq<Symbol>, p: (Symbol, Symbol))
    requires forall s :: s in symbols ==> s.size > 0
    ensures p in AllConflicts(symbols, Indices(symbols)) <==>
            p.0 in symbols && p.1 in symbols && Clash(p.0, p.1) && Before(p.0.Extent(), p.1.Extent())
    ensures p in AllConflicts(symbols, Indices(symbols)) <==>
            var (a, b) := p;
            && a in symbols && b in symbols && a.index == b.index && !(a.address == b.address && a.size == b.size)
            && a.address < b.address + b.size && b.address < a.address + a.size
            && (a.address < b.address || (a.address == b.address && a.size <= b.size))
  {
    ClashMeans(p.0, p.1);
    hide SectionConflicts, Clash, Before, AllConflicts, Indices;
    InAllConflicts(symbols, Indices(symbols), p);
    forall n ensures p in SectionConflicts(symbols, n) <==>
                     p.0 in symbols && p.1 in symbols && p.0.index == n && Clash(p.0, p.1)
                         && Before(p.0.Extent(), p.1.Extent())
    {
      SectionConflictsExact(symbols, n, p);
    }
    if p.0 in symbols {
      InIndices(symbols, p.0);
    }
  }

  lemma HasMember<T>(q: seq<T>)
    ensures q == [] || exists x :: x in q
  {
    if q != [] {
      assert q[0] in q;
    }
  }

  ghost predicate Clean(symbols: seq<Symbol>) {
    forall a, b :: a in symbols && b in symbols ==> !Clash(a, b)
  }

  /** Nothing is reported exactly when no two symbols of a section overlap without being equal ranges. */
  lemma EmptyReportIsClean(symbols: seq<Symbol>)
    requires forall s :: s in symbols ==> s.size > 0
    ensures AllConflicts(symbols, Indices(symbols)) == [] <==> Clean(symbols)
  {
    hide AllConflicts, Indices;
    var report := AllConflicts(symbols, Indices(symbols));
    if Clean(symbols) {
      assert forall p :: p !in report by {
        forall p ensures p !in report { ReportExact(symbols, p); }
      }
      HasMember(report);
    } else {
      var a, b :| a in symbols && b in symbols && Clash(a, b);
      ReportExact(symbols, (a, b));
      ReportExact(symbols, (b, a));
    }
  }

  // ---- charging ----

  predicate SameRange(a: Symbol, b: Symbol) {
    a.RangeKey() == b.RangeKey()
  }

  /** Two symbols under one section name overlap without being equal ranges. */
  predicate NameClash(a: Symbol, b: Symbol) {
    a.section == b.section && Touch(a.Extent(), b.Extent())
  }

  function RangesIn(q: seq<Symbol>, section: string): seq<Range> {
    if q == [] then []
    else RangesIn(q[..|q| - 1], section) + (if q[|q| - 1].section == section then [q[|q| - 1].Extent()] else [])
  }

  function Names(q: seq<Symbol>): (names: seq<string>)
    ensures forall x :: x in q ==> x.section in names
    ensures forall i, j :: 0 <= i < j < |names| ==> names[i] != names[j]
  {
    if q == [] then []
    else
      var rest := Names(q[..|q| - 1]);
      if q[|q| - 1].section in rest then rest else rest + [q[|q| - 1].section]
  }

  /** Bytes covered by the symbols, section by section. */
  function Joined(q: seq<Symbol>, names: seq<string>): nat {
    if names == [] then 0
    else Joined(q, names[..|names| - 1]) + |Union(RangesIn(q, names[|names| - 1]))|
  }

  function Charge(q: seq<Symbol>, s: Symbol): nat {
    if exists x :: x in q && SameRange(x, s) then 0 else s.size
  }

  function Charged(q: seq<Symbol>): nat {
    if q == [] then 0 else Charged(q[..|q| - 1]) + Charge(q[..|q| - 1], q[|q| - 1])
  }

  ghost predicate Apart(q: seq<Symbol>) {
    forall a, b :: a in q && b in q ==> !NameClash(a, b)
  }

  lemma {:induction false} InRangesIn(q: seq<Symbol>, section: string, r: Range)
    ensures r in RangesIn(q, section) <==> exists x :: x in q && x.section == section && x.Extent() == r
  {
    if q != [] {
      InRangesIn(q[..|q| - 1], section, r);
      assert q == q[..|q| - 1] + [q[|q| - 1]];
    }
  }

  /** Bytes the symbol adds to what earlier ones of its section cover. */
  function Gain(q: seq<Symbol>, s: Symbol): nat {
    |Span(s.Extent()) - Union(RangesIn(q, s.section))|
  }

  lemma SectionAppend(q: seq<Symbol>, s: Symbol, section: string)
    ensures |Union(RangesIn(q + [s], section))| == |Union(RangesIn(q, section))| + if s.section == section
            then Gain(q, s) else 0
  {
    hide Union, Span;
    assert (q + [s])[..|q|] == q;
    if s.section == section {
      var u := Union(RangesIn(q, section));
      UnionAppend(RangesIn(q, section), s.Extent());
      assert u + Span(s.Extent()) == u + (Span(s.Extent()) - u);
    } else {
      assert RangesIn(q, section) + [] == RangesIn(q, section);
    }
  }

  lemma {:induction false} JoinedAppend(q: seq<Symbol>, s: Symbol, names: seq<string>)
    requires forall i, j :: 0 <= i < j < |names| ==> names[i] != names[j]
    ensures Joined(q + [s], names) == Joined(q, names) + if s.section in names then Gain(q, s) else 0
  {
    hide Union, RangesIn, Gain;
    if names != [] {
      var rest, last := names[..|names| - 1], names[|names| - 1];
      JoinedAppend(q, s, rest);
      assert names == rest + [last];
      SectionAppend(q, s, last);
    }
  }

  lemma NoRangesElsewhere(q: seq<Symbol>, section: string)
    requires section !in Names(q)
    ensures RangesIn(q, section) == []
  {
    hide RangesIn, Names;
    if RangesIn(q, section) != [] {
      InRangesIn(q, section, RangesIn(q, section)[0]);
    }
  }

  lemma JoinedStep(q: seq<Symbol>, s: Symbol)
    ensures Joined(q + [s], Names(q + [s])) == Joined(q, Names(q)) + Gain(q, s)
  {
    var names := Names(q);
    assert (q + [s])[..|q|] == q;
    JoinedAppend(q, s, Names(q + [s]));
    if s.section !in names {
      NoRangesElsewhere(q, s.section);
      assert (names + [s.section])[..|names|] == names;
    }
  }

  /** Charging one more symbol adds exactly its new bytes unless it cuts into an earlier, different range. */
  lemma ChargeAgainstGain(q: seq<Symbol>, s: Symbol)
    requires s.size > 0 && forall x :: x in q ==> x.size > 0
    ensures Charge(q, s) >= Gain(q, s)
    ensures Charge(q, s) == Gain(q, s) <==> (exists x :: x in q && SameRange(x, s)) || forall x :: x in q ==>
                !NameClash(x, s)
  {
    hide Gain;
    GainAtMost(q, s);
    if x :| x in q && SameRange(x, s) {
      AliasGain(q, s, x);
    } else if x :| x in q && NameClash(x, s) {
      CutGain(q, s, x);
    } else {
      WholeGain(q, s);
    }
  }

  lemma GainAtMost(q: seq<Symbol>, s: Symbol)
    ensures Gain(q, s) <= s.size
  {
    hide Union;
    Fewer(Span(s.Extent()) - Union(RangesIn(q, s.section)), Span(s.Extent()));
  }

  lemma AliasGain(q: seq<Symbol>, s: Symbol, x: Symbol)
    requires x in q && SameRange(x, s)
    ensures Gain(q, s) == 0
  {
    hide Union, RangesIn;
    var u, span := Union(RangesIn(q, s.section)), Span(s.Extent());
    forall a | a in span ensures a in u {
      InRangesIn(q, s.section, s.Extent());
      InUnion(RangesIn(q, s.section), a);
    }
    assert span - u == {};
  }

  lemma CutGain(q: seq<Symbol>, s: Symbol, x: Symbol)
    requires x in q && NameClash(x, s) && x.size > 0 && s.size > 0
    ensures Gain(q, s) < s.size
  {
    hide Union, RangesIn;
    var u, span := Union(RangesIn(q, s.section)), Span(s.Extent());
    TouchShares(x.Extent(), s.Extent());
    var a :| Has(x.Extent(), a) && Has(s.Extent(), a);
    InRangesIn(q, s.section, x.Extent());
    InUnion(RangesIn(q, s.section), a);
    Fewer(span - u, span - {a});
  }

  lemma WholeGain(q: seq<Symbol>, s: Symbol)
    requires s.size > 0 && forall x :: x in q ==> x.size > 0 && !SameRange(x, s) && !NameClash(x, s)
    ensures Gain(q, s) == s.size
  {
    hide Union, RangesIn;
    var u, span := Union(RangesIn(q, s.section)), Span(s.Extent());
    forall a | a in span ensures a !in u {
      InUnion(RangesIn(q, s.section), a);
      forall r | r in RangesIn(q, s.section) ensures !Has(r, a) {
        ApartRange(q, s, r, a);
      }
    }
    assert span - u == span;
  }

  lemma ApartRange(q: seq<Symbol>, s: Symbol, r: Range, a: int)
    requires s.size > 0 && forall x :: x in q ==> x.size > 0 && !SameRange(x, s) && !NameClash(x, s)
    requires r in RangesIn(q, s.section) && Has(s.Extent(), a)
    ensures !Has(r, a)
  {
    InRangesIn(q, s.section, r);
    var x :| x in q && x.section == s.section && x.Extent() == r;
    TouchShares(x.Extent(), s.Extent());
  }

  /** The charges add up to the bytes covered exactly when no two symbols under a name overlap unequally. */
  lemma {:induction false} ChargedIsJoined(q: seq<Symbol>)
    requires forall x :: x in q ==> x.size > 0
    ensures Charged(q) >= Joined(q, Names(q))
    ensures Charged(q) == Joined(q, Names(q)) <==> Apart(q)
  {
    if q != [] {
      var rest, s := q[..|q| - 1], q[|q| - 1];
      assert q == rest + [s];
      assert s in q && forall x :: x in rest ==> x in q;
      ChargedIsJoined(rest);
      JoinedStep(rest, s);
      ChargeAgainstGain(rest, s);
      ApartStep(rest, s);
    }
  }

  lemma ApartStep(q: seq<Symbol>, s: Symbol)
    ensures Apart(q + [s]) <==> Apart(q) && ((exists x :: x in q && SameRange(x, s)) || forall x :: x in q ==>
                !NameClash(x, s))
  {
    var all := q + [s];
    assert s in all && forall x :: x in q ==> x in all;
    if Apart(q) {
      if x :| x in q && SameRange(x, s) {
        assert forall y :: NameClash(y, s) <==> NameClash(y, x);
        assert forall y :: NameClash(s, y) <==> NameClash(x, y);
      }
      assert forall x, y :: NameClash(x, y) <==> NameClash(y, x);
    }
  }

  /** The ranges of each section name in input order, and the keys of the ranges charged. */
  ghost predicate Collected(q: seq<Symbol>, ranges: map<string, seq<Range>>, order: seq<string>) {
    && order == Names(q)
    && (forall n :: n in ranges <==> n in order)
    && (forall n :: n in ranges ==> ranges[n] == RangesIn(q, n))
  }

  ghost predicate KeysOf(q: seq<Symbol>, keys: set<(string, int, nat)>) {
    forall key :: key in keys <==> exists x :: x in q && x.RangeKey() == key
  }

  lemma CollectedStep(q: seq<Symbol>, ranges: map<string, seq<Range>>, order: seq<string>, s: Symbol)
    requires Collected(q, ranges, order)
    ensures s.section in ranges ==> Collected(q + [s], ranges[s.section := ranges[s.section] + [s.Extent()]], order)
    ensures s.section !in ranges ==> Collected(q + [s], ranges[s.section := [s.Extent()]], order + [s.section])
  {
    assert (q + [s])[..|q|] == q;
    assert forall n :: RangesIn(q + [s], n) == RangesIn(q, n) + if s.section == n then [s.Extent()] else [];
    if s.section !in ranges {
      NoRangesElsewhere(q, s.section);
    }
  }

  /** Charges every joined symbol whose range was not charged before. */
  method ChargeRanges(joined: seq<Symbol>) returns (charges: seq<nat>, total: nat)
    ensures |charges| == |joined| && forall i :: 0 <= i < |joined| ==> charges[i] == Charge(joined[..i], joined[i])
    ensures total == Charged(joined)
  {
    hide Charge, KeysOf;
    var charged: set<(string, int, nat)> := {};
    charges, total := [], 0;
    NoKeys();
    for i := 0 to |joined|
      invariant |charges| == i && total == Charged(joined[..i])
      invariant forall k :: 0 <= k < i ==> charges[k] == Charge(joined[..k], joined[k])
      invariant KeysOf(joined[..i], charged)
    {
      var s := joined[i];
      assert joined[..i + 1][..i] == joined[..i] && joined[..i + 1] == joined[..i] + [s];
      ChargeByKey(joined[..i], s, charged);
      var charge := if s.RangeKey() in charged then 0 else s.size;
      charges, total := charges + [charge], total + charge;
      charged := charged + {s.RangeKey()};
    }
    assert joined[..|joined|] == joined;
  }

  lemma NoKeys()
    ensures KeysOf([], {})
  {
  }

  /** Measures the joined ranges section name by section name. */
  method MeasureSections(joined: seq<Symbol>) returns (union: nat)
    ensures union == Joined(joined, Names(joined))
  {
    var ranges: map<string, seq<Range>>, order: seq<string> := map[], [];
    hide Collected, Names, RangesIn, Union, Joined;
    CollectedNone();
    for i := 0 to |joined|
      invariant Collected(joined[..i], ranges, order)
    {
      var s := joined[i];
      assert joined[..i + 1] == joined[..i] + [s];
      CollectedStep(joined[..i], ranges, order, s);
      if s.section in ranges {
        ranges := ranges[s.section := ranges[s.section] + [s.Extent()]];
      } else {
        ranges, order := ranges[s.section := [s.Extent()]], order + [s.section];
      }
    }
    assert joined[..|joined|] == joined;
    CollectedIs(joined, ranges, order);
    union := MeasureEach(joined, ranges, order);
  }

  lemma CollectedNone()
    ensures Collected([], map[], [])
  {
  }

  lemma CollectedIs(q: seq<Symbol>, ranges: map<string, seq<Range>>, order: seq<string>)
    requires Collected(q, ranges, order)
    ensures order == Names(q) && forall k :: 0 <= k < |order| ==>
                order[k] in ranges && ranges[order[k]] == RangesIn(q, order[k])
  {
    forall k | 0 <= k < |order| ensures order[k] in ranges && ranges[order[k]] == RangesIn(q, order[k]) {
      var n := order[k];
      assert n in order && (n in ranges <==> n in order);
    }
  }

  method MeasureEach(joined: seq<Symbol>, ranges: map<string, seq<Range>>, order: seq<string>) returns (union: nat)
    requires forall k :: 0 <= k < |order| ==> order[k] in ranges && ranges[order[k]] == RangesIn(joined, order[k])
    ensures union == Joined(joined, order)
  {
    hide RangesIn, Union;
    union := 0;
    for k := 0 to |order|
      invariant union == Joined(joined, order[..k])
    {
      assert order[..k + 1][..k] == order[..k];
      ProperRanges(joined, order[k]);
      var bytes := MergedBytes(ranges[order[k]]);
      union := union + bytes;
    }
    assert order[..|order|] == order;
  }

  /** The two figures of an inventory: charges,
      and bytes covered. They agree exactly when no ranges overlap unequally. */
  method JoinInventory(joined: seq<Symbol>) returns (charges: seq<nat>, total: nat, union: nat)
    requires forall x :: x in joined ==> x.size > 0
    ensures |charges| == |joined| && forall i :: 0 <= i < |joined| ==> charges[i] == Charge(joined[..i], joined[i])
    ensures forall i :: 0 <= i < |joined| ==>
              charges[i] == if exists k :: 0 <= k < i && SameAs(joined[k], joined[i]) then 0 else joined[i].size
    ensures total == Charged(joined) && union == Joined(joined, Names(joined)) == |Bytes(joined)|
    ensures total >= union && (total == union <==> Apart(joined))
  {
    hide Apart, Charge, Charged, Joined;
    charges, total := ChargeRanges(joined);
    union := MeasureSections(joined);
    ChargedIsJoined(joined);
    JoinedCounts(joined);
    forall i | 0 <= i < |joined|
      ensures charges[i] == if exists k :: 0 <= k < i && SameAs(joined[k], joined[i]) then 0 else joined[i].size
    {
      ChargeMeans(joined, i);
    }
  }

  ghost predicate SameAs(x: Symbol, y: Symbol) {
    x.section == y.section && x.address == y.address && x.size == y.size
  }

  lemma ChargeMeans(q: seq<Symbol>, i: nat)
    requires i < |q|
    ensures Charge(q[..i], q[i]) == if exists k :: 0 <= k < i && SameAs(q[k], q[i]) then 0 else q[i].size
  {
    if x :| x in q[..i] && SameRange(x, q[i]) {
      var k :| 0 <= k < i && q[..i][k] == x;
      assert SameAs(q[k], q[i]);
    }
    if k :| 0 <= k < i && SameAs(q[k], q[i]) {
      assert q[..i][k] == q[k];
      assert q[k] in q[..i] && SameRange(q[k], q[i]);
    }
  }

  /** The bytes the symbols cover, told apart by section name. */
  ghost function Bytes(q: seq<Symbol>): set<(string, int)> {
    set x, a | x in q && a in Interval(x.address, x.address + x.size) :: (x.section, a)
  }

  lemma {:induction false} Tagged(s: set<int>, section: string)
    ensures |set a | a in s :: (section, a)| == |s|
  {
    var tags := set a | a in s :: (section, a);
    if s == {} {
      assert tags == {};
    } else {
      Sets.Inhabited(s);
      var x :| x in s;
      Tagged(s - {x}, section);
      assert tags == (set a | a in s - {x} :: (section, a)) + {(section, x)};
    }
  }

  /** Measuring section by section counts each covered byte once. */
  lemma {:induction false} JoinedCounts(q: seq<Symbol>)
    ensures Joined(q, Names(q)) == |Bytes(q)|
  {
    hide Joined, Names, Bytes, Gain;
    if q == [] {
      NothingJoined();
    } else {
      JoinedCounts(q[..|q| - 1]);
      assert q == q[..|q| - 1] + [q[|q| - 1]];
      JoinedStep(q[..|q| - 1], q[|q| - 1]);
      BytesStep(q[..|q| - 1], q[|q| - 1]);
    }
  }

  lemma NothingJoined()
    ensures Names([]) == [] && Joined([], []) == 0 && Bytes([]) == {}
  {
  }

  lemma BytesStep(q: seq<Symbol>, s: Symbol)
    ensures |Bytes(q + [s])| == |Bytes(q)| + Gain(q, s)
  {
    Tagged(Span(s.Extent()) - Union(RangesIn(q, s.section)), s.section);
    BytesAppend(q, s);
    hide Bytes, Union, RangesIn, Span;
  }

  lemma BytesAppend(q: seq<Symbol>, s: Symbol)
    ensures var added := set a | a in Span(s.Extent()) - Union(RangesIn(q, s.section)) :: (s.section, a);
            |Bytes(q + [s])| == |Bytes(q)| + |added|
  {
    var uncovered := Span(s.Extent()) - Union(RangesIn(q, s.section));
    var added := set a | a in uncovered :: (s.section, a);
    forall a ensures (s.section, a) in Bytes(q) <==> a in Union(RangesIn(q, s.section)) {
      ByteCovered(q, s.section, a);
    }
    forall t ensures t in Bytes(q + [s]) <==> t in Bytes(q) || t in added {
      assert t in Bytes(q + [s]) <==>
             t in Bytes(q) || (t.0 == s.section && t.1 in Interval(s.address, s.address + s.size));
    }
    assert Bytes(q + [s]) == Bytes(q) + added && Bytes(q) !! added;
  }

  lemma ByteCovered(q: seq<Symbol>, section: string, a: int)
    ensures (section, a) in Bytes(q) <==> a in Union(RangesIn(q, section))
  {
    if (section, a) in Bytes(q) {
      var x :| x in q && a in Interval(x.address, x.address + x.size) && x.section == section;
      ByteOfSymbol(q, x, a);
    }
    InUnion(RangesIn(q, section), a);
    hide Union, RangesIn;
    if a in Union(RangesIn(q, section)) {
      var r :| r in RangesIn(q, section) && Has(r, a);
      InRangesIn(q, section, r);
      var x :| x in q && x.section == section && x.Extent() == r;
      assert a in Interval(x.address, x.address + x.size);
    }
  }

  lemma ByteOfSymbol(q: seq<Symbol>, x: Symbol, a: int)
    requires x in q && a in Interval(x.address, x.address + x.size)
    ensures a in Union(RangesIn(q, x.section))
  {
    hide Union, RangesIn;
    InUnion(RangesIn(q, x.section), a);
    InRangesIn(q, x.section, x.Extent());
    assert Has(x.Extent(), a);
  }

  lemma ProperRanges(q: seq<Symbol>, section: string)
    ensures forall i :: 0 <= i < |RangesIn(q, section)| ==> Proper(RangesIn(q, section)[i])
  {
    forall i | 0 <= i < |RangesIn(q, section)| ensures Proper(RangesIn(q, section)[i]) {
      InRangesIn(q, section, RangesIn(q, section)[i]);
    }
  }

  lemma ChargeByKey(q: seq<Symbol>, s: Symbol, keys: set<(string, int, nat)>)
    requires KeysOf(q, keys)
    ensures Charge(q, s) == if s.RangeKey() in keys then 0 else s.size
    ensures KeysOf(q + [s], keys + {s.RangeKey()})
  {
    if s.RangeKey() in keys {
      var x :| x in q && x.RangeKey() == s.RangeKey();
      assert SameRange(x, s);
    } else {
      assert forall x :: x in q ==> x.RangeKey() in keys;
    }
    assert s in q + [s] && forall x :: x in q ==> x in q + [s];
  }

  /** With one section per name, a clean report makes the charges of any joined symbols add up. */
  lemma CleanReportCharges(symbols: seq<Symbol>, joined: seq<Symbol>)
    requires forall s :: s in symbols ==> s.size > 0
    requires forall s :: s in joined ==> s in symbols
    requires forall a, b :: a in symbols && b in symbols && a.section == b.section ==> a.index == b.index
    requires AllConflicts(symbols, Indices(symbols)) == []
    ensures Charged(joined) == Joined(joined, Names(joined))
  {
    hide AllConflicts, Charged, Joined;
    EmptyReportIsClean(symbols);
    ChargedIsJoined(joined);
    assert Apart(joined) by {
      forall a, b | a in joined && b in joined ensures !NameClash(a, b) {
        assert !Clash(a, b);
      }
    }
  }

  /** The sweep groups by section index but charging by section name: two sections of one name can slip through. */
  lemma TwoSectionsOneName() returns (symbols: seq<Symbol>)
    ensures forall s :: s in symbols ==> s.size > 0
    ensures AllConflicts(symbols, Indices(symbols)) == []
    ensures Charged(symbols) > Joined(symbols, Names(symbols))
  {
    hide AllConflicts, Indices, Charged, Joined, Names;
    var a, b := Symbol(1, ".data", 0, 8, "a"), Symbol(2, ".data", 4, 8, "b");
    symbols := [a, b];
    assert a in symbols && b in symbols && a.section == b.section;
    assert NameClash(a, b);
    assert !Apart(symbols);
    PairIsClean(a, b);
    EmptyReportIsClean(symbols);
    ChargedIsJoined(symbols);
  }

  lemma PairIsClean(a: Symbol, b: Symbol)
    requires a.index != b.index
    ensures Clean([a, b])
  {
    forall x, y | x in [a, b] && y in [a, b] ensures !Clash(x, y) {
      assert (x == a || x == b) && (y == a || y == b);
    }
  }
}
