/** Giving decoded instructions to the functions whose extents hold them, by one sweep with a heap of endings. */
module Disassembly {
  import opened Basics
  import opened Ranges
  import Sets

  /** A printed encoding: how many hex digits, and their value. */
  datatype Code = Code(digits: nat, value: nat)

  datatype Instruction = Instruction(address: int, encoding: Option<Code>, text: string) {
    function Size(): nat {
      if encoding.Some? then encoding.value.digits / 2 else 4
    }
  }

  datatype Function = Function(start: int, size: nat, name: string) {
    function End(): int {
      start + size
    }
  }

  function ExtentOf(f: Function): Range {
    Range(f.start, f.End())
  }

  /** Instructions are sorted by address alone; equal addresses keep their order. */
  function PlaceOf(i: Instruction): Range {
    Range(i.address, 0)
  }

  predicate Holds(f: Function, i: Instruction) {
    f.start <= i.address < f.End()
  }

  /** A naive scan: every instruction in turn, kept when the extent holds it. */
  function Scan(f: Function, q: seq<Instruction>): seq<Instruction> {
    if q == [] then [] else Scan(f, q[..|q| - 1]) + (if Holds(f, q[|q| - 1]) then [q[|q| - 1]] else [])
  }

  lemma {:induction false} ScanCons(f: Function, x: Instruction, q: seq<Instruction>)
    ensures Scan(f, [x] + q) == (if Holds(f, x) then [x] else []) + Scan(f, q)
  {
    if q == [] {
      assert [x] + q == [x] && [x][..0] == [];
    } else {
      var all, n := [x] + q, |q|;
      ScanCons(f, x, q[..n - 1]);
      assert all[..|all| - 1] == [x] + q[..n - 1] && all[|all| - 1] == q[n - 1];
    }
  }

  lemma {:induction false} ScanMembers(f: Function, q: seq<Instruction>)
    ensures forall x :: x in Scan(f, q) <==> x in q && Holds(f, x)
  {
    if q != [] {
      ScanMembers(f, q[..|q| - 1]);
      assert q == q[..|q| - 1] + [q[|q| - 1]];
    }
  }

  /** Scanning commutes with one stable insertion. */
  lemma {:induction false} ScanInsert(f: Function, x: Instruction, q: seq<Instruction>)
    requires Ordered(q, PlaceOf)
    ensures Scan(f, Insert(x, q, PlaceOf)) == if Holds(f, x) then Insert(x, Scan(f, q), PlaceOf) else Scan(f, q)
  {
    if q == [] || Before(PlaceOf(x), PlaceOf(q[0])) {
      ScanInsertFront(f, x, q);
    } else {
      FirstLeast(q, PlaceOf);
      ScanInsert(f, x, q[1..]);
      assert q == [q[0]] + q[1..];
      ScanInsertPast(f, x, q[0], q[1..]);
    }
  }

  lemma ScanInsertPast(f: Function, x: Instruction, y: Instruction, q: seq<Instruction>)
    requires !Before(PlaceOf(x), PlaceOf(y))
    requires Scan(f, Insert(x, q, PlaceOf)) == if Holds(f, x) then Insert(x, Scan(f, q), PlaceOf) else Scan(f, q)
    ensures Scan(f, Insert(x, [y] + q, PlaceOf)) == if Holds(f, x) then Insert(x, Scan(f, [y] + q), PlaceOf)
            else Scan(f, [y] + q)
  {
    hide Scan, Insert;
    ScanCons(f, y, Insert(x, q, PlaceOf));
    ScanCons(f, y, q);
    InsertPast(x, y, Scan(f, q));
    InsertPast(x, y, q);
    assert [] + Scan(f, q) == Scan(f, q);
    assert [] + Insert(x, Scan(f, q), PlaceOf) == Insert(x, Scan(f, q), PlaceOf);
  }

  lemma ScanInsertFront(f: Function, x: Instruction, q: seq<Instruction>)
    requires Ordered(q, PlaceOf) && (q != [] ==> Before(PlaceOf(x), PlaceOf(q[0])))
    ensures Scan(f, Insert(x, q, PlaceOf)) == if Holds(f, x) then Insert(x, Scan(f, q), PlaceOf) else Scan(f, q)
  {
    ScanCons(f, x, q);
    if q != [] {
      FirstLeast(q, PlaceOf);
    }
    ScanMembers(f, q);
    hide Scan, Ordered;
    InsertAtFront(x, q);
    if Scan(f, q) != [] {
      assert Scan(f, q)[0] in Scan(f, q);
    }
    InsertAtFront(x, Scan(f, q));
  }

  lemma InsertPast(x: Instruction, y: Instruction, q: seq<Instruction>)
    requires !Before(PlaceOf(x), PlaceOf(y))
    ensures Insert(x, [y] + q, PlaceOf) == [y] + Insert(x, q, PlaceOf)
  {
    assert ([y] + q)[1..] == q;
  }

  lemma InsertAtFront(x: Instruction, q: seq<Instruction>)
    requires q != [] ==> Before(PlaceOf(x), PlaceOf(q[0]))
    ensures Insert(x, q, PlaceOf) == [x] + q
  {
  }

  /** Scanning the sorted listing is sorting the scanned one. */
  lemma {:induction false} ScanSorted(f: Function, q: seq<Instruction>)
    ensures Scan(f, Sorted(q, PlaceOf)) == Sorted(Scan(f, q), PlaceOf)
  {
    if q != [] {
      ScanSorted(f, q[1..]);
      ScanSortedStep(f, q[0], q[1..]);
      assert q == [q[0]] + q[1..];
    }
  }

  lemma ScanSortedStep(f: Function, x: Instruction, q: seq<Instruction>)
    requires Scan(f, Sorted(q, PlaceOf)) == Sorted(Scan(f, q), PlaceOf)
    ensures Scan(f, Sorted([x] + q, PlaceOf)) == Sorted(Scan(f, [x] + q), PlaceOf)
  {
    hide Scan, Ordered, Insert, Sorted;
    SortedOrdered(q, PlaceOf);
    ScanInsert(f, x, Sorted(q, PlaceOf));
    ScanCons(f, x, q);
    SortedCons(x, Scan(f, q));
    SortedCons(x, q);
    assert [] + Scan(f, q) == Scan(f, q);
  }

  lemma SortedCons(x: Instruction, q: seq<Instruction>)
    ensures Sorted([x] + q, PlaceOf) == Insert(x, Sorted(q, PlaceOf), PlaceOf)
  {
    assert ([x] + q)[1..] == q;
  }

  // ---- the heap of endings ----

  predicate AtMost(a: (int, int), b: (int, int)) {
    a.0 < b.0 || (a.0 == b.0 && a.1 <= b.1)
  }

  lemma LeastEnding(s: set<(int, int)>)
    requires s != {}
    ensures exists e :: e in s && forall x :: x in s ==> AtMost(e, x)
  {
    var m :| m in s;
    if s == {m} {
      assert forall x :: x in s ==> AtMost(m, x);
    } else {
      LeastEnding(s - {m});
      var n :| n in s - {m} && forall x :: x in s - {m} ==> AtMost(n, x);
      var k := if AtMost(m, n) then m else n;
      assert forall x :: x in s ==> x == m || x in s - {m};
      assert k in s && forall x :: x in s ==> AtMost(k, x);
    }
  }

  /** The top of the heap. */
  function Top(s: set<(int, int)>): (e: (int, int))
    requires s != {}
    ensures e in s && forall x :: x in s ==> AtMost(e, x)
  {
    LeastEnding(s);
    var e :| e in s && forall x :: x in s ==> AtMost(e, x);
    e
  }

  type Active = map<int, Function>

  function EndingsOf(active: Active): set<(int, int)> {
    set s | s in active :: (active[s].End(), s)
  }

  lemma InEndings(active: Active, e: (int, int))
    ensures e in EndingsOf(active) <==> e.1 in active && e.0 == active[e.1].End()
  {
    if e.1 in active && e.0 == active[e.1].End() {
      var s := e.1;
      assert (active[s].End(), s) in EndingsOf(active);
      assert e == (active[s].End(), s);
    }
  }

  ghost predicate IsOpen(active: Active, f: Function) {
    f.start in active && active[f.start] == f
  }

  ghost predicate ByStart(active: Active) {
    forall s :: s in active ==> active[s].start == s
  }

  ghost predicate OneEach(functions: seq<Function>) {
    forall f, g :: f in functions && g in functions && f.start == g.start ==> f == g
  }

  /** Every function that has started by an address is among the first `p`. */
  ghost predicate Started(functions: seq<Function>, p: nat, a: int)
    requires p <= |functions|
  {
    forall f :: f in functions && f.start <= a ==> f in functions[..p]
  }

  /** The open functions come from the first `p`, and none of those reaching past an address is missing. */
  ghost predicate Tracks(functions: seq<Function>, p: nat, active: Active, a: int)
    requires p <= |functions|
  {
    && ByStart(active)
    && (forall f :: IsOpen(active, f) ==> f in functions[..p])
    && forall f :: f in functions[..p] && f.End() > a ==> IsOpen(active, f)
  }

  lemma TracksPush(functions: seq<Function>, p: nat, active: Active, a: int)
    requires p < |functions| && Tracks(functions, p, active, a) && OneEach(functions)
    ensures Tracks(functions, p + 1, active[functions[p].start := functions[p]], a)
  {
    var f := functions[p];
    assert functions[..p + 1] == functions[..p] + [f];
    assert f in functions;
    forall g | IsOpen(active, g) && g.start == f.start ensures g == f {
      assert g in functions[..p] && g in functions;
    }
    assert forall g :: g in functions[..p] ==> g in functions;
  }

  lemma EndingsPush(functions: seq<Function>, p: nat, active: Active, a: int)
    requires p < |functions| && Tracks(functions, p, active, a) && OneEach(functions)
    ensures EndingsOf(active[functions[p].start := functions[p]]) == EndingsOf(active)
            + {(functions[p].End(), functions[p].start)}
  {
    var f := functions[p];
    var next := active[f.start := f];
    assert f in functions;
    if f.start in active {
      assert IsOpen(active, active[f.start]);
      assert active[f.start] in functions;
    }
    forall e ensures e in EndingsOf(next) <==> e in EndingsOf(active) || e == (f.End(), f.start) {
      InEndings(next, e);
      InEndings(active, e);
    }
  }

  lemma StartedHere(functions: seq<Function>, p: nat, a: int)
    requires p <= |functions| && Ordered(functions, ExtentOf) && (p < |functions| ==> functions[p].start > a)
    ensures Started(functions, p, a)
  {
    forall f | f in functions && f.start <= a ensures f in functions[..p] {
      var k :| 0 <= k < |functions| && functions[k] == f;
      OrderedStarts(functions, p, k);
      assert functions[..p][k] == f;
    }
  }

  lemma OrderedStarts(functions: seq<Function>, p: nat, k: nat)
    requires p <= |functions| && k < |functions| && Ordered(functions, ExtentOf)
    ensures p <= k ==> functions[p].start <= functions[k].start
  {
    assert p < k ==> Before(ExtentOf(functions[p]), ExtentOf(functions[k]));
  }

  /** Opens every function that has started. */
  method Push(functions: seq<Function>, p: nat, active: Active, endings: set<(int, int)>, a: int, ghost last: int)
    returns (p': nat, active': Active, endings': set<(int, int)>)
    requires p <= |functions| && Tracks(functions, p, active, last) && endings == EndingsOf(active)
    requires OneEach(functions) && Ordered(functions, ExtentOf) && (forall f :: f in functions[..p] ==> f.start <= a)
    ensures p' <= |functions| && Tracks(functions, p', active', last) && endings' == EndingsOf(active')
    ensures Started(functions, p', a) && forall f :: f in functions[..p'] ==> f.start <= a
  {
    hide Ordered, Started, OneEach, Tracks, EndingsOf;
    p', active', endings' := p, active, endings;
    while p' < |functions| && functions[p'].start <= a
      invariant p' <= |functions| && Tracks(functions, p', active', last) && endings' == EndingsOf(active')
      invariant forall f :: f in functions[..p'] ==> f.start <= a
    {
      var f := functions[p'];
      assert functions[..p' + 1] == functions[..p'] + [f];
      TracksPush(functions, p', active', last);
      EndingsPush(functions, p', active', last);
      active', endings', p' := active'[f.start := f], endings' + {(f.End(), f.start)}, p' + 1;
    }
    StartedHere(functions, p', a);
  }

  /** The open functions are exactly those whose extents hold the address. */
  ghost predicate Exact(functions: seq<Function>, active: Active, a: int) {
    ByStart(active) && forall f :: IsOpen(active, f) <==> f in functions && f.start <= a < f.End()
  }

  lemma PopOne(functions: seq<Function>, p: nat, active: Active, a: int, top: (int, int))
    requires p <= |functions| && Tracks(functions, p, active, a) && top in EndingsOf(active) && top.0 <= a
    ensures Tracks(functions, p, active - {top.1}, a)
    ensures EndingsOf(active - {top.1}) == EndingsOf(active) - {top}
  {
    var next := active - {top.1};
    assert top.1 in active && active[top.1].End() == top.0;
    forall e ensures e in EndingsOf(next) <==> e in EndingsOf(active) && e != top {
      InEndings(next, e);
      InEndings(active, e);
    }
    assert forall f :: IsOpen(next, f) <==> IsOpen(active, f) && f.start != top.1;
  }

  lemma AllPopped(functions: seq<Function>, p: nat, active: Active, a: int)
    requires p <= |functions| && Tracks(functions, p, active, a)
    requires forall e :: e in EndingsOf(active) ==> e.0 > a
    requires Started(functions, p, a) && forall f :: f in functions[..p] ==> f.start <= a
    ensures Exact(functions, active, a)
  {
    forall f ensures IsOpen(active, f) <==> f in functions && f.start <= a < f.End() {
      if IsOpen(active, f) {
        assert (f.End(), f.start) in EndingsOf(active);
        assert f in functions[..p];
      }
    }
  }

  /** Closes every function that has ended. */
  method Pop(functions: seq<Function>, p: nat, active: Active, endings: set<(int, int)>, a: int)
    returns (active': Active, endings': set<(int, int)>)
    requires p <= |functions| && Tracks(functions, p, active, a) && endings == EndingsOf(active)
    requires Started(functions, p, a) && forall f :: f in functions[..p] ==> f.start <= a
    ensures endings' == EndingsOf(active') && Tracks(functions, p, active', a) && Exact(functions, active', a)
  {
    hide Started, Tracks, EndingsOf, Exact;
    active', endings' := active, endings;
    while endings' != {} && Top(endings').0 <= a
      invariant endings' == EndingsOf(active') && Tracks(functions, p, active', a)
      decreases |endings'|
    {
      var top := Top(endings');
      PopOne(functions, p, active', a, top);
      active', endings' := active' - {top.1}, endings' - {top};
    }
    AllPopped(functions, p, active', a);
  }

  type Listing = map<int, seq<Instruction>>

  /** Every function's list holds what a naive scan of the instructions would. */
  ghost predicate Scanned(functions: seq<Function>, q: seq<Instruction>, lists: Listing) {
    forall f :: f in functions ==> f.start in lists && lists[f.start] == Scan(f, q)
  }

  function Given(active: Active, s: int, i: Instruction): seq<Instruction> {
    if s in active && i.address < active[s].End() then [i] else []
  }

  /** Appends one instruction to every open function's list. */
  method Give(active: Active, i: Instruction, lists: Listing) returns (lists': Listing)
    requires forall s :: s in active ==> s in lists
    ensures lists'.Keys == lists.Keys
    ensures forall s :: s in lists ==> lists'[s] == lists[s] + Given(active, s, i)
  {
    lists' := lists;
    var todo := active.Keys;
    while todo != {}
      invariant lists'.Keys == lists.Keys && todo <= active.Keys
      invariant forall s :: s in lists ==> lists'[s] == lists[s] + if s in todo then [] else Given(active, s, i)
      decreases |todo|
    {
      Sets.Inhabited(todo);
      var s :| s in todo;
      if i.address < active[s].End() {
        lists' := lists'[s := lists'[s] + [i]];
      }
      todo := todo - {s};
    }
  }

  lemma ScannedStep(functions: seq<Function>, q: seq<Instruction>, i: Instruction, active: Active, lists: Listing,
      next: Listing)
    requires Scanned(functions, q, lists) && Exact(functions, active, i.address) && OneEach(functions)
    requires next.Keys == lists.Keys && forall s :: s in lists ==> next[s] == lists[s] + Given(active, s, i)
    ensures Scanned(functions, q + [i], next)
  {
    forall f | f in functions ensures f.start in next && next[f.start] == Scan(f, q + [i]) {
      assert (q + [i])[..|q|] == q;
      assert IsOpen(active, f) <==> Holds(f, i);
      if f.start in active {
        assert IsOpen(active, active[f.start]);
      }
      assert Given(active, f.start, i) == if Holds(f, i) then [i] else [];
    }
  }

  /** Moving to a later address keeps every function that can still matter. */
  lemma TracksLater(functions: seq<Function>, p: nat, active: Active, a: int, b: int)
    requires p <= |functions| && Tracks(functions, p, active, a) && a <= b
    ensures Tracks(functions, p, active, b)
  {
  }

  lemma OpenListed(functions: seq<Function>, active: Active, a: int, lists: Listing, q: seq<Instruction>)
    requires Exact(functions, active, a) && Scanned(functions, q, lists)
    ensures forall s :: s in active ==> s in lists
  {
    forall s | s in active ensures s in lists {
      assert IsOpen(active, active[s]);
    }
  }

  /** The sweep over sorted instructions and sorted extents; `byAddress` has one function for each start. */
  method Sweep(byAddress: seq<Function>, decoded: seq<Instruction>) returns (lists: Listing)
    requires OneEach(byAddress)
    ensures forall f :: f in byAddress ==> f.start in lists && lists[f.start] == Sorted(Scan(f, decoded), PlaceOf)
    ensures forall f, x: Instruction :: f in byAddress ==>
                multiset(lists[f.start])[x] ==
                if f.start <= x.address < f.start + f.size then multiset(decoded)[x] else 0
    ensures forall f, i, j :: f in byAddress && 0 <= i < j < |lists[f.start]| ==>
                lists[f.start][i].address <= lists[f.start][j].address
    ensures forall f, a :: f in byAddress && f.start <= a < f.start + f.size ==>
                AtAddress(lists[f.start], a) == AtAddress(decoded, a)
  {
    var functions := Sorted(byAddress, ExtentOf);
    SortedOrdered(byAddress, ExtentOf);
    SameMembers(byAddress, functions);
    var instructions := Sorted(decoded, PlaceOf);
    SortedOrdered(decoded, PlaceOf);
    lists := SweepSorted(functions, instructions);
    ListsAreSorted(functions, decoded, lists);
    hide Scan, Sorted, AtAddress;
    forall f | f in byAddress
      ensures ScannedMeans(f, decoded, lists[f.start])
    {
      ScanMeans(f, decoded);
    }
  }

  /** The instructions at one address, in the order they stand in. */
  function AtAddress(q: seq<Instruction>, a: int): seq<Instruction> {
    if q == [] then [] else (if q[0].address == a then [q[0]] else []) + AtAddress(q[1..], a)
  }

  /** The list has each instruction of the extent as often as the listing, by address, equal addresses in place. */
  ghost predicate ScannedMeans(f: Function, q: seq<Instruction>, list: seq<Instruction>) {
    && (forall x: Instruction ::
          multiset(list)[x] == if f.start <= x.address < f.start + f.size then multiset(q)[x] else 0)
    && (forall i, j :: 0 <= i < j < |list| ==> list[i].address <= list[j].address)
    && forall a :: f.start <= a < f.start + f.size ==> AtAddress(list, a) == AtAddress(q, a)
  }

  lemma ScanMeans(f: Function, q: seq<Instruction>)
    ensures ScannedMeans(f, q, Sorted(Scan(f, q), PlaceOf))
  {
    hide Scan, Sorted, AtAddress;
    var list := Sorted(Scan(f, q), PlaceOf);
    SortedOrdered(Scan(f, q), PlaceOf);
    forall x: Instruction
      ensures multiset(list)[x] == if f.start <= x.address < f.start + f.size then multiset(q)[x] else 0
    {
      ScanCounts(f, q, x);
    }
    forall i, j | 0 <= i < j < |list| ensures list[i].address <= list[j].address {
      InPlace(list, i, j);
    }
    forall a | f.start <= a < f.start + f.size ensures AtAddress(list, a) == AtAddress(q, a) {
      SortedAt(Scan(f, q), a);
      ScanAt(f, q, a);
    }
  }

  lemma {:induction false} ScanCounts(f: Function, q: seq<Instruction>, x: Instruction)
    ensures multiset(Scan(f, q))[x] == if f.start <= x.address < f.start + f.size then multiset(q)[x] else 0
  {
    if q != [] {
      ScanCounts(f, q[..|q| - 1], x);
      assert q == q[..|q| - 1] + [q[|q| - 1]];
    }
  }

  lemma {:induction false} ScanAt(f: Function, q: seq<Instruction>, a: int)
    requires f.start <= a < f.start + f.size
    ensures AtAddress(Scan(f, q), a) == AtAddress(q, a)
  {
    if q != [] {
      ScanAt(f, q[1..], a);
      ScanCons(f, q[0], q[1..]);
      assert [q[0]] + q[1..] == q;
      AtCons(q[0], Scan(f, q[1..]), a);
      assert [] + Scan(f, q[1..]) == Scan(f, q[1..]);
      assert [] + AtAddress(q[1..], a) == AtAddress(q[1..], a);
    }
  }

  lemma AtCons(x: Instruction, q: seq<Instruction>, a: int)
    ensures AtAddress([x] + q, a) == (if x.address == a then [x] else []) + AtAddress(q, a)
  {
    assert ([x] + q)[1..] == q;
  }

  /** Sorting leaves instructions of one address in the order they were read. */
  lemma {:induction false} SortedAt(q: seq<Instruction>, a: int)
    ensures AtAddress(Sorted(q, PlaceOf), a) == AtAddress(q, a)
  {
    if q != [] {
      SortedAt(q[1..], a);
      InsertAt(q[0], Sorted(q[1..], PlaceOf), a);
    }
  }

  lemma {:induction false} InsertAt(x: Instruction, q: seq<Instruction>, a: int)
    ensures AtAddress(Insert(x, q, PlaceOf), a) == (if x.address == a then [x] else []) + AtAddress(q, a)
  {
    AtCons(x, q, a);
    if q != [] && !Before(PlaceOf(x), PlaceOf(q[0])) {
      InsertAt(x, q[1..], a);
      AtCons(q[0], Insert(x, q[1..], PlaceOf), a);
      assert x.address != a || q[0].address != a;
    }
  }

  method SweepSorted(functions: seq<Function>, instructions: seq<Instruction>) returns (lists: Listing)
    requires OneEach(functions) && Ordered(functions, ExtentOf) && Ordered(instructions, PlaceOf)
    ensures Scanned(functions, instructions, lists)
  {
    hide Ordered, Started, Tracks, EndingsOf, Exact, Scanned, OneEach;
    lists := map s | s in StartsOf(functions) :: [];
    var p: nat, active: Active, endings: set<(int, int)> := 0, map[], {};
    ghost var last := if instructions == [] then 0 else instructions[0].address;
    Nothing(functions, lists, last);
    assert instructions[..0] == [] && functions[..0] == [];
    for i := 0 to |instructions|
      invariant p <= |functions| && Tracks(functions, p, active, last) && endings == EndingsOf(active)
      invariant forall f :: f in functions[..p] ==> f.start <= last
      invariant i < |instructions| ==> last <= instructions[i].address
      invariant Scanned(functions, instructions[..i], lists)
    {
      p, active, endings, lists := SweepOne(functions, instructions[..i], instructions[i], p, active, endings, lists,
          last);
      assert instructions[..i + 1] == instructions[..i] + [instructions[i]];
      last := instructions[i].address;
      if i + 1 < |instructions| {
        InPlace(instructions, i, i + 1);
      }
    }
    assert instructions[..|instructions|] == instructions;
  }

  /** One instruction of the sweep: open what has started, close what has ended, give it to what is left. */
  method SweepOne(functions: seq<Function>, ghost done: seq<Instruction>, ins: Instruction,
                  p: nat, active: Active, endings: set<(int, int)>, lists: Listing, ghost last: int)
    returns (p': nat, active': Active, endings': set<(int, int)>, lists': Listing)
    requires p <= |functions| && Tracks(functions, p, active, last) && endings == EndingsOf(active)
    requires OneEach(functions) && Ordered(functions, ExtentOf) && last <= ins.address
    requires forall f :: f in functions[..p] ==> f.start <= last
    requires Scanned(functions, done, lists)
    ensures p' <= |functions| && Tracks(functions, p', active', ins.address) && endings' == EndingsOf(active')
    ensures forall f :: f in functions[..p'] ==> f.start <= ins.address
    ensures Scanned(functions, done + [ins], lists')
  {
    hide Ordered, Started, Tracks, EndingsOf, Exact, Scanned, OneEach;
    p', active', endings' := Push(functions, p, active, endings, ins.address, last);
    TracksLater(functions, p', active', last, ins.address);
    active', endings' := Pop(functions, p', active', endings', ins.address);
    OpenListed(functions, active', ins.address, lists, done);
    lists' := Give(active', ins, lists);
    ScannedStep(functions, done, ins, active', lists, lists');
  }

  function StartsOf(functions: seq<Function>): set<int> {
    set f | f in functions :: f.start
  }

  lemma Nothing(functions: seq<Function>, lists: Listing, a: int)
    requires forall s :: s in StartsOf(functions) ==> s in lists && lists[s] == []
    ensures Tracks(functions, 0, map[], a) && EndingsOf(map[]) == {} && Scanned(functions, [], lists)
  {
    forall f | f in functions ensures f.start in lists && lists[f.start] == [] {
      assert f.start in StartsOf(functions);
    }
  }

  lemma InPlace(q: seq<Instruction>, i: nat, j: nat)
    requires i < j < |q| && Ordered(q, PlaceOf)
    ensures q[i].address <= q[j].address
  {
    assert Before(PlaceOf(q[i]), PlaceOf(q[j]));
  }

  lemma SameMembers(p: seq<Function>, q: seq<Function>)
    requires multiset(p) == multiset(q) && OneEach(p)
    ensures OneEach(q) && forall f :: f in p <==> f in q
  {
    forall f ensures f in p <==> f in q {
      assert f in p <==> f in multiset(p);
      assert f in q <==> f in multiset(q);
    }
  }

  lemma ListsAreSorted(functions: seq<Function>, decoded: seq<Instruction>, lists: Listing)
    requires Scanned(functions, Sorted(decoded, PlaceOf), lists)
    ensures forall f :: f in functions ==> f.start in lists && lists[f.start] == Sorted(Scan(f, decoded), PlaceOf)
  {
    forall f | f in functions ensures f.start in lists && lists[f.start] == Sorted(Scan(f, decoded), PlaceOf) {
      ScanSorted(f, decoded);
    }
  }
}
