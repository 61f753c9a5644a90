/** Half-open address ranges, their union as a set of addresses, and sorting by start and stop. */
module Ranges {

  datatype Range = Range(start: int, stop: int)

  predicate Proper(r: Range) {
    r.start <= r.stop
  }

  predicate Before(a: Range, b: Range) {
    a.start < b.start || (a.start == b.start && a.stop <= b.stop)
  }

  predicate Has(r: Range, a: int) {
    r.start <= a < r.stop
  }

  function Span(r: Range): (s: set<int>)
    ensures forall a :: a in s <==> Has(r, a)
    ensures Proper(r) ==> |s| == r.stop - r.start
  {
    Interval(r.start, r.stop)
  }

  /** The addresses of all the ranges. */
  function Union(q: seq<Range>): set<int> {
    if q == [] then {} else Union(q[..|q| - 1]) + Span(q[|q| - 1])
  }

  lemma {:induction false} InUnion(q: seq<Range>, a: int)
    ensures a in Union(q) <==> exists r :: r in q && Has(r, a)
  {
    if q != [] {
      InUnion(q[..|q| - 1], a);
      assert q == q[..|q| - 1] + [q[|q| - 1]];
    }
  }

  function Interval(start: int, stop: int): (s: set<int>)
    ensures forall a :: a in s <==> start <= a < stop
    ensures |s| == if start <= stop then stop - start else 0
    decreases stop - start
  {
    if start >= stop then {} else Interval(start, stop - 1) + {stop - 1}
  }

  /** Stable insertion sort by the range a key gives. */
  function Insert<T>(x: T, q: seq<T>, key: T -> Range): seq<T> {
    if q == [] || Before(key(x), key(q[0])) then [x] + q else [q[0]] + Insert(x, q[1..], key)
  }

  function Sorted<T>(q: seq<T>, key: T -> Range): seq<T> {
    if q == [] then [] else Insert(q[0], Sorted(q[1..], key), key)
  }

  ghost predicate Ordered<T>(q: seq<T>, key: T -> Range) {
    forall i, j :: 0 <= i < j < |q| ==> Before(key(q[i]), key(q[j]))
  }

  lemma {:induction false} InsertKeeps<T>(x: T, q: seq<T>, key: T -> Range)
    ensures multiset(Insert(x, q, key)) == multiset(q) + multiset{x}
  {
    if q != [] {
      assert q == [q[0]] + q[1..];
      InsertKeeps(x, q[1..], key);
    }
  }

  lemma InsertMember<T>(x: T, q: seq<T>, key: T -> Range, y: T)
    requires y in Insert(x, q, key)
    ensures y == x || y in q
  {
    InsertKeeps(x, q, key);
    assert y in multiset(Insert(x, q, key));
    assert y in multiset(q) + multiset{x};
  }

  lemma OrderedCons<T>(x: T, q: seq<T>, key: T -> Range)
    requires Ordered(q, key) && forall y :: y in q ==> Before(key(x), key(y))
    ensures Ordered([x] + q, key)
  {
  }

  lemma {:induction false} InsertOrdered<T>(x: T, q: seq<T>, key: T -> Range)
    requires Ordered(q, key)
    ensures Ordered(Insert(x, q, key), key)
  {
    if q != [] {
      FirstLeast(q, key);
      if Before(key(x), key(q[0])) {
        OrderedCons(x, q, key);
      } else {
        InsertOrdered(x, q[1..], key);
        var rest := Insert(x, q[1..], key);
        forall y | y in rest ensures Before(key(q[0]), key(y)) {
          InsertMember(x, q[1..], key, y);
        }
        OrderedCons(q[0], rest, key);
      }
    }
  }

  lemma FirstLeast<T>(q: seq<T>, key: T -> Range)
    requires q != [] && Ordered(q, key)
    ensures forall y :: y in q ==> y == q[0] || Before(key(q[0]), key(y))
    ensures Ordered(q[1..], key) && forall y :: y in q[1..] ==> y in q && Before(key(q[0]), key(y))
  {
  }

  lemma {:induction false} SortedOrdered<T>(q: seq<T>, key: T -> Range)
    ensures Ordered(Sorted(q, key), key) && multiset(Sorted(q, key)) == multiset(q)
  {
    if q != [] {
      SortedOrdered(q[1..], key);
      InsertOrdered(q[0], Sorted(q[1..], key), key);
      InsertKeeps(q[0], Sorted(q[1..], key), key);
      assert q == [q[0]] + q[1..];
    }
  }

  lemma SameUnion(p: seq<Range>, q: seq<Range>)
    requires multiset(p) == multiset(q)
    ensures Union(p) == Union(q)
  {
    forall a ensures a in Union(p) <==> a in Union(q) {
      InUnion(p, a);
      InUnion(q, a);
      forall r ensures r in p <==> r in q {
        assert r in p <==> r in multiset(p);
        assert r in q <==> r in multiset(q);
      }
    }
  }

  lemma UnionAppend(q: seq<Range>, r: Range)
    ensures Union(q + [r]) == Union(q) + Span(r)
  {
    assert (q + [r])[..|q|] == q;
  }

  /** `end` is where the ranges seen so far stop, and one of them reaches from its start to there. */
  ghost predicate Reaches(q: seq<Range>, end: int) {
    && (forall k :: 0 <= k < |q| ==> q[k].stop <= end)
    && exists k :: 0 <= k < |q| && q[k].stop == end
  }

  /** What one more range in start order adds to the measure. */
  lemma MeasureStep(q: seq<Range>, end: int, r: Range)
    requires Proper(r) && Reaches(q, end)
    requires forall k :: 0 <= k < |q| ==> q[k].start <= r.start
    ensures |Union(q + [r])| == |Union(q)|
            + (if r.start > end then r.stop - r.start else if r.stop > end then r.stop - end else 0)
  {
    UnionAppend(q, r);
    var rest := Range(if r.start > end then r.start else end, r.stop);
    var k :| 0 <= k < |q| && q[k].stop == end;
    forall a ensures a in Union(q) + Span(r) <==> a in Union(q) + Span(rest) {
      InUnion(q, a);
      assert Has(q[k], a) ==> q[k] in q;
      assert Has(r, a) && !Has(rest, a) ==> Has(q[k], a);
    }
    forall a | a in Span(rest) ensures a !in Union(q) {
      InUnion(q, a);
    }
    assert Union(q + [r]) == Union(q) + Span(rest);
    assert |Union(q) + Span(rest)| == |Union(q)| + |Span(rest)| by {
      assert Union(q) !! Span(rest);
    }
    assert |Span(rest)| == if rest.start <= rest.stop then rest.stop - rest.start else 0;
  }

  /** What the sweep has measured: how many addresses, and where the ranges so far stop. */
  ghost predicate Measured(q: seq<Range>, total: int, end: int) {
    total == |Union(q)| && (q != [] ==> Reaches(q, end))
  }

  lemma MeasureFirst(r: Range)
    requires Proper(r)
    ensures Measured([r], r.stop - r.start, r.stop)
  {
    UnionOne(r);
    assert [r][0].stop == r.stop;
  }

  lemma MeasureNext(q: seq<Range>, total: int, end: int, r: Range)
    requires q != [] && Measured(q, total, end) && Proper(r)
    requires forall k :: 0 <= k < |q| ==> q[k].start <= r.start
    ensures r.start > end ==> Measured(q + [r], total + (r.stop - r.start), r.stop)
    ensures r.start <= end && r.stop > end ==> Measured(q + [r], total + (r.stop - end), r.stop)
    ensures r.start <= end && r.stop <= end ==> Measured(q + [r], total, end)
  {
    hide Union, Span;
    MeasureStep(q, end, r);
    ReachesStep(q, end, r);
  }

  /** The number of addresses covered, by one sweep over the sorted ranges. */
  method MergedBytes(ranges: seq<Range>) returns (total: nat)
    requires forall i :: 0 <= i < |ranges| ==> Proper(ranges[i])
    ensures total == |Union(ranges)|
  {
    hide Union, Span, Sorted, Reaches;
    var q := Sorted(ranges, r => r);
    SortedOrdered(ranges, r => r);
    SameUnion(q, ranges);
    ProperSorted(ranges, q);
    total := 0;
    var end, i := 0, 0;
    UnionNone(q[..0]);
    while i < |q|
      invariant 0 <= i <= |q|
      invariant Measured(q[..i], total, end)
    {
      var start, stop := q[i].start, q[i].stop;
      assert q[..i + 1] == q[..i] + [q[i]];
      if i == 0 {
        MeasureFirst(q[0]);
        assert q[..1] == [q[0]];
        total, end := stop - start, stop;
      } else {
        StartsBefore(q, i);
        MeasureNext(q[..i], total, end, q[i]);
        if start > end {
          total, end := total + (stop - start), stop;
        } else if stop > end {
          total, end := total + (stop - end), stop;
        }
      }
      i := i + 1;
    }
    assert q[..|q|] == q;
  }

  lemma StartsBefore(q: seq<Range>, i: nat)
    requires i < |q| && Ordered(q, (r: Range) => r)
    ensures forall k :: 0 <= k < i ==> q[..i][k].start <= q[i].start
  {
    forall k | 0 <= k < i ensures q[..i][k].start <= q[i].start {
      assert Before(((r: Range) => r)(q[k]), ((r: Range) => r)(q[i]));
    }
  }

  lemma UnionNone(q: seq<Range>)
    requires q == []
    ensures Union(q) == {}
  {
  }

  lemma ProperSorted(p: seq<Range>, q: seq<Range>)
    requires multiset(p) == multiset(q) && forall i :: 0 <= i < |p| ==> Proper(p[i])
    ensures forall i :: 0 <= i < |q| ==> Proper(q[i])
  {
    forall i | 0 <= i < |q| ensures Proper(q[i]) {
      assert q[i] in multiset(p);
    }
  }

  lemma ReachesStep(q: seq<Range>, end: int, r: Range)
    requires Proper(r) && Reaches(q, end)
    ensures Reaches(q + [r], if r.stop > end then r.stop else end)
  {
    var s := q + [r];
    if r.stop > end {
      assert s[|q|].stop == r.stop;
    } else {
      var k :| 0 <= k < |q| && q[k].stop == end;
      assert s[k].stop == end;
    }
  }

  // ---- intersections ----

  function Max(a: int, b: int): int { if a > b then a else b }

  function Min(a: int, b: int): int { if a < b then a else b }

  /** The non-empty intersections of one range with each of the others. */
  function Cuts(r: Range, others: seq<Range>): seq<Range> {
    if others == [] then [] else Cut(r, others[0]) + Cuts(r, others[1..])
  }

  function Cut(r: Range, o: Range): seq<Range> {
    var c := Range(Max(r.start, o.start), Min(r.stop, o.stop));
    if c.start < c.stop then [c] else []
  }

  lemma CutMeasure(r: Range, o: Range)
    ensures Union(Cut(r, o)) == Span(r) * Span(o)
    ensures forall c :: c in Cut(r, o) ==> Proper(c)
  {
    var c := Range(Max(r.start, o.start), Min(r.stop, o.stop));
    UnionOne(c);
    assert forall a :: Has(c, a) <==> Has(r, a) && Has(o, a);
    assert Span(c) == Span(r) * Span(o);
  }

  function Intersections(p: seq<Range>, q: seq<Range>): seq<Range> {
    if p == [] then [] else Cuts(p[0], q) + Intersections(p[1..], q)
  }

  lemma UnionConcat(p: seq<Range>, q: seq<Range>)
    ensures Union(p + q) == Union(p) + Union(q)
  {
    forall a ensures a in Union(p + q) <==> a in Union(p) + Union(q) {
      hide Union;
      InUnion(p + q, a);
      InUnion(p, a);
      InUnion(q, a);
      forall r ensures r in p + q <==> r in p || r in q {}
    }
  }

  lemma UnionOne(r: Range)
    ensures Union([r]) == Span(r)
  {
    UnionAppend([], r);
    assert [] + [r] == [r];
  }

  lemma SplitsFirst(q: seq<Range>)
    requires q != []
    ensures Union(q) == Span(q[0]) + Union(q[1..])
  {
    UnionConcat([q[0]], q[1..]);
    UnionOne(q[0]);
    assert q == [q[0]] + q[1..];
  }

  lemma {:induction false} CutsMeasure(r: Range, others: seq<Range>)
    ensures Union(Cuts(r, others)) == Span(r) * Union(others)
    ensures forall c :: c in Cuts(r, others) ==> Proper(c)
  {
    if others != [] {
      var o := others[0];
      var head := Cut(r, o);
      hide Union, Span;
      CutsMeasure(r, others[1..]);
      UnionConcat(head, Cuts(r, others[1..]));
      SplitsFirst(others);
      CutMeasure(r, o);
    }
  }

  /** Intersecting pairwise measures the intersection of the unions. */
  lemma {:induction false} IntersectionsMeasure(p: seq<Range>, q: seq<Range>)
    ensures Union(Intersections(p, q)) == Union(p) * Union(q)
    ensures forall c :: c in Intersections(p, q) ==> Proper(c)
  {
    if p != [] {
      IntersectionsMeasure(p[1..], q);
      CutsMeasure(p[0], q);
      UnionConcat(Cuts(p[0], q), Intersections(p[1..], q));
      SplitsFirst(p);
    }
  }

  /** Bytes of symbols inside the object's contributions never exceed the conservative debit. */
  method SymbolBytesInside(symbols: seq<Range>, contributions: seq<Range>) returns (inside: nat, debit: nat)
    requires forall i :: 0 <= i < |symbols| ==> Proper(symbols[i])
    requires forall i :: 0 <= i < |contributions| ==> Proper(contributions[i])
    ensures inside == |Union(symbols) * Union(contributions)| && debit == |Union(contributions)|
    ensures inside <= debit
  {
    IntersectionsMeasure(symbols, contributions);
    inside := MergedBytes(Intersections(symbols, contributions));
    debit := MergedBytes(contributions);
    Fewer(Union(symbols) * Union(contributions), Union(contributions));
  }

  lemma Fewer(s: set<int>, t: set<int>)
    requires s <= t
    ensures |s| <= |t|
  {
    assert t == s + (t - s);
  }

  // ---- coverage of an output section ----

  datatype Input = Input(fill: bool, own: bool, address: int, size: nat)

  function Extent(item: Input): Range {
    Range(item.address, item.address + item.size)
  }

  function Sized(q: seq<Input>): seq<Input> {
    if q == [] then [] else (if q[0].size > 0 then [q[0]] else []) + Sized(q[1..])
  }

  lemma {:induction false} SizedMembers(q: seq<Input>)
    ensures forall x :: x in Sized(q) <==> x in q && x.size > 0
  {
    if q != [] {
      SizedMembers(q[1..]);
      assert q == [q[0]] + q[1..];
    }
  }

  ghost predicate Contained(output: Range, inputs: seq<Input>) {
    forall x :: x in inputs ==> output.start <= x.address && x.address + x.size <= output.stop
  }

  /** The byte belongs to some input. */
  ghost predicate Owned(inputs: seq<Input>, a: int) {
    exists x :: x in inputs && Has(Extent(x), a)
  }

  ghost predicate Covered(output: Range, inputs: seq<Input>) {
    forall a :: Has(output, a) ==> Owned(inputs, a)
  }

  ghost predicate CoveredTo(q: seq<Input>, start: int, cursor: int) {
    forall a :: Has(Range(start, cursor), a) ==> Owned(q, a)
  }

  method CheckContained(output: Range, inputs: seq<Input>) returns (ok: bool)
    ensures ok <==> Contained(output, inputs)
  {
    var i := 0;
    while i < |inputs|
      invariant 0 <= i <= |inputs|
      invariant forall k :: 0 <= k < i ==>
                    output.start <= inputs[k].address && inputs[k].address + inputs[k].size <= output.stop
    {
      if inputs[i].address < output.start || inputs[i].address + inputs[i].size > output.stop {
        return false;
      }
      i := i + 1;
    }
    return true;
  }

  /** Accepts a non-empty section exactly when its map inputs lie inside it and leave no byte out. */
  method CheckCoverage(output: Range, inputs: seq<Input>) returns (ok: bool)
    requires output.start < output.stop
    ensures ok <==> Contained(output, inputs) && Covered(output, inputs)
    ensures ok <==> (&& (forall x :: x in inputs ==> output.start <= x.address && x.address + x.size <= output.stop)
                     && forall a :: InBytes(output.start, output.stop, a) ==>
                          exists x :: x in inputs && InBytes(x.address, x.address + x.size, a))
  {
    CoverageMeans(output, inputs);
    var inside := CheckContained(output, inputs);
    if !inside {
      return false;
    }
    ghost var sized := Sized(inputs);
    var q := Sorted(Sized(inputs), Extent);
    SortedOrdered(sized, Extent);
    SizedMembers(inputs);
    MembersSorted(sized, q);
    hide Sorted, Sized, Covered, CoveredTo, Ordered, Owned;
    var cursor := output.start;
    var i := 0;
    CoveredNone(q[..0], output.start);
    while i < |q|
      invariant 0 <= i <= |q| && output.start <= cursor <= output.stop
      invariant CoveredTo(q[..i], output.start, cursor)
      invariant forall k :: 0 <= k < i ==> q[k].address + q[k].size <= cursor
    {
      assert q[i] in q && q[i] in inputs;
      if q[i].address > cursor {
        Uncovered(output, inputs, q, i, cursor);
        return false;
      }
      ghost var before := cursor;
      var stop := q[i].address + q[i].size;
      cursor := if stop > cursor then stop else cursor;
      CoveredStep(q, i, output.start, before, cursor);
      i := i + 1;
    }
    assert q[..|q|] == q;
    ok := cursor == output.stop;
    if ok {
      CoveredAll(output, inputs, q);
    } else {
      EndUncovered(output, inputs, q, cursor);
    }
  }

  /** Byte `a` is one of those from `start` up to, not including, `stop`. */
  ghost predicate InBytes(start: int, stop: int, a: int) {
    start <= a < stop
  }

  lemma CoverageMeans(output: Range, inputs: seq<Input>)
    ensures Contained(output, inputs) <==>
            forall x :: x in inputs ==> output.start <= x.address && x.address + x.size <= output.stop
    ensures Covered(output, inputs) <==>
            forall a :: InBytes(output.start, output.stop, a) ==>
              exists x :: x in inputs && InBytes(x.address, x.address + x.size, a)
  {
    forall a
      ensures Owned(inputs, a) <==> exists x :: x in inputs && InBytes(x.address, x.address + x.size, a)
      ensures Has(output, a) <==> InBytes(output.start, output.stop, a)
    {
      assert forall x: Input :: Has(Extent(x), a) <==> InBytes(x.address, x.address + x.size, a);
    }
  }

  lemma CoveredNone(q: seq<Input>, start: int)
    ensures CoveredTo(q, start, start)
  {
  }

  lemma CoveredAll(output: Range, inputs: seq<Input>, q: seq<Input>)
    requires CoveredTo(q, output.start, output.stop) && forall x :: x in q ==> x in inputs
    ensures Covered(output, inputs)
  {
    forall a | Has(output, a) ensures Owned(inputs, a) {
      assert Has(Range(output.start, output.stop), a);
      assert Owned(q, a);
    }
  }

  lemma MembersSorted(p: seq<Input>, q: seq<Input>)
    requires multiset(p) == multiset(q)
    ensures forall x :: x in q <==> x in p
  {
    forall x ensures x in q <==> x in p {
      assert x in q <==> x in multiset(q);
      assert x in p <==> x in multiset(p);
    }
  }

  lemma CoveredStep(q: seq<Input>, i: nat, start: int, before: int, after: int)
    requires i < |q| && CoveredTo(q[..i], start, before) && q[i].address <= before
    requires after == before || after == q[i].address + q[i].size
    ensures CoveredTo(q[..i + 1], start, after)
  {
    forall a | Has(Range(start, after), a) ensures Owned(q[..i + 1], a) {
      if a < before {
        assert Has(Range(start, before), a);
        assert Owned(q[..i], a);
        var x :| x in q[..i] && Has(Extent(x), a);
        assert x in q[..i + 1];
      } else {
        assert q[..i + 1][i] == q[i] && Has(Extent(q[i]), a);
      }
    }
  }

  /** A gap before the next input in order is a byte no input has. */
  lemma Uncovered(output: Range, inputs: seq<Input>, q: seq<Input>, i: nat, cursor: int)
    requires i < |q| && Ordered(q, Extent) && output.start <= cursor < q[i].address <= output.stop
    requires forall x :: x in inputs && x.size > 0 ==> x in q
    requires forall k :: 0 <= k < i ==> q[k].address + q[k].size <= cursor
    ensures !Covered(output, inputs)
  {
    assert forall k :: i < k < |q| ==> Before(Extent(q[i]), Extent(q[k]));
    assert forall k :: 0 <= k < |q| ==> !Has(Extent(q[k]), cursor);
    assert forall x :: x in inputs ==> !Has(Extent(x), cursor);
    assert Has(output, cursor) && !Owned(inputs, cursor);
  }

  lemma EndUncovered(output: Range, inputs: seq<Input>, q: seq<Input>, cursor: int)
    requires output.start <= cursor < output.stop
    requires forall x :: x in inputs && x.size > 0 ==> x in q
    requires forall k :: 0 <= k < |q| ==> q[k].address + q[k].size <= cursor
    ensures !Covered(output, inputs)
  {
    assert forall k :: 0 <= k < |q| ==> !Has(Extent(q[k]), cursor);
    assert forall x :: x in inputs ==> !Has(Extent(x), cursor);
    assert Has(output, cursor) && !Owned(inputs, cursor);
  }
}
