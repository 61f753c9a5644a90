/** Alignment fill charged with an object's contributions: the loop that keeps adding adjacent fill rows. */
module Padding {
  import opened Ranges
  import opened Sets

  /** A fill row ends where a chosen range starts, or starts where one ends. */
  predicate Adjacent(fill: Range, chosen: Range) {
    fill.stop == chosen.start || fill.start == chosen.stop
  }

  /** The object's own sized rows. */
  predicate Base(rows: seq<Input>, i: int) {
    0 <= i < |rows| && rows[i].own && rows[i].size > 0
  }

  predicate Pulls(rows: seq<Input>, i: int, k: int) {
    0 <= i < |rows| && 0 <= k < |rows| && rows[k].fill && Adjacent(Extent(rows[k]), Extent(rows[i]))
  }

  ghost predicate Closed(rows: seq<Input>, s: set<int>) {
    && (forall i :: Base(rows, i) ==> i in s)
    && forall i, k :: i in s && Pulls(rows, i, k) ==> k in s
  }

  /** The least set with the object's own rows that is closed under adjacent fill. */
  ghost predicate Least(rows: seq<Input>, s: set<int>) {
    && Closed(rows, s)
    && (forall i :: i in s ==> 0 <= i < |rows|)
    && forall t :: Closed(rows, t) ==> s <= t
  }

  ghost predicate Below(rows: seq<Input>, s: set<int>) {
    && (forall i :: i in s ==> 0 <= i < |rows|)
    && forall t :: Closed(rows, t) ==> s <= t
  }

  function Members(q: seq<int>): set<int> {
    set i | i in q
  }

  /** No more rows can be chosen than there are. */
  lemma Bounded(rows: seq<Input>, selected: seq<int>)
    requires Distinct(selected) && Below(rows, Members(selected))
    ensures |selected| <= |rows|
  {
    hide Below;
    forall i | 0 <= i < |selected| ensures selected[i] in Interval(0, |rows|) {
      assert selected[i] in Members(selected);
      BelowInside(rows, Members(selected), selected[i]);
    }
    DistinctLength(selected, Interval(0, |rows|));
  }

  lemma BelowInside(rows: seq<Input>, s: set<int>, i: int)
    requires Below(rows, s) && i in s
    ensures 0 <= i < |rows|
  {
  }

  lemma BelowStep(rows: seq<Input>, s: set<int>, i: int, k: int)
    requires Below(rows, s) && i in s && Pulls(rows, i, k)
    ensures Below(rows, s + {k})
  {
  }

  /** Some chosen row was adjacent when the pass took its ranges. */
  predicate Wanted(rows: seq<Input>, chosen: seq<int>, k: int) {
    exists i :: i in chosen && Pulls(rows, i, k)
  }

  method AnyAdjacent(rows: seq<Input>, ranges: seq<Range>, ghost chosen: seq<int>, k: int) returns (found: bool)
    requires 0 <= k < |rows| && rows[k].fill && |ranges| == |chosen|
    requires forall j :: 0 <= j < |chosen| ==> 0 <= chosen[j] < |rows| && ranges[j] == Extent(rows[chosen[j]])
    ensures found <==> Wanted(rows, chosen, k)
  {
    var j := 0;
    while j < |ranges|
      invariant 0 <= j <= |ranges|
      invariant forall m :: 0 <= m < j ==> !Pulls(rows, chosen[m], k)
    {
      if Adjacent(Extent(rows[k]), ranges[j]) {
        assert chosen[j] in chosen && Pulls(rows, chosen[j], k);
        return true;
      }
      j := j + 1;
    }
    return false;
  }

  /** One pass over the rows with the ranges taken at its start. */
  method Pass(rows: seq<Input>, selected: seq<int>) returns (next: seq<int>, changed: bool)
    requires Distinct(selected) && Below(rows, Members(selected))
    ensures Distinct(next) && Below(rows, Members(next)) && selected <= next
    ensures changed <==> |next| > |selected|
    ensures !changed ==> forall k :: Wanted(rows, selected, k) ==> k in selected
  {
    hide Distinct, Below;
    forall j | 0 <= j < |selected| ensures 0 <= selected[j] < |rows| {
      assert selected[j] in Members(selected);
      BelowInside(rows, Members(selected), selected[j]);
    }
    var ranges := seq(|selected|, j requires 0 <= j < |selected|
        && 0 <= selected[j] < |rows| => Extent(rows[selected[j]]));
    next, changed := selected, false;
    for k := 0 to |rows|
      invariant Distinct(next) && Below(rows, Members(next)) && selected <= next
      invariant changed <==> |next| > |selected|
      invariant !changed ==> forall m :: 0 <= m < k && Wanted(rows, selected, m) ==> m in selected
    {
      if rows[k].fill && k !in next {
        var found := AnyAdjacent(rows, ranges, selected, k);
        if found {
          Extend(rows, selected, next, k);
          next, changed := next + [k], true;
        }
      }
    }
  }

  lemma Extend(rows: seq<Input>, selected: seq<int>, next: seq<int>, k: int)
    requires Distinct(next) && Below(rows, Members(next)) && selected <= next && k !in next
    requires Wanted(rows, selected, k)
    ensures Distinct(next + [k]) && Below(rows, Members(next + [k]))
  {
    hide Below;
    var i :| i in selected && Pulls(rows, i, k);
    assert i in Members(next) by { assert i in next; }
    BelowStep(rows, Members(next), i, k);
    assert Members(next + [k]) == Members(next) + {k};
  }

  method OwnRows(rows: seq<Input>) returns (matching: seq<int>)
    ensures Distinct(matching) && Below(rows, Members(matching))
    ensures forall i :: Base(rows, i) <==> i in matching
  {
    matching := [];
    for i := 0 to |rows|
      invariant Distinct(matching)
      invariant forall k :: k in matching <==> k < i && Base(rows, k)
    {
      if rows[i].own && rows[i].size > 0 {
        forall j | 0 <= j < |matching| ensures matching[j] != i {
          assert matching[j] in matching;
        }
        matching := matching + [i];
      }
    }
  }

  /** Repeats passes until one changes nothing; ends with the least closed set, whatever the order of the rows. */
  method Charge(rows: seq<Input>) returns (selected: seq<int>)
    ensures Distinct(selected) && Least(rows, Members(selected))
    ensures forall k :: k in Members(selected) <==> exists path :: Chain(rows, path) && path[|path| - 1] == k
    ensures forall i, k ::
              (&& 0 <= i < |rows| && 0 <= k < |rows| && rows[i].own && rows[i].size > 0 && rows[k].fill
               && (rows[k].address + rows[k].size == rows[i].address
                   || rows[k].address == rows[i].address + rows[i].size)) ==>
                k in selected
  {
    hide Distinct, Below, Wanted, Chain;
    selected := OwnRows(rows);
    var changed := true;
    while changed
      invariant Distinct(selected) && Below(rows, Members(selected))
      invariant forall i :: Base(rows, i) ==> i in selected
      invariant !changed ==> forall k :: Wanted(rows, selected, k) ==> k in selected
      decreases |rows| - |selected|, changed
    {
      ghost var before := selected;
      selected, changed := Pass(rows, selected);
      Bounded(rows, selected);
      Kept(before, selected);
      if !changed {
        assert selected == before;
      }
    }
    ClosedWhenStill(rows, selected);
    ChargedByChain(rows, Members(selected));
    forall i, k | 0 <= i < |rows| && 0 <= k < |rows| && rows[i].own && rows[i].size > 0 && rows[k].fill
        && (rows[k].address + rows[k].size == rows[i].address || rows[k].address == rows[i].address + rows[i].size)
      ensures k in selected
    {
      Neighbour(rows, i, k);
      assert k in Members(selected);
    }
  }

  // ---- rows reached by touching ----

  /** From a sized row of the object, each next row is fill that touches the one before at either end. */
  ghost predicate Chain(rows: seq<Input>, path: seq<int>) {
    && path != [] && (forall j :: 0 <= j < |path| ==> 0 <= path[j] < |rows|)
    && rows[path[0]].own && rows[path[0]].size > 0
    && forall i, j :: 0 <= i < |path| && j == i + 1 < |path| ==> Reached(rows[path[i]], rows[path[j]])
  }

  ghost predicate Reached(item: Input, next: Input) {
    next.fill && (next.address + next.size == item.address || next.address == item.address + item.size)
  }

  lemma ChainNext(rows: seq<Input>, path: seq<int>, k: int)
    requires Chain(rows, path)
    ensures Chain(rows, path + [k]) <==> Pulls(rows, path[|path| - 1], k)
  {
    var longer, n := path + [k], |path| - 1;
    assert forall j :: 0 <= j < |path| ==> longer[j] == path[j];
    assert longer[n] == path[n] && longer[n + 1] == k;
    assert Pulls(rows, path[n], k) <==> 0 <= k < |rows| && Reached(rows[path[n]], rows[k]);
    hide Pulls, Reached;
    if Chain(rows, longer) {
      assert Reached(rows[longer[n]], rows[longer[n + 1]]);
    }
  }

  lemma ChainEnds(rows: seq<Input>, path: seq<int>)
    requires Chain(rows, path)
    ensures path[|path| - 1] in Interval(0, |rows|)
  {
  }

  /** A chain starts at a row of the object, and without its last row it is a chain to the row before. */
  lemma ChainFront(rows: seq<Input>, path: seq<int>)
    requires Chain(rows, path)
    ensures Base(rows, path[0])
    ensures |path| > 1 ==> Chain(rows, path[..|path| - 1]) && Pulls(rows, path[|path| - 2], path[|path| - 1])
  {
    if |path| > 1 {
      var n := |path| - 1;
      assert path == path[..n] + [path[n]];
      assert forall j :: 0 <= j < n ==> path[..n][j] == path[j];
      ChainNext(rows, path[..n], path[n]);
    }
  }

  /** A closed set holds the end of every chain. */
  lemma {:induction false} ChainInside(rows: seq<Input>, path: seq<int>, t: set<int>)
    requires Chain(rows, path) && Closed(rows, t)
    ensures path[|path| - 1] in t
    decreases |path|
  {
    assert path != [];
    hide Chain;
    ChainFront(rows, path);
    if |path| > 1 {
      ChainInside(rows, path[..|path| - 1], t);
    }
  }

  lemma Neighbour(rows: seq<Input>, i: int, k: int)
    requires 0 <= i < |rows| && 0 <= k < |rows| && rows[i].own && rows[i].size > 0 && rows[k].fill
    requires rows[k].address + rows[k].size == rows[i].address || rows[k].address == rows[i].address + rows[i].size
    ensures Base(rows, i) && Pulls(rows, i, k)
  {
  }

  /** The least closed set is what chains of touching fill reach. */
  lemma ChargedByChain(rows: seq<Input>, s: set<int>)
    requires Least(rows, s)
    ensures forall k :: k in s <==> exists path :: Chain(rows, path) && path[|path| - 1] == k
  {
    var t := set k | k in Interval(0, |rows|) && exists path :: Chain(rows, path) && path[|path| - 1] == k;
    forall i | Base(rows, i) ensures i in t {
      assert Chain(rows, [i]) && [i][0] == i;
    }
    forall i, k | i in t && Pulls(rows, i, k) ensures k in t {
      var path :| Chain(rows, path) && path[|path| - 1] == i;
      ChainNext(rows, path, k);
      assert Chain(rows, path + [k]) && (path + [k])[|path + [k]| - 1] == k;
      ChainEnds(rows, path + [k]);
    }
    assert Closed(rows, t) && s <= t;
    forall path | Chain(rows, path) ensures path[|path| - 1] in s {
      ChainInside(rows, path, s);
    }
  }

  lemma Kept(before: seq<int>, after: seq<int>)
    requires before <= after
    ensures forall i :: i in before ==> i in after
  {
  }

  lemma ClosedWhenStill(rows: seq<Input>, selected: seq<int>)
    requires Below(rows, Members(selected))
    requires forall i :: Base(rows, i) ==> i in selected
    requires forall k :: Wanted(rows, selected, k) ==> k in selected
    ensures Least(rows, Members(selected))
  {
    forall i, k | i in Members(selected) && Pulls(rows, i, k) ensures k in Members(selected) {
      assert Wanted(rows, selected, k);
    }
  }

  /** The same rows in another order: `to` says where each row went, `from` where it came from. */
  ghost predicate Reordered(rows: seq<Input>, other: seq<Input>, to: seq<int>, from: seq<int>) {
    && |rows| == |other| == |to| == |from|
    && (forall i :: 0 <= i < |rows| ==> 0 <= to[i] < |rows| && from[to[i]] == i && other[to[i]] == rows[i])
    && (forall j :: 0 <= j < |rows| ==> 0 <= from[j] < |rows| && to[from[j]] == j)
  }

  lemma ReorderedBack(rows: seq<Input>, other: seq<Input>, to: seq<int>, from: seq<int>)
    requires Reordered(rows, other, to, from)
    ensures Reordered(other, rows, from, to)
  {
  }

  lemma OneWay(rows: seq<Input>, other: seq<Input>, to: seq<int>, from: seq<int>, s: set<int>, t: set<int>)
    requires Reordered(rows, other, to, from) && Least(rows, s) && Closed(other, t)
    ensures forall i :: i in s ==> 0 <= i < |rows| && to[i] in t
  {
    var image := set j | j in Interval(0, |rows|) && to[j] in t;
    forall i | Base(rows, i) ensures i in image {
      assert Base(other, to[i]);
    }
    forall i, k | i in image && Pulls(rows, i, k) ensures k in image {
      assert Pulls(other, to[i], to[k]);
    }
    assert Closed(rows, image);
  }

  /** The chosen rows do not depend on the order in which the map lists them. */
  lemma OrderIndependent(rows: seq<Input>, other: seq<Input>, to: seq<int>, from: seq<int>, s: set<int>, t: set<int>)
    requires Reordered(rows, other, to, from) && Least(rows, s) && Least(other, t)
    ensures forall i :: 0 <= i < |rows| ==> (i in s <==> to[i] in t)
  {
    OneWay(rows, other, to, from, s, t);
    ReorderedBack(rows, other, to, from);
    OneWay(other, rows, from, to, t, s);
    forall i | 0 <= i < |rows| && to[i] in t ensures i in s {
      assert from[to[i]] == i;
    }
  }
}
