/** Finite sets: members, extraction and ascending order. */
module Sets {

  lemma Inhabited(s: set<int>)
    ensures s != {} ==> exists x :: x in s
  {
    if forall x :: x !in s {
      assert s == {};
    }
  }

  ghost predicate Ascending(q: seq<int>) {
    forall i, j :: 0 <= i < j < |q| ==> q[i] < q[j]
  }

  lemma LeastExists(s: set<int>)
    requires s != {}
    ensures exists m :: m in s && forall x :: x in s ==> m <= x
  {
    Inhabited(s);
    var m :| m in s;
    if s != {m} {
      LeastExists(s - {m});
      var n :| n in s - {m} && forall x :: x in s - {m} ==> n <= x;
      assert forall x :: x in s ==> x == m || x in s - {m};
      var k := if m < n then m else n;
      assert k in s && forall x :: x in s ==> k <= x;
    }
  }

  function SortedSeq(s: set<int>): (q: seq<int>)
    ensures Ascending(q) && forall x :: x in q <==> x in s
  {
    if s == {} then []
    else
      LeastExists(s);
      var m :| m in s && forall x :: x in s ==> m <= x;
      [m] + SortedSeq(s - {m})
  }

  /** The member of a one-element set. */
  function Only(s: set<int>): (x: int)
    requires |s| == 1
    ensures s == {x}
  {
    OnlyExists(s);
    var x :| s == {x};
    x
  }

  lemma OnlyExists(s: set<int>)
    requires |s| == 1
    ensures exists x :: s == {x}
  {
    Inhabited(s);
    var x :| x in s;
    assert |s - {x}| == 0;
    assert s == {x};
  }

  /** `range(limit + 1)` as a set. */
  function UpTo(limit: nat): (s: set<int>)
    ensures forall n :: n in s <==> 0 <= n <= limit
  {
    if limit == 0 then {0} else UpTo(limit - 1) + {limit}
  }

  ghost predicate Distinct<T>(w: seq<T>) {
    forall i, j :: 0 <= i < j < |w| ==> w[i] != w[j]
  }

  lemma {:induction false} MembersLength<T>(s: set<T>, w: seq<T>)
    requires forall x :: x in s ==> x in w
    ensures |s| <= |w|
    decreases |w|
  {
    if s != {} {
      var x :| x in s;
      var i :| 0 <= i < |w| && w[i] == x;
      var rest := w[..i] + w[i + 1..];
      forall y | y in s - {x} ensures y in rest {
        var j :| 0 <= j < |w| && w[j] == y;
        assert y == if j < i then rest[j] else rest[j - 1];
      }
      MembersLength(s - {x}, rest);
    }
  }

  lemma {:induction false} DistinctLength<T>(w: seq<T>, s: set<T>)
    requires Distinct(w) && forall i :: 0 <= i < |w| ==> w[i] in s
    ensures |w| <= |s|
  {
    if w != [] {
      var n := |w| - 1;
      DistinctLength(w[..n], s - {w[n]});
      assert |s - {w[n]}| == |s| - 1;
    }
  }
}
