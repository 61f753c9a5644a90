/**
 Functions whose abstract states follow each other in one line. For these the engine's answer can be told in full:
 no reason for a refusal holds, and the certificate it leaves is the only one there is.
 */
module StraightLine {
  import opened Basics
  import opened Sets
  import opened AbstractValues
  import opened Machine
  import opened Transfers
  import opened Refusals
  import opened IntervalEngine
  import CallGraph

  function PointOf(s: Succ): Point {
    Point(LocOf(s.pc, s.st), s.st)
  }

  /** The point flows to the next one only, and joining it with itself changes nothing. */
  ghost predicate Lone(p: Program, t: Task, q: seq<Point>, i: nat)
    requires i < |q|
  {
    var out := At(p, t, q[i]);
    && out.Flows? && Merge(q[i].st, q[i].st) == Some(q[i].st)
    && if i + 1 < |q| then |out.succs| == 1 && PointOf(out.succs[0]) == q[i + 1] else out.succs == []
  }

  /** Joining a state with itself changes nothing, as long as no value is too large to be kept. */
  lemma JoinsSelf(st: State)
    requires forall r :: 0 <= r < 32 && st.regs[r].Vals? ==> |st.regs[r].xs| <= SET_LIMIT
    requires forall k :: k in st.mem && st.mem[k].Vals? ==> |st.mem[k].xs| <= SET_LIMIT
    ensures Merge(st, st) == Some(st)
  {
    var m := Merge(st, st).value;
    forall r | 0 <= r < 32 ensures m.regs[r] == st.regs[r] {
      SameUnion(st.regs[r]);
    }
    assert m.regs == st.regs;
    forall k | k in st.mem ensures k in m.mem && m.mem[k] == st.mem[k] {
      SameUnion(st.mem[k]);
    }
    assert m.mem == st.mem;
  }

  lemma SameUnion(v: AVal)
    requires v.Vals? ==> |v.xs| <= SET_LIMIT
    ensures Union(v, v) == v
  {
    if v.Vals? {
      assert v.xs + v.xs == v.xs;
    }
  }

  ghost predicate Line(p: Program, t: Task, q: seq<Point>) {
    && q != [] && q[0] == Start(t)
    && (forall i, j :: 0 <= i < j < |q| ==> q[i].loc != q[j].loc)
    && forall i :: 0 <= i < |q| ==> Lone(p, t, q, i)
  }

  lemma OneLocation(p: Program, t: Task, q: seq<Point>, x: Point, y: Point)
    requires Line(p, t, q) && x in q && y in q && x.loc == y.loc
    ensures x == y
  {
    hide Lone;
    var i, j :| 0 <= i < |q| && 0 <= j < |q| && q[i] == x && q[j] == y;
  }

  lemma Follows(p: Program, t: Task, q: seq<Point>, x: Point, s: Succ)
    requires Line(p, t, q) && x in q && Steps(p, t, x, s)
    ensures PointOf(s) in q
  {
    hide At, Merge;
    var i :| 0 <= i < |q| && q[i] == x;
    assert Lone(p, t, q, i);
  }

  lemma {:induction false} DerivedOnLine(p: Program, t: Task, q: seq<Point>, d: seq<Point>, i: nat)
    requires Line(p, t, q) && Derivation(p, t, d) && i < |d|
    ensures d[i] in q
    decreases i
  {
    hide Line, Steps, Merge, LocOf;
    assert Arises(p, t, d, i);
    if d[i] == Start(t) {
      LineStarts(p, t, q);
    } else {
      var j, s :| 0 <= j < i && Steps(p, t, d[j], s) && Records(d, i, s);
      DerivedOnLine(p, t, q, d, j);
      Follows(p, t, q, d[j], s);
      if d[i].st != s.st {
        var k :| 0 <= k < i && d[k].loc == d[i].loc && Merge(d[k].st, s.st) == Some(d[i].st);
        DerivedOnLine(p, t, q, d, k);
        OneLocation(p, t, q, d[k], PointOf(s));
        JoinsItself(p, t, q, d[k]);
      }
    }
  }

  lemma LineStarts(p: Program, t: Task, q: seq<Point>)
    requires Line(p, t, q)
    ensures Start(t) in q
  {
    hide Lone;
  }

  lemma JoinsItself(p: Program, t: Task, q: seq<Point>, x: Point)
    requires Line(p, t, q) && x in q
    ensures At(p, t, x).Flows? && Merge(x.st, x.st) == Some(x.st)
  {
    hide At;
    var i :| 0 <= i < |q| && q[i] == x;
    assert Lone(p, t, q, i);
  }

  /** Exactly the points of the line are derived. */
  lemma OnLine(p: Program, t: Task, q: seq<Point>, x: Point)
    requires Line(p, t, q)
    ensures Derived(p, t, x) <==> x in q
  {
    hide Line, Derivation;
    if Derived(p, t, x) {
      var d :| Derivation(p, t, d) && x in d;
      var i :| 0 <= i < |d| && d[i] == x;
      DerivedOnLine(p, t, q, d, i);
    }
    LineDerives(p, t, q);
  }

  lemma LineDerives(p: Program, t: Task, q: seq<Point>)
    requires Line(p, t, q)
    ensures Derivation(p, t, q)
  {
    hide At, Merge;
    forall i | 0 <= i < |q| ensures Arises(p, t, q, i) {
      if i > 0 {
        assert Lone(p, t, q, i - 1);
        var s := At(p, t, q[i - 1]).succs[0];
        assert Steps(p, t, q[i - 1], s) && Records(q, i, s);
      }
    }
  }

  // ---- the certificate ----

  /** A closed, traceable certificate records exactly the line. */
  lemma RecordsLine(p: Program, t: Task, q: seq<Point>, c: Cert, bounds: map<Key, nat>)
    requires Line(p, t, q) && TaskBehind(c) == t && Closed(p, c, bounds) && Traceable(p, c, bounds)
    ensures forall l :: l in c.states ==> Point(l, c.states[l]) in q
    ensures forall x :: x in q ==> x.loc in c.states && c.states[x.loc] == x.st
  {
    forall l | l in c.states ensures Point(l, c.states[l]) in q {
      hide Derived, Line, Closed;
      OnLine(p, t, q, Point(l, c.states[l]));
    }
    forall x | x in q ensures x.loc in c.states && c.states[x.loc] == x.st {
      hide Line, Closed, Traceable;
      var i :| 0 <= i < |q| && q[i] == x;
      Recorded(p, t, q, c, bounds, i);
    }
  }

  lemma {:induction false} Recorded(p: Program, t: Task, q: seq<Point>, c: Cert, bounds: map<Key, nat>, i: nat)
    requires Line(p, t, q) && TaskBehind(c) == t && Closed(p, c, bounds) && i < |q|
    requires forall l :: l in c.states ==> Point(l, c.states[l]) in q
    ensures q[i].loc in c.states && c.states[q[i].loc] == q[i].st
  {
    hide Merge, LeqState, LocOf, Reached;
    if i == 0 {
      assert Covered(c.states, Succ(c.address, c.entry));
    } else {
      Recorded(p, t, q, c, bounds, i - 1);
      assert Lone(p, t, q, i - 1);
      var l := q[i - 1].loc;
      assert Settled(Transfer(p, c.options, c.entry, l.pc, c.states[l]), c.states, c.maximum, bounds);
      hide Transfer;
      assert Covered(c.states, At(p, t, q[i - 1]).succs[0]);
    }
    OneLocation(p, t, q, q[i], Point(q[i].loc, c.states[q[i].loc]));
  }

  /** What every point of the line uses fits under the certificate's maximum. */
  lemma UsesFit(p: Program, t: Task, q: seq<Point>, c: Cert, bounds: map<Key, nat>, x: Point, m: nat)
    requires Line(p, t, q) && TaskBehind(c) == t && Closed(p, c, bounds) && Traceable(p, c, bounds)
    requires x in q && Yields(p, t, x, bounds, m)
    ensures m <= c.maximum
  {
    hide Traceable, LeqState, LocOf, Reached, Line, Covered;
    RecordsLine(p, t, q, c, bounds);
    assert Settled(Transfer(p, c.options, c.entry, x.loc.pc, c.states[x.loc]), c.states, c.maximum, bounds);
    hide Transfer;
    var out := At(p, t, x);
    if out.depth != m {
      var k :| k in out.calls && k in bounds && out.depth + bounds[k] == m;
      assert CallCovered(bounds, c.maximum, out.depth, k);
    }
  }

  /** The bounds agree on what the line calls. */
  ghost predicate Agree(p: Program, t: Task, q: seq<Point>, b0: map<Key, nat>, b1: map<Key, nat>) {
    forall x, k :: x in q && At(p, t, x).Flows? && k in At(p, t, x).calls ==> k in b0 && k in b1 && b0[k] == b1[k]
  }

  lemma AgreeBack(p: Program, t: Task, q: seq<Point>, b0: map<Key, nat>, b1: map<Key, nat>)
    requires Agree(p, t, q, b0, b1)
    ensures Agree(p, t, q, b1, b0)
  {
    hide At;
  }

  lemma NoLarger(p: Program, t: Task, q: seq<Point>, c: Cert, b0: map<Key, nat>, e: Cert, b1: map<Key, nat>)
    requires Line(p, t, q) && TaskBehind(c) == TaskBehind(e) == t
    requires Closed(p, c, b0) && Traceable(p, c, b0) && Traceable(p, e, b1) && Agree(p, t, q, b0, b1)
    ensures e.maximum <= c.maximum
  {
    hide Line, Closed, Derived, At;
    if e.maximum != 0 {
      var x :| Derived(p, t, x) && Yields(p, t, x, b1, e.maximum);
      OnLine(p, t, q, x);
      assert Yields(p, t, x, b0, e.maximum);
      UsesFit(p, t, q, c, b0, x, e.maximum);
    }
  }

  /** There is one closed, traceable certificate. */
  lemma OneCertificate(p: Program, t: Task, q: seq<Point>, c: Cert, b0: map<Key, nat>, e: Cert, b1: map<Key, nat>)
    requires Line(p, t, q) && TaskBehind(c) == TaskBehind(e) == t && Agree(p, t, q, b0, b1)
    requires Closed(p, c, b0) && Traceable(p, c, b0) && Closed(p, e, b1) && Traceable(p, e, b1)
    ensures c == e
  {
    hide Line, Closed, Traceable, Agree;
    AgreeBack(p, t, q, b0, b1);
    NoLarger(p, t, q, c, b0, e, b1);
    NoLarger(p, t, q, e, b1, c, b0);
    SameStates(p, t, q, c, b0, e, b1);
  }

  lemma SameStates(p: Program, t: Task, q: seq<Point>, c: Cert, b0: map<Key, nat>, e: Cert, b1: map<Key, nat>)
    requires Line(p, t, q) && TaskBehind(c) == TaskBehind(e) == t
    requires Closed(p, c, b0) && Traceable(p, c, b0) && Closed(p, e, b1) && Traceable(p, e, b1)
    ensures c.states == e.states
  {
    hide Line, Closed, Traceable;
    RecordsLine(p, t, q, c, b0);
    RecordsLine(p, t, q, e, b1);
    forall l | l in c.states ensures l in e.states && e.states[l] == c.states[l] {
      assert Point(l, c.states[l]).loc in e.states;
    }
    forall l | l in e.states ensures l in c.states {
      assert Point(l, e.states[l]).loc in c.states;
    }
  }

  // ---- no refusal ----

  /** Edges that all leave one node, and never come back to it, make no cycle. */
  lemma Star(edges: CallGraph.Graph, g: CallGraph.Graph, centre: int)
    requires g <= edges && forall e :: e in edges ==> e.0 == centre && e.1 != centre
    ensures !CallGraph.Cyclic(g)
  {
    forall w | CallGraph.Walk(g, w) ensures w[0] != w[|w| - 1] {
      assert CallGraph.Edge(g, w[0], w[0 + 1]);
      if |w| > 2 {
        assert CallGraph.Edge(g, w[1], w[1 + 1]);
      }
    }
  }

  /**
   The task and everything it calls run along the given lines, within the limit, from addresses that are not under
   analysis, recording only the given edges and callees; every callee returns.
   */
  ghost predicate Smooth(p: Program, active: seq<int>, t: Task, lines: map<Task, seq<Point>>, n: nat,
                         edges: CallGraph.Graph, callees: set<Key>)
    decreases n
  {
    && t in lines && Line(p, t, lines[t]) && |lines[t]| <= ITERATION_LIMIT
    && t.address !in active && t.address in p.owner
    && (forall x :: x in lines[t] ==> At(p, t, x).Flows? && At(p, t, x).edges <= edges)
    && forall x, k :: x in lines[t] && At(p, t, x).Flows? && k in At(p, t, x).calls ==>
         && k in callees && n > 0 && Smooth(p, active + [t.address], TaskOf(k), lines, n - 1, edges, callees)
         && Returns(p, TaskOf(k), lines[TaskOf(k)])
  }

  ghost predicate Returns(p: Program, t: Task, q: seq<Point>) {
    q != [] && At(p, t, q[|q| - 1]).Flows? && At(p, t, q[|q| - 1]).returning
  }

  lemma {:induction false} SmoothEdges(p: Program, active: seq<int>, t: Task, lines: map<Task, seq<Point>>, n: nat,
                                       edges: CallGraph.Graph, callees: set<Key>, chain: seq<Key>, e: (int, int))
    requires Smooth(p, active, t, lines, n, edges, callees) && Via(p, t, chain, e)
    ensures e in edges
    decreases |chain|
  {
    hide Derived, At, Line, Returns;
    if chain == [] {
      var x :| Derived(p, t, x) && At(p, t, x).Flows? && e in At(p, t, x).edges;
      OnLine(p, t, lines[t], x);
    } else {
      var x :| Derived(p, t, x) && At(p, t, x).Flows? && chain[0] in At(p, t, x).calls;
      OnLine(p, t, lines[t], x);
      SmoothEdges(p, active + [t.address], TaskOf(chain[0]), lines, n - 1, edges, callees, chain[1..], e);
    }
  }

  lemma {:induction false} SmoothCallees(p: Program, active: seq<int>, t: Task, lines: map<Task, seq<Point>>, n: nat,
                                         edges: CallGraph.Graph, callees: set<Key>, chain: seq<Key>, k: Key)
    requires Smooth(p, active, t, lines, n, edges, callees) && Reaches(p, t, chain, k)
    ensures k in callees
    decreases |chain|
  {
    hide Derived, At, Line, Returns;
    var j := if chain == [] then k else chain[0];
    var x :| Derived(p, t, x) && At(p, t, x).Flows? && j in At(p, t, x).calls;
    OnLine(p, t, lines[t], x);
    if chain != [] {
      SmoothCallees(p, active + [t.address], TaskOf(j), lines, n - 1, edges, callees, chain[1..], k);
    }
  }

  /** Only the given callees are analysed separately, and only the given edges recorded. */
  lemma SmoothLeaves(p: Program, t: Task, lines: map<Task, seq<Point>>, n: nat, edges: CallGraph.Graph,
                     callees: set<Key>, graph: CallGraph.Graph)
    requires Smooth(p, [], t, lines, n, edges, callees) && GraphGrew(p, t, {}, graph)
    ensures graph <= edges && forall k :: CalleeOf(p, t, k) ==> k in callees
  {
    hide Smooth, Via, Reaches;
    forall e | e in graph ensures e in edges {
      var chain :| Via(p, t, chain, e);
      SmoothEdges(p, [], t, lines, n, edges, callees, chain, e);
    }
    forall k | CalleeOf(p, t, k) ensures k in callees {
      var chain :| Reaches(p, t, chain, k);
      SmoothCallees(p, [], t, lines, n, edges, callees, chain, k);
    }
  }

  /** No reason for a refusal holds. */
  lemma {:induction false} NotRefused(p: Program, active: seq<int>, t: Task, lines: map<Task, seq<Point>>, n: nat,
                                      edges: CallGraph.Graph, callees: set<Key>, graph: CallGraph.Graph, why: Why)
    requires Smooth(p, active, t, lines, n, edges, callees) && !CallGraph.Cyclic(graph)
    requires why.NoReturn? ==> Returns(p, t, lines[t])
    ensures !Explains(p, active, t, graph, why)
    decreases why
  {
    hide Derived, Derivation, At, Line, LocOf, Returns, CallGraph.Cyclic;
    var q := lines[t];
    if Explains(p, active, t, graph, why) {
      match why
      case Reentered =>
      case Unowned =>
      case Stuck(x) => OnLine(p, t, q, x);
      case Split(x, s, other) => NoSplit(p, t, q, x, s, other);
      case Long(points) => FewPoints(p, t, q, points);
      case CalleeRefused(x, k, inner) =>
        OnLine(p, t, q, x);
        NotRefused(p, active + [t.address], TaskOf(k), lines, n - 1, edges, callees, graph, inner);
      case Recursive =>
      case NoReturn(states) => ReachesReturn(p, t, q, states);
    }
  }

  lemma NoSplit(p: Program, t: Task, q: seq<Point>, x: Point, s: Succ, other: Point)
    requires Line(p, t, q) && Derived(p, t, x) && Steps(p, t, x, s) && Derived(p, t, other)
    ensures other.loc == LocOf(s.pc, s.st) ==> other.st == s.st
  {
    hide Line, Derived, Steps, LocOf;
    OnLine(p, t, q, x);
    OnLine(p, t, q, other);
    Follows(p, t, q, x, s);
    if other.loc == LocOf(s.pc, s.st) {
      OneLocation(p, t, q, other, PointOf(s));
    }
  }

  lemma FewPoints(p: Program, t: Task, q: seq<Point>, points: seq<Point>)
    requires Line(p, t, q) && Derivation(p, t, points) && Distinct(points)
    ensures |points| <= |q|
  {
    var members := set x | x in q;
    forall i | 0 <= i < |points| ensures points[i] in members {
      DerivedOnLine(p, t, q, points, i);
    }
    hide Line, Derivation;
    DistinctLength(points, members);
    MembersLength(members, q);
  }

  /** States closed under successors hold the whole line, so they return when it does. */
  lemma ReachesReturn(p: Program, t: Task, q: seq<Point>, states: map<Loc, State>)
    requires Line(p, t, q) && Returns(p, t, q)
    ensures !NeverReturns(p, t, states)
  {
    hide Line, Derived, Transfer, LocOf;
    if NeverReturns(p, t, states) {
      HoldsLine(p, t, q, states, |q| - 1);
    }
  }

  lemma {:induction false} HoldsLine(p: Program, t: Task, q: seq<Point>, states: map<Loc, State>, i: nat)
    requires Line(p, t, q) && NeverReturns(p, t, states) && i < |q|
    ensures q[i].loc in states && states[q[i].loc] == q[i].st
  {
    hide Merge, LocOf, Derived, Transfer;
    if i > 0 {
      HoldsLine(p, t, q, states, i - 1);
      assert Lone(p, t, q, i - 1);
      assert At(p, t, q[i - 1]).succs[0] in At(p, t, Point(q[i - 1].loc, states[q[i - 1].loc])).succs;
    }
    OnLine(p, t, q, Point(q[i].loc, states[q[i].loc]));
    OneLocation(p, t, q, q[i], Point(q[i].loc, states[q[i].loc]));
  }
}
