/**
 Why an analysis of the interval engine is refused. Every abstract state the worklist ever records is derived from
 the entry by transfers and joins; a refusal points at a derived state, or at a callee refused in turn.
 */
module Refusals {
  import opened Basics
  import opened Sets
  import opened AbstractValues
  import opened Transfers
  import opened Machine
  import CallGraph

  const ITERATION_LIMIT: nat := 100000

  /** What one analysis is asked. */
  datatype Task = Task(address: int, entry: State, options: Options)

  /** The separate analysis of a callee. */
  function TaskOf(k: Key): Task {
    Task(k.address, DefaultEntry(k.callback), DEFAULTS)
  }

  datatype Point = Point(loc: Loc, st: State)

  function Start(t: Task): Point {
    Point(LocOf(t.address, t.entry), t.entry)
  }

  function At(p: Program, t: Task, x: Point): Outcome {
    Transfer(p, t.options, t.entry, x.loc.pc, x.st)
  }

  ghost predicate Steps(p: Program, t: Task, x: Point, s: Succ) {
    At(p, t, x).Flows? && s in At(p, t, x).succs
  }

  /** The point records the successor, alone or joined with what an earlier point recorded there. */
  ghost predicate Records(d: seq<Point>, i: nat, s: Succ)
    requires i < |d|
  {
    && d[i].loc == LocOf(s.pc, s.st)
    && (d[i].st == s.st || exists k :: 0 <= k < i && d[k].loc == d[i].loc && Merge(d[k].st, s.st) == Some(d[i].st))
  }

  ghost predicate Arises(p: Program, t: Task, d: seq<Point>, i: nat)
    requires i < |d|
  {
    d[i] == Start(t) || exists j, s :: 0 <= j < i && Steps(p, t, d[j], s) && Records(d, i, s)
  }

  ghost predicate Derivation(p: Program, t: Task, d: seq<Point>) {
    forall i :: 0 <= i < |d| ==> Arises(p, t, d, i)
  }

  ghost predicate Derived(p: Program, t: Task, x: Point) {
    exists d :: Derivation(p, t, d) && x in d
  }

  datatype Why =
    | Reentered
    | Unowned
    | Stuck(at: Point)
    | Split(at: Point, succ: Succ, other: Point)
    | Long(points: seq<Point>)
    | CalleeRefused(at: Point, callee: Key, why: Why)
    | Recursive
    | NoReturn(states: map<Loc, State>)

  /** Closed under successors, made of derived states, and never returning. */
  ghost predicate NeverReturns(p: Program, t: Task, states: map<Loc, State>) {
    && Start(t).loc in states
    && forall l :: l in states ==>
         && Derived(p, t, Point(l, states[l]))
         && var out := At(p, t, Point(l, states[l]));
            out.Flows? && !out.returning && forall s :: s in out.succs ==> LocOf(s.pc, s.st) in states
  }

  /** Some derived state returns. */
  ghost predicate CanReturn(p: Program, t: Task) {
    exists x :: Derived(p, t, x) && At(p, t, x).Flows? && At(p, t, x).returning
  }

  /** The reason holds of the task, of the addresses under analysis around it and of the recorded call graph. */
  ghost predicate Explains(p: Program, active: seq<int>, t: Task, graph: CallGraph.Graph, why: Why)
    decreases why
  {
    match why
    case Reentered => t.address in active
    case Unowned => t.address !in p.owner
    case Stuck(at) => Derived(p, t, at) && At(p, t, at).Rejected?
    case Split(at, s, other) =>
      Derived(p, t, at) && Steps(p, t, at, s) && Derived(p, t, other)
      && other.loc == LocOf(s.pc, s.st) && other.st.regs[SP] != s.st.regs[SP]
    case Long(points) => Derivation(p, t, points) && Distinct(points) && |points| > ITERATION_LIMIT
    case CalleeRefused(at, k, inner) =>
      Derived(p, t, at) && At(p, t, at).Flows? && k in At(p, t, at).calls
      && Explains(p, active + [t.address], TaskOf(k), graph, inner)
    case Recursive => CallGraph.Cyclic(graph)
    case NoReturn(states) => NeverReturns(p, t, states)
  }

  ghost predicate HasEdge(p: Program, t: Task, e: (int, int)) {
    exists x :: Derived(p, t, x) && At(p, t, x).Flows? && e in At(p, t, x).edges
  }

  /** A derived state of the task calls the callee. */
  ghost predicate Calls(p: Program, t: Task, k: Key) {
    exists x :: Derived(p, t, x) && At(p, t, x).Flows? && k in At(p, t, x).calls
  }

  /** A callee of a callee and so on, the last of them `k`. */
  ghost predicate Reaches(p: Program, t: Task, chain: seq<Key>, k: Key)
    decreases |chain|
  {
    if chain == [] then Calls(p, t, k) else Calls(p, t, chain[0]) && Reaches(p, TaskOf(chain[0]), chain[1..], k)
  }

  ghost predicate CalleeOf(p: Program, t: Task, k: Key) {
    exists chain :: Reaches(p, t, chain, k)
  }

  lemma CalleeHere(p: Program, t: Task, k: Key)
    requires Calls(p, t, k)
    ensures CalleeOf(p, t, k)
  {
    hide Calls;
    assert Reaches(p, t, [], k);
  }

  lemma CalleeInside(p: Program, t: Task, k: Key, inner: Key)
    requires Calls(p, t, k) && CalleeOf(p, TaskOf(k), inner)
    ensures CalleeOf(p, t, inner)
  {
    hide Calls;
    var chain :| Reaches(p, TaskOf(k), chain, inner);
    assert ([k] + chain)[1..] == chain;
    assert Reaches(p, t, [k] + chain, inner);
  }

  /** The stack use of a derived state: its depth, or its depth and an analysed callee's bound. */
  ghost predicate Yields(p: Program, t: Task, x: Point, bounds: map<Key, nat>, m: nat) {
    var out := At(p, t, x);
    out.Flows? && (out.depth == m || exists k :: k in out.calls && k in bounds && out.depth + bounds[k] == m)
  }

  ghost predicate Earned(p: Program, t: Task, bounds: map<Key, nat>, m: nat) {
    m == 0 || exists x :: Derived(p, t, x) && Yields(p, t, x, bounds, m)
  }

  lemma EarnedMonotone(p: Program, t: Task, b0: map<Key, nat>, b1: map<Key, nat>, m: nat)
    requires Earned(p, t, b0, m) && forall k :: k in b0 ==> k in b1 && b1[k] == b0[k]
    ensures Earned(p, t, b1, m)
  {
    hide Derived, At;
    if m != 0 {
      var x :| Derived(p, t, x) && Yields(p, t, x, b0, m);
      assert Yields(p, t, x, b1, m);
    }
  }

  lemma EarnedDepth(p: Program, t: Task, x: Point, bounds: map<Key, nat>)
    requires Derived(p, t, x) && At(p, t, x).Flows?
    ensures Earned(p, t, bounds, At(p, t, x).depth)
  {
    hide Derived, At;
    assert Yields(p, t, x, bounds, At(p, t, x).depth);
  }

  lemma EarnedNothing(p: Program, t: Task, bounds: map<Key, nat>)
    ensures Earned(p, t, bounds, 0)
  {
  }

  /** The edge was recorded at the end of a chain of callees. */
  ghost predicate Via(p: Program, t: Task, chain: seq<Key>, e: (int, int))
    decreases |chain|
  {
    if chain == [] then HasEdge(p, t, e) else Calls(p, t, chain[0]) && Via(p, TaskOf(chain[0]), chain[1..], e)
  }

  /** The edge was recorded by the task or by the separate analysis of a direct or indirect callee. */
  ghost predicate Sourced(p: Program, t: Task, e: (int, int)) {
    exists chain :: Via(p, t, chain, e)
  }

  /** The call graph grew by sourced edges only. */
  ghost predicate GraphGrew(p: Program, t: Task, before: CallGraph.Graph, after: CallGraph.Graph) {
    before <= after && forall e :: e in after ==> e in before || Sourced(p, t, e)
  }

  lemma GraphGrewTwice(p: Program, t: Task, a: CallGraph.Graph, b: CallGraph.Graph, c: CallGraph.Graph)
    requires GraphGrew(p, t, a, b) && GraphGrew(p, t, b, c)
    ensures GraphGrew(p, t, a, c)
  {
    hide Sourced;
  }

  /** What a callee's analysis recorded is sourced for its caller too. */
  lemma GraphGrewInside(p: Program, t: Task, k: Key, a: CallGraph.Graph, b: CallGraph.Graph)
    requires Calls(p, t, k) && GraphGrew(p, TaskOf(k), a, b)
    ensures GraphGrew(p, t, a, b)
  {
    hide HasEdge, Calls;
    forall e | e in b && e !in a ensures Sourced(p, t, e) {
      var chain :| Via(p, TaskOf(k), chain, e);
      assert ([k] + chain)[1..] == chain;
      assert Via(p, t, [k] + chain, e);
    }
  }

  lemma GraphGrewHere(p: Program, t: Task, x: Point, a: CallGraph.Graph)
    requires Derived(p, t, x) && At(p, t, x).Flows?
    ensures GraphGrew(p, t, a, a + At(p, t, x).edges)
  {
    hide Derived, At;
    forall e | e in At(p, t, x).edges ensures Sourced(p, t, e) {
      assert HasEdge(p, t, e);
      assert Via(p, t, [], e);
    }
  }

  lemma CallsHere(p: Program, t: Task, x: Point)
    requires Derived(p, t, x) && At(p, t, x).Flows?
    ensures forall k :: k in At(p, t, x).calls ==> Calls(p, t, k)
  {
    hide Derived, At;
  }

  // ---- the derivation behind the recorded states ----

  /** The derivation holds every recorded state, and nothing above the recorded ones. */
  ghost predicate Traced(p: Program, t: Task, states: map<Loc, State>, d: seq<Point>) {
    && Derivation(p, t, d) && Distinct(d)
    && (forall l :: l in states ==> Point(l, states[l]) in d)
    && forall x :: x in d ==> x.loc in states && LeqState(x.st, states[x.loc])
  }

  lemma TracedStart(p: Program, t: Task)
    ensures Traced(p, t, map[Start(t).loc := t.entry], [Start(t)])
  {
    assert LeqState(t.entry, t.entry);
    assert Arises(p, t, [Start(t)], 0);
  }

  lemma TracedDerived(p: Program, t: Task, states: map<Loc, State>, d: seq<Point>, l: Loc)
    requires Traced(p, t, states, d) && l in states
    ensures Derived(p, t, Point(l, states[l]))
  {
    hide Derivation;
  }

  lemma Antisymmetric(a: State, b: State)
    requires LeqState(a, b) && LeqState(b, a)
    ensures a == b
  {
    forall r | 0 <= r < 32 ensures a.regs[r] == b.regs[r] {
      assert Leq(a.regs[r], b.regs[r]) && Leq(b.regs[r], a.regs[r]);
    }
    assert a.regs == b.regs;
    forall k ensures k in a.mem <==> k in b.mem {
      if k in a.mem { assert k in b.mem; }
    }
    forall k | k in a.mem ensures a.mem[k] == b.mem[k] {
      assert Leq(a.mem[k], b.mem[k]) && Leq(b.mem[k], a.mem[k]);
    }
    assert a.mem == b.mem;
  }

  lemma DerivationExtends(p: Program, t: Task, d: seq<Point>, x: Point, src: Point, s: Succ)
    requires Derivation(p, t, d) && src in d && Steps(p, t, src, s) && x.loc == LocOf(s.pc, s.st)
    requires x.st == s.st || exists y :: y in d && y.loc == x.loc && Merge(y.st, s.st) == Some(x.st)
    ensures Derivation(p, t, d + [x])
  {
    hide Steps, Merge, LocOf;
    var all := d + [x];
    forall i | 0 <= i < |all| ensures Arises(p, t, all, i) {
      if i < |d| {
        assert Arises(p, t, d, i);
        ArisesLonger(p, t, d, x, i);
      } else {
        var j :| 0 <= j < |d| && d[j] == src;
        assert all[j] == src;
        if x.st != s.st {
          var y :| y in d && y.loc == x.loc && Merge(y.st, s.st) == Some(x.st);
          var k :| 0 <= k < |d| && d[k] == y;
          assert all[k] == y;
        }
        assert Records(all, i, s);
      }
    }
  }

  lemma ArisesLonger(p: Program, t: Task, d: seq<Point>, x: Point, i: nat)
    requires i < |d| && Arises(p, t, d, i)
    ensures Arises(p, t, d + [x], i)
  {
    hide Steps, Merge, LocOf;
    var all := d + [x];
    assert forall k :: 0 <= k <= i ==> all[k] == d[k];
    if d[i] != Start(t) {
      var j, s :| 0 <= j < i && Steps(p, t, d[j], s) && Records(d, i, s);
      assert Records(all, i, s);
      assert Steps(p, t, all[j], s);
    }
  }

  /** A first state at a location. */
  lemma TracedNew(p: Program, t: Task, states: map<Loc, State>, d: seq<Point>, src: Point, s: Succ)
    requires Traced(p, t, states, d) && src in d && Steps(p, t, src, s) && LocOf(s.pc, s.st) !in states
    ensures Traced(p, t, states[LocOf(s.pc, s.st) := s.st], d + [Point(LocOf(s.pc, s.st), s.st)])
  {
    hide Steps, Derivation, LocOf;
    var x := Point(LocOf(s.pc, s.st), s.st);
    DerivationExtends(p, t, d, x, src, s);
    assert LeqState(s.st, s.st);
    hide LeqState;
    assert x !in d;
  }

  /** A larger state at a recorded location. */
  lemma TracedJoin(p: Program, t: Task, states: map<Loc, State>, d: seq<Point>, src: Point, s: Succ, m: State)
    requires Traced(p, t, states, d) && src in d && Steps(p, t, src, s) && LocOf(s.pc, s.st) in states
    requires states[LocOf(s.pc, s.st)].phase == s.st.phase
    requires Merge(states[LocOf(s.pc, s.st)], s.st) == Some(m) && m != states[LocOf(s.pc, s.st)]
    ensures Traced(p, t, states[LocOf(s.pc, s.st) := m], d + [Point(LocOf(s.pc, s.st), m)])
  {
    hide Steps, Derivation, LocOf;
    var l := LocOf(s.pc, s.st);
    var x := Point(l, m);
    assert Point(l, states[l]) in d;
    DerivationExtends(p, t, d, x, src, s);
    MergeAbove(states[l], s.st);
    assert LeqState(m, m);
    hide LeqState, Merge;
    if x in d {
      Antisymmetric(m, states[l]);
    }
    forall y | y in d && y.loc == l ensures LeqState(y.st, m) {
      LeqStateTransitive(y.st, states[l], m);
    }
  }
}
