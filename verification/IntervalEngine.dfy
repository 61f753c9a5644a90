/**
 The worklist of the interval engine. An accepted analysis leaves a certificate behind: a set of recorded
 states that already contains everything one more transfer could add, together with a depth no recorded
 state and no analysed call exceeds.
 */
module IntervalEngine {
  import opened Basics
  import opened Sets
  import opened AbstractValues
  import opened Machine
  import opened Transfers
  import opened Refusals
  import CallGraph

  datatype Cert = Cert(address: int, entry: State, options: Options, states: map<Loc, State>, maximum: nat)

  /** The cut the machine observes when it runs under these options. */
  function CutOf(o: Options): Cut {
    Cut(o.stopPcs, o.stopCalls)
  }

  ghost predicate WindowOnly(mem: map<int, AVal>) {
    forall k :: k in mem ==> InWindow(k)
  }

  ghost predicate Covered(states: map<Loc, State>, s: Succ) {
    LocOf(s.pc, s.st) in states && LeqState(s.st, states[LocOf(s.pc, s.st)])
  }

  ghost predicate CallCovered(bounds: map<Key, nat>, maximum: nat, depth: nat, k: Key) {
    k in bounds && depth + bounds[k] <= maximum
  }

  /** One more transfer adds nothing: every successor, depth and callee is already accounted for. */
  ghost predicate Settled(out: Outcome, states: map<Loc, State>, maximum: nat, bounds: map<Key, nat>) {
    && out.Flows?
    && out.depth <= maximum
    && (forall s :: s in out.succs ==> Covered(states, s))
    && (forall k :: k in out.calls ==> CallCovered(bounds, maximum, out.depth, k))
  }

  /** The stack depth a location's key records. */
  function DepthAt(l: Loc): int {
    if l.sp.Vals? && |l.sp.xs| == 1 then STACK - Only(l.sp.xs) else 0
  }

  /** The maximum is the depth of a recorded location, or that depth plus the bound of an analysed callee. */
  ghost predicate Reached(states: map<Loc, State>, maximum: nat, bounds: map<Key, nat>) {
    || maximum == 0
    || (exists l :: l in states && DepthAt(l) == maximum)
    || (exists l, k :: l in states && k in bounds && DepthAt(l) + bounds[k] == maximum)
  }

  lemma ReachedNothing()
    ensures forall states, bounds :: Reached(states, 0, bounds)
  {
  }

  lemma ReachedMonotone(s0: map<Loc, State>, b0: map<Key, nat>, s1: map<Loc, State>, b1: map<Key, nat>, maximum: nat)
    requires Reached(s0, maximum, b0)
    requires forall l :: l in s0 ==> l in s1
    requires forall k :: k in b0 ==> k in b1 && b1[k] == b0[k]
    ensures Reached(s1, maximum, b1)
  {
    hide DepthAt;
    if l, k :| l in s0 && k in b0 && DepthAt(l) + b0[k] == maximum {
      assert l in s1 && k in b1 && DepthAt(l) + b1[k] == maximum;
    }
  }

  ghost predicate Closed(p: Program, c: Cert, bounds: map<Key, nat>) {
    && Covered(c.states, Succ(c.address, c.entry))
    && Reached(c.states, c.maximum, bounds)
    && (forall l :: l in c.states ==>
           Settled(Transfer(p, c.options, c.entry, l.pc, c.states[l]), c.states, c.maximum, bounds))
    && (forall l :: l in c.states ==> c.states[l].phase == l.phase)
    && (WindowOnly(c.entry.mem) ==> forall l :: l in c.states ==> WindowOnly(c.states[l].mem))
  }

  /** An uncut certificate for the default entry of `k`. */
  ghost predicate CertFor(p: Program, bounds: map<Key, nat>, k: Key, c: Cert) {
    && c.address == k.address
    && c.entry == DefaultEntry(k.callback)
    && c.options.stopPcs == {} && c.options.stopCalls == {}
    && Closed(p, c, bounds)
  }

  /** The cached bounds and the certificates behind them. */
  ghost predicate Certified(p: Program, bounds: map<Key, nat>, certs: map<Key, Cert>) {
    && bounds.Keys == certs.Keys
    && forall k :: k in certs ==> certs[k].maximum == bounds[k] && CertFor(p, bounds, k, certs[k])
  }

  /** What the certificate is a certificate of. */
  function TaskBehind(c: Cert): Task {
    Task(c.address, c.entry, c.options)
  }

  /** Nothing is recorded without a reason: every state is derived, and the maximum is the use of a derived state. */
  ghost predicate Traceable(p: Program, c: Cert, bounds: map<Key, nat>) {
    && (forall l :: l in c.states ==> Derived(p, TaskBehind(c), Point(l, c.states[l])))
    && Earned(p, TaskBehind(c), bounds, c.maximum)
  }

  ghost predicate AllTraceable(p: Program, bounds: map<Key, nat>, certs: map<Key, Cert>) {
    forall k :: k in certs ==> Traceable(p, certs[k], bounds) && CanReturn(p, TaskBehind(certs[k]))
  }

  lemma TraceableMonotone(p: Program, c: Cert, b0: map<Key, nat>, b1: map<Key, nat>)
    requires Traceable(p, c, b0) && forall k :: k in b0 ==> k in b1 && b1[k] == b0[k]
    ensures Traceable(p, c, b1)
  {
    hide Derived, Earned;
    EarnedMonotone(p, TaskBehind(c), b0, b1, c.maximum);
  }

  lemma TraceableExtends(p: Program, b0: map<Key, nat>, c0: map<Key, Cert>, k: Key, c: Cert)
    requires AllTraceable(p, b0, c0) && k !in b0 && Traceable(p, c, b0) && CanReturn(p, TaskBehind(c))
    ensures AllTraceable(p, b0[k := c.maximum], c0[k := c]) && Traceable(p, c, b0[k := c.maximum])
  {
    hide Traceable, CanReturn;
    var b1, c1 := b0[k := c.maximum], c0[k := c];
    forall j | j in c1 ensures Traceable(p, c1[j], b1) && CanReturn(p, TaskBehind(c1[j])) {
      TraceableMonotone(p, c1[j], b0, b1);
    }
    assert c1[k] == c;
  }

  /** The certificates made during a task: of direct and indirect callees, under no options. */
  ghost predicate MadeFor(p: Program, t: Task, before: map<Key, Cert>, after: map<Key, Cert>) {
    && (forall k :: k in before ==> k in after && after[k] == before[k])
    && forall k :: k in after && k !in before ==> after[k].options == DEFAULTS && CalleeOf(p, t, k)
  }

  lemma MadeForNothing(p: Program, t: Task, certs: map<Key, Cert>)
    ensures MadeFor(p, t, certs, certs)
  {
  }

  lemma MadeForTwice(p: Program, t: Task, a: map<Key, Cert>, b: map<Key, Cert>, c: map<Key, Cert>)
    requires MadeFor(p, t, a, b) && MadeFor(p, t, b, c)
    ensures MadeFor(p, t, a, c)
  {
    hide CalleeOf;
  }

  /** What the separate analysis of a callee made is made for its caller too. */
  lemma MadeForInside(p: Program, t: Task, k: Key, a: map<Key, Cert>, b: map<Key, Cert>)
    requires Calls(p, t, k) && (forall j :: j in a ==> j in b && b[j] == a[j])
    requires forall j :: j in b && j !in a ==> b[j].options == DEFAULTS && (j == k || CalleeOf(p, TaskOf(k), j))
    ensures MadeFor(p, t, a, b)
  {
    hide Calls, CalleeOf;
    forall j | j in b && j !in a ensures CalleeOf(p, t, j) {
      if j == k {
        CalleeHere(p, t, k);
      } else {
        CalleeInside(p, t, k, j);
      }
    }
  }

  lemma SettledMonotone(out: Outcome, s0: map<Loc, State>, m0: nat, b0: map<Key, nat>,
                        s1: map<Loc, State>, m1: nat, b1: map<Key, nat>)
    requires Settled(out, s0, m0, b0)
    requires forall l :: l in s0 ==> l in s1 && LeqState(s0[l], s1[l])
    requires m0 <= m1
    requires forall k :: k in b0 ==> k in b1 && b1[k] == b0[k]
    ensures Settled(out, s1, m1, b1)
  {
    forall s | s in out.succs ensures Covered(s1, s) {
      assert Covered(s0, s);
      var l := LocOf(s.pc, s.st);
      LeqStateTransitive(s.st, s0[l], s1[l]);
    }
    forall k | k in out.calls ensures CallCovered(b1, m1, out.depth, k) {
      assert CallCovered(b0, m0, out.depth, k);
    }
  }

  lemma CertifiedExtends(p: Program, b0: map<Key, nat>, c0: map<Key, Cert>, k: Key, c: Cert)
    requires Certified(p, b0, c0) && k !in b0 && CertFor(p, b0, k, c)
    ensures Certified(p, b0[k := c.maximum], c0[k := c])
  {
    hide Transfer, Closed, DefaultEntry;
    var b1, c1 := b0[k := c.maximum], c0[k := c];
    assert b1.Keys == b0.Keys + {k} && c1.Keys == c0.Keys + {k};
    forall j | j in c1
      ensures c1[j].maximum == b1[j] && CertFor(p, b1, j, c1[j])
    {
      assert CertFor(p, b0, j, c1[j]);
      ClosedMonotone(p, c1[j], b0, b1);
    }
  }

  lemma CertifiedAt(p: Program, bounds: map<Key, nat>, certs: map<Key, Cert>, k: Key)
    requires Certified(p, bounds, certs) && k in bounds
    ensures k in certs && certs[k].maximum == bounds[k] && CertFor(p, bounds, k, certs[k])
  {
    assert k in certs.Keys;
  }

  lemma ClosedMonotone(p: Program, c: Cert, b0: map<Key, nat>, b1: map<Key, nat>)
    requires Closed(p, c, b0)
    requires forall k :: k in b0 ==> k in b1 && b1[k] == b0[k]
    ensures Closed(p, c, b1)
  {
    hide Transfer, DepthAt;
    ReachedMonotone(c.states, b0, c.states, b1, c.maximum);
    hide Reached;
    forall l | l in c.states
      ensures Settled(Transfer(p, c.options, c.entry, l.pc, c.states[l]), c.states, c.maximum, b1)
    {
      forall j | j in c.states ensures LeqState(c.states[j], c.states[j]) {
        LeqStateReflexive(c.states[j]);
      }
      SettledMonotone(Transfer(p, c.options, c.entry, l.pc, c.states[l]), c.states, c.maximum, b0, c.states, c.maximum,
          b1);
    }
  }

  lemma LeqStateReflexive(a: State)
    ensures LeqState(a, a)
  {
  }

  /** Facts are only ever recorded for words of the stack window. */
  lemma TransferKeepsWindow(p: Program, o: Options, entry: State, pc: int, st: State)
    requires WindowOnly(st.mem)
    requires Transfer(p, o, entry, pc, st).Flows?
    ensures forall s :: s in Transfer(p, o, entry, pc, st).succs ==> WindowOnly(s.st.mem)
  {
  }

  lemma WindowKept(p: Program, o: Options, entry: State, states: map<Loc, State>, l: Loc)
    requires Recording(p, o, entry, states) && l in states && Transfer(p, o, entry, l.pc, states[l]).Flows?
    ensures WindowOnly(entry.mem) ==>
              forall s :: s in Transfer(p, o, entry, l.pc, states[l]).succs ==> WindowOnly(s.st.mem)
  {
    hide Transfer, WindowOnly;
    if WindowOnly(entry.mem) {
      TransferKeepsWindow(p, o, entry, l.pc, states[l]);
    }
  }

  /** What the recorded states satisfy while the loop runs. */
  ghost predicate Recording(p: Program, o: Options, entry: State, states: map<Loc, State>) {
    && (forall l :: l in states ==> states[l].phase == l.phase)
    && (forall l :: l in states ==> states[l].regs[SP] == l.sp || states[l].regs[SP].Top?)
    && (WindowOnly(entry.mem) ==> forall l :: l in states ==> WindowOnly(states[l].mem))
  }

  ghost predicate SettledAt(p: Program, o: Options, entry: State, states: map<Loc, State>, maximum: nat,
                            bounds: map<Key, nat>, l: Loc) {
    l in states && Settled(Transfer(p, o, entry, l.pc, states[l]), states, maximum, bounds)
  }

  /** The loop invariant: only locations still on the worklist may be unsettled. */
  ghost predicate Exploring(p: Program, o: Options, entry: State, address: int, states: map<Loc, State>,
                            work: seq<Loc>, maximum: nat, bounds: map<Key, nat>) {
    && Recording(p, o, entry, states)
    && Covered(states, Succ(address, entry))
    && (forall l :: l in work ==> l in states)
    && (forall l :: l in states && l !in work ==> SettledAt(p, o, entry, states, maximum, bounds, l))
  }

  /** The states grew, and whatever changed is back on the worklist. */
  ghost predicate Grown(states: map<Loc, State>, states': map<Loc, State>, work: seq<Loc>, work': seq<Loc>) {
    && (forall l :: l in states ==> l in states' && LeqState(states[l], states'[l]))
    && (forall l :: l in states' && !(l in states && states[l] == states'[l]) ==> l in work')
    && (forall l :: l in work ==> l in work')
    && (forall l :: l in work' ==> l in states')
  }

  /** A transfer that flows reads its depth off the location's own stack pointer. */
  lemma DepthOfTransfer(p: Program, o: Options, entry: State, states: map<Loc, State>, l: Loc)
    requires Recording(p, o, entry, states) && l in states
    requires Transfer(p, o, entry, l.pc, states[l]).Flows?
    ensures l.pc in o.stopPcs ==> Transfer(p, o, entry, l.pc, states[l]) == Flows(0, [], [], {}, false)
    ensures l.pc !in o.stopPcs ==> Transfer(p, o, entry, l.pc, states[l]).depth == DepthAt(l)
  {
    hide Execute, RefineBranch, RefineZero, JumpAll;
  }

  /** Raising the maximum to a location's depth, or past its callees, keeps it reached. */
  lemma ReachedAdvances(states: map<Loc, State>, l: Loc, m0: nat, m1: nat,
                        b0: map<Key, nat>, b1: map<Key, nat>)
    requires Reached(states, m0, b0) && l in states
    requires forall k :: k in b0 ==> k in b1 && b1[k] == b0[k]
    requires m1 == m0 || m1 == DepthAt(l) || exists k :: k in b1 && DepthAt(l) + b1[k] == m1
    ensures Reached(states, m1, b1)
  {
    hide DepthAt;
    ReachedMonotone(states, b0, states, b1, m0);
  }

  lemma ExploringStart(p: Program, o: Options, entry: State, address: int, bounds: map<Key, nat>)
    ensures Exploring(p, o, entry, address, map[LocOf(address, entry) := entry], [LocOf(address, entry)], 0, bounds)
  {
    LeqStateReflexive(entry);
  }

  /** With an empty worklist everything is settled. */
  lemma ExploringEnds(p: Program, o: Options, entry: State, address: int, states: map<Loc, State>, maximum: nat,
                      bounds: map<Key, nat>)
    requires Exploring(p, o, entry, address, states, [], maximum, bounds) && Reached(states, maximum, bounds)
    ensures Closed(p, Cert(address, entry, o, states, maximum), bounds)
  {
    hide Transfer, Covered, Reached, Settled;
    forall l | l in states ensures Settled(Transfer(p, o, entry, l.pc, states[l]), states, maximum, bounds) {
      assert SettledAt(p, o, entry, states, maximum, bounds, l);
    }
  }

  /** Handling the head of the worklist re-establishes the loop invariant. */
  lemma ExploringAdvances(p: Program, o: Options, entry: State, address: int, out: Outcome,
                          s0: map<Loc, State>, w0: seq<Loc>, m0: nat, b0: map<Key, nat>,
                          s1: map<Loc, State>, w1: seq<Loc>, m1: nat, b1: map<Key, nat>)
    requires w0 != [] && Exploring(p, o, entry, address, s0, w0, m0, b0)
    requires out == Transfer(p, o, entry, w0[0].pc, s0[w0[0]]) && out.Flows?
    requires m0 <= m1 && out.depth <= m1
    requires forall k :: k in b0 ==> k in b1 && b1[k] == b0[k]
    requires forall k :: k in out.calls ==> CallCovered(b1, m1, out.depth, k)
    requires forall s :: s in out.succs ==> Covered(s1, s)
    requires Recording(p, o, entry, s1) && Grown(s0, s1, w0[1..], w1)
    ensures Exploring(p, o, entry, address, s1, w1, m1, b1)
  {
    hide Transfer, LeqState, LocOf;
    var first := LocOf(address, entry);
    assert Covered(s0, Succ(address, entry));
    LeqStateTransitive(entry, s0[first], s1[first]);
    forall l | l in s1 && l !in w1 ensures SettledAt(p, o, entry, s1, m1, b1, l) {
      assert l in s0 && s0[l] == s1[l];
      if l == w0[0] {
        assert Settled(out, s1, m1, b1);
      } else {
        assert l !in w0;
        assert SettledAt(p, o, entry, s0, m0, b0, l);
        SettledMonotone(Transfer(p, o, entry, l.pc, s0[l]), s0, m0, b0, s1, m1, b1);
      }
    }
  }

  /** Joins one successor into the recorded states; a join that would move sp is refused, and nothing else is. */
  method Record(ghost p: Program, ghost t: Task, states: map<Loc, State>, work: seq<Loc>, s: Succ,
                ghost d: seq<Point>, ghost src: Point)
    returns (ok: bool, states': map<Loc, State>, work': seq<Loc>, ghost d': seq<Point>)
    requires Recording(p, t.options, t.entry, states)
    requires WindowOnly(t.entry.mem) ==> WindowOnly(s.st.mem)
    requires forall l :: l in work ==> l in states
    requires Traced(p, t, states, d) && src in d && Steps(p, t, src, s)
    ensures ok <==> !(LocOf(s.pc, s.st) in states && states[LocOf(s.pc, s.st)].regs[SP] != s.st.regs[SP])
    ensures ok ==> Recording(p, t.options, t.entry, states') && Covered(states', s)
    ensures ok ==> Grown(states, states', work, work')
    ensures ok ==> Traced(p, t, states', d') && d <= d' && |d'| - |d| == |work'| - |work|
  {
    hide Traced, Steps;
    var l := LocOf(s.pc, s.st);
    var st := s.st;
    if l in states {
      var m := Merge(states[l], s.st);
      if m.None? {
        return false, states, work, d;
      }
      MergeAbove(states[l], s.st);
      st := m.value;
      if st == states[l] {
        return true, states, work, d;
      }
      TracedJoin(p, t, states, d, src, s, st);
    } else {
      TracedNew(p, t, states, d, src, s);
    }
    ok, states', work', d' := true, states[l := st], work + [l], d + [Point(l, st)];
  }

  method RecordAll(ghost p: Program, ghost t: Task, states: map<Loc, State>, work: seq<Loc>, succs: seq<Succ>,
                   ghost d: seq<Point>, ghost src: Point)
    returns (ok: bool, states': map<Loc, State>, work': seq<Loc>, ghost d': seq<Point>, ghost why: Why)
    requires Recording(p, t.options, t.entry, states)
    requires WindowOnly(t.entry.mem) ==> forall s :: s in succs ==> WindowOnly(s.st.mem)
    requires forall l :: l in work ==> l in states
    requires Traced(p, t, states, d) && src in d && forall s :: s in succs ==> Steps(p, t, src, s)
    ensures ok ==> Recording(p, t.options, t.entry, states') && Grown(states, states', work, work')
    ensures ok ==> forall s :: s in succs ==> Covered(states', s)
    ensures ok ==> Traced(p, t, states', d') && d <= d' && |d'| - |d| == |work'| - |work|
    ensures !ok ==> why.Split? && forall active, graph :: Explains(p, active, t, graph, why)
  {
    hide LocOf, Traced, Steps;
    ok, states', work', d', why := true, states, work, d, Unowned;
    forall l | l in states ensures LeqState(states[l], states[l]) {
      LeqStateReflexive(states[l]);
    }
    hide LeqState;
    var i := 0;
    while i < |succs|
      invariant 0 <= i <= |succs|
      invariant Recording(p, t.options, t.entry, states') && Grown(states, states', work, work')
      invariant forall s :: s in succs[..i] ==> Covered(states', s)
      invariant Traced(p, t, states', d') && d <= d' && |d'| - |d| == |work'| - |work|
    {
      ghost var before := states';
      assert succs[i] in succs && src in d';
      ghost var known := d';
      ok, states', work', d' := Record(p, t, states', work', succs[i], d', src);
      if !ok {
        why := SplitReason(p, t, before, known, src, succs[i]);
        return;
      }
      forall s | s in succs[..i] ensures Covered(states', s) {
        assert Covered(before, s);
        LeqStateTransitive(s.st, before[LocOf(s.pc, s.st)], states'[LocOf(s.pc, s.st)]);
      }
      forall l | l in states ensures LeqState(states[l], states'[l]) {
        LeqStateTransitive(states[l], before[l], states'[l]);
      }
      i := i + 1;
    }
  }

  /** Two derived states that meet at one location with different stack pointers. */
  lemma SplitReason(p: Program, t: Task, states: map<Loc, State>, d: seq<Point>, src: Point, s: Succ) returns (why: Why)
    requires Traced(p, t, states, d) && src in d && Steps(p, t, src, s)
    requires LocOf(s.pc, s.st) in states && states[LocOf(s.pc, s.st)].regs[SP] != s.st.regs[SP]
    ensures why.Split? && forall active, graph :: Explains(p, active, t, graph, why)
  {
    hide Derivation, Steps;
    var l := LocOf(s.pc, s.st);
    TracedDerived(p, t, states, d, l);
    why := Split(src, s, Point(l, states[l]));
  }

  class Engine {
    const p: Program
    var cache: map<Key, nat>
    var active: seq<int>
    var callGraph: set<(int, int)>
    ghost var certs: map<Key, Cert>

    constructor (p: Program)
      ensures this.p == p && Valid() && cache == map[] && certs == map[] && active == [] && callGraph == {}
    {
      this.p := p;
      cache := map[];
      active := [];
      callGraph := {};
      certs := map[];
    }

    ghost predicate Valid()
      reads this
    {
      Certified(p, cache, certs) && AllTraceable(p, cache, certs) && forall a :: a in active ==> a in p.owner
    }

    /** Addresses a nested analysis may still enter. */
    ghost function Unvisited(): set<int>
      reads this
    {
      p.owner.Keys - set a | a in active
    }

    /**
     The certificate is exact about the options it was made under, except that an unseeded, uncut analysis
     may be answered from the cache, whatever stages that certificate was made under. A refusal has a reason.
     */
    method Analyze(key: Key, seed: Option<State>, o: Options) returns (r: Option<nat>, ghost cert: Cert, ghost why: Why)
      requires Valid()
      modifies this
      ensures Valid()
      ensures forall k :: k in old(cache) ==> k in cache && cache[k] == old(cache[k])
      ensures forall k :: k in cache && k.address in old(active) ==> k in old(cache)
      ensures GraphGrew(p, TaskAsked(key, seed, o), old(callGraph), callGraph)
      ensures r.Some? ==> active == old(active)
      ensures r.Some? ==> cert.address == key.address && cert.maximum == r.value && Closed(p, cert, cache)
      ensures r.Some? ==> cert.entry == (if seed.Some? then seed.value else DefaultEntry(key.callback))
      ensures r.Some? ==> cert.options.stopPcs == o.stopPcs && cert.options.stopCalls == o.stopCalls
      ensures r.Some? ==> Traceable(p, cert, cache)
      ensures MadeFor(p, TaskAsked(key, seed, o), old(certs),
                      if r.Some? && !Special(seed, o) && key !in old(cache) then certs - {key} else certs)
      ensures r.Some? && (Special(seed, o) || key !in old(cache)) ==> cert.options == o && !CallGraph.Cyclic(callGraph)
      ensures r.Some? && !Special(seed, o) ==>
                  key in cache && cache[key] == r.value && key in certs && certs[key] == cert
      ensures !Special(seed, o) && key in old(cache) ==>
                key in old(certs) && r == Some(old(cache)[key]) && cert == old(certs)[key]
      ensures r.Some? ==> (cert.options.stages == o.stages <==>
                             Special(seed, o) || key !in old(cache)
                             || (key in old(certs) && old(certs)[key].options.stages == o.stages))
      ensures key.address in old(active) && (Special(seed, o) || key !in old(cache)) ==> r.None?
      ensures r.None? ==> Explains(p, old(active), TaskAsked(key, seed, o), callGraph, why)
      ensures r.None? && Special(seed, o) ==> !why.NoReturn?
      ensures r.Some? && (seed.Some? || o.stopCalls != {} || o.stopPcs != {} || o.inlineCalls) ==>
                cert.options == o && !CallGraph.Cyclic(callGraph)
      ensures r.Some? && seed.None? && o.stopCalls == {} && o.stopPcs == {} && !o.inlineCalls ==>
                key in cache && cache[key] == r.value && CanReturn(p, TaskBehind(cert))
      ensures r.None? && why.Long? ==> |why.points| > 100000
      decreases Unvisited(), 0
    {
      hide Transfer, Closed, Certified, AllTraceable, Traceable, CalleeOf, DefaultEntry, NeverReturns, Sourced,
          CanReturn;
      why := Reentered;
      if !Special(seed, o) && key in cache {
        CertifiedAt(p, cache, certs, key);
        assert Traceable(p, certs[key], cache) && CanReturn(p, TaskBehind(certs[key])) by {
          TraceableAt(p, cache, certs, key);
        }
        return Some(cache[key]), certs[key], why;
      }
      cert := Cert(key.address, DefaultEntry(key.callback), o, map[], 0);
      if key.address in active {
        return None, cert, Reentered;
      }
      if key.address !in p.owner {
        return None, cert, Unowned;
      }
      active := active + [key.address];
      assert Unvisited() < old(Unvisited()) by {
        assert key.address in old(Unvisited());
      }
      var entry := if seed.Some? then seed.value else DefaultEntry(key.callback);
      var ok, states, maximum, exits;
      ok, states, maximum, exits, why := Explore(key.address, entry, o, old(active));
      if !ok {
        return None, cert, why;
      }
      active := active[..|active| - 1];
      var acyclic := CallGraph.CheckAcyclic(callGraph);
      if !acyclic {
        return None, cert, Recursive;
      }
      if !Special(seed, o) && exits == 0 {
        return None, cert, NoReturn(states);
      }
      r := Some(maximum);
      cert := Cert(key.address, entry, o, states, maximum);
      if !Special(seed, o) {
        CertifiedExtends(p, cache, certs, key, cert);
        TraceableExtends(p, cache, certs, key, cert);
        assert key !in certs by { assert certs.Keys == cache.Keys by { CertifiedKeys(p, cache, certs); } }
        assert certs[key := cert] - {key} == certs;
        ClosedMonotone(p, cert, cache, cache[key := maximum]);
        cache, certs := cache[key := maximum], certs[key := cert];
      }
    }

    /** The worklist loop of one analysis; `around` are the addresses under analysis outside it. */
    method Explore(address: int, entry: State, o: Options, ghost around: seq<int>)
      returns (ok: bool, states: map<Loc, State>, maximum: nat, exits: nat, ghost why: Why)
      requires Valid() && active == around + [address]
      modifies this
      ensures Valid()
      ensures forall k :: k in old(cache) ==> k in cache && cache[k] == old(cache[k])
      ensures forall k :: k in cache && k.address in old(active) ==> k in old(cache)
      ensures GraphGrew(p, Task(address, entry, o), old(callGraph), callGraph)
      ensures MadeFor(p, Task(address, entry, o), old(certs), certs)
      ensures ok ==> active == old(active) && Closed(p, Cert(address, entry, o, states, maximum), cache)
      ensures ok ==> Traceable(p, Cert(address, entry, o, states, maximum), cache)
      ensures ok && exits == 0 ==> NeverReturns(p, Task(address, entry, o), states)
      ensures ok && exits > 0 ==> CanReturn(p, Task(address, entry, o))
      ensures !ok ==> !why.NoReturn? && Explains(p, around, Task(address, entry, o), callGraph, why)
      decreases Unvisited(), 2
    {
      hide Transfer, Certified, AllTraceable, Traceable, LeqState, Reached, DepthAt, Traced, Explains, GraphGrew,
          NeverReturns, Steps, Derived, Calls, Earned, Yields, MadeFor, CanReturn, Exits, Recording, Covered,
          SettledAt, LocOf, WindowOnly;
      ghost var t := Task(address, entry, o);
      ReachedNothing();
      var first := LocOf(address, entry);
      states := map[first := entry];
      ExploringStart(p, o, entry, address, cache);
      var work := [first];
      maximum, exits, why := 0, 0, Unowned;
      var count := 0;
      ghost var d := [Start(t)];
      TracedStart(p, t);
      GraphGrewNot(p, t, callGraph);
      EarnedNothing(p, t, cache);
      MadeForNothing(p, t, certs);
      ExitsNone(p, t, first, entry);
      while work != []
        invariant Valid() && active == old(active)
        invariant forall k :: k in old(cache) ==> k in cache && cache[k] == old(cache[k])
        invariant forall k :: k in cache && k.address in old(active) ==> k in old(cache)
        invariant Exploring(p, o, entry, address, states, work, maximum, cache)
        invariant Reached(states, maximum, cache)
        invariant Traced(p, t, states, d) && count + |work| == |d|
        invariant Earned(p, t, cache, maximum) && MadeFor(p, t, old(certs), certs)
        invariant GraphGrew(p, t, old(callGraph), callGraph)
        invariant Exits(p, t, states, work, exits)
        decreases ITERATION_LIMIT - count
      {
        count := count + 1;
        if count > ITERATION_LIMIT {
          why := LongReason(p, around, t, callGraph, states, d);
          return false, states, maximum, exits, why;
        }
        ghost var s0, w0, m0, b0, e0, g0 := states, work, maximum, cache, exits, callGraph;
        var current := work[0];
        work := work[1..];
        var st := states[current];
        var out := Transfer(p, o, entry, current.pc, st);
        ghost var here := Point(current, st);
        TracedDerived(p, t, states, d, current);
        if out.Rejected? {
          why := StuckReason(p, around, t, callGraph, here);
          return false, states, maximum, exits, why;
        }
        DepthOfTransfer(p, o, entry, states, current);
        callGraph := callGraph + out.edges;
        GraphGrewHere(p, t, here, g0);
        GraphGrewTwice(p, t, old(callGraph), g0, callGraph);
        ghost var g1 := callGraph;
        if out.depth > maximum {
          maximum := out.depth;
          EarnedDepth(p, t, here, cache);
        }
        CallsHere(p, t, here);
        ghost var certs0, m1 := certs, maximum;
        ghost var refused, inner;
        ok, maximum, refused, inner := AnalyzeCalls(out.depth, out.calls, maximum, t);
        GraphGrewTwice(p, t, old(callGraph), g1, callGraph);
        MadeForTwice(p, t, old(certs), certs0, certs);
        if !ok {
          why := CalleeReason(p, around, t, callGraph, here, refused, inner);
          return false, states, maximum, exits, why;
        }
        if out.returning {
          exits := exits + 1;
        }
        WindowKept(p, o, entry, states, current);
        HereSteps(p, t, states, d, current);
        ghost var w1, d0 := work, d;
        ok, states, work, d, why := RecordAll(p, t, states, work, out.succs, d, here);
        if !ok {
          return;
        }
        EarnedAdvances(p, t, here, b0, cache, m1, maximum);
        ReachedAdvances(s0, current, m0, maximum, b0, cache);
        ReachedMonotone(s0, cache, states, cache, maximum);
        ExploringAdvances(p, o, entry, address, out, s0, w0, m0, b0, states, work, maximum, cache);
        ExitsAdvance(p, t, s0, w0, e0, states, work, exits);
      }
      ok := true;
      ExploringEnds(p, o, entry, address, states, maximum, cache);
      AllRecorded(p, t, states, d, maximum, cache);
      ExitsDecide(p, t, states, d, maximum, cache, exits);
    }

    /** Analyses the callees of one jump and raises the maximum to cover each of them. */
    method AnalyzeCalls(depth: nat, calls: seq<Key>, maximum: nat, ghost t: Task)
      returns (fits: bool, maximum': nat, ghost refused: Key, ghost why: Why)
      requires Valid() && forall k :: k in calls ==> Calls(p, t, k)
      modifies this
      ensures Valid()
      ensures forall k :: k in old(cache) ==> k in cache && cache[k] == old(cache[k])
      ensures forall k :: k in cache && k.address in old(active) ==> k in old(cache)
      ensures GraphGrew(p, t, old(callGraph), callGraph)
      ensures MadeFor(p, t, old(certs), certs)
      ensures fits ==> active == old(active) && maximum <= maximum'
      ensures fits ==> maximum' == maximum || exists k :: k in calls && k in cache && depth + cache[k] == maximum'
      ensures fits ==> forall k :: k in calls ==> CallCovered(cache, maximum', depth, k)
      ensures !fits ==> refused in calls && Explains(p, old(active), TaskOf(refused), callGraph, why)
      decreases Unvisited(), 1, |calls|
    {
      hide Transfer, Closed, Certified, AllTraceable, Traceable, CalleeOf, DefaultEntry, Explains, GraphGrew, Calls;
      fits, maximum', refused, why := true, maximum, Key(0, Top), Unowned;
      GraphGrewNot(p, t, callGraph);
      if calls == [] {
        return;
      }
      fits, maximum', refused, why := AnalyzeCalls(depth, calls[..|calls| - 1], maximum, t);
      if !fits {
        return;
      }
      var k := calls[|calls| - 1];
      ghost var known, grown, certs0 := cache, callGraph, certs;
      var bound: Option<nat>;
      ghost var made: Cert;
      bound, made, why := Analyze(k, None, DEFAULTS);
      GraphGrewInside(p, t, k, grown, callGraph);
      GraphGrewTwice(p, t, old(callGraph), grown, callGraph);
      MadeForInside(p, t, k, certs0, certs);
      MadeForTwice(p, t, old(certs), certs0, certs);
      if bound.None? {
        return false, maximum', k, why;
      }
      ghost var before := maximum';
      if depth + bound.value > maximum' {
        maximum' := depth + bound.value;
      }
      forall j | j in calls ensures CallCovered(cache, maximum', depth, j) {
        if j != k {
          assert j in calls[..|calls| - 1];
          assert CallCovered(known, before, depth, j);
        }
      }
    }
  }

  function TaskAsked(key: Key, seed: Option<State>, o: Options): Task {
    Task(key.address, if seed.Some? then seed.value else DefaultEntry(key.callback), o)
  }

  lemma GraphGrewNot(p: Program, t: Task, g: CallGraph.Graph)
    ensures GraphGrew(p, t, g, g)
  {
  }

  lemma TraceableAt(p: Program, bounds: map<Key, nat>, certs: map<Key, Cert>, k: Key)
    requires AllTraceable(p, bounds, certs) && k in certs
    ensures Traceable(p, certs[k], bounds) && CanReturn(p, TaskBehind(certs[k]))
  {
    hide Traceable, CanReturn;
  }

  lemma CertifiedKeys(p: Program, bounds: map<Key, nat>, certs: map<Key, Cert>)
    requires Certified(p, bounds, certs)
    ensures bounds.Keys == certs.Keys
  {
    hide CertFor;
  }

  /** A maximum raised to the depth here, or to the depth and a callee's bound, is earned. */
  lemma EarnedAdvances(p: Program, t: Task, x: Point, b0: map<Key, nat>, b1: map<Key, nat>, m0: nat, m1: nat)
    requires Derived(p, t, x) && At(p, t, x).Flows? && Earned(p, t, b0, m0)
    requires forall k :: k in b0 ==> k in b1 && b1[k] == b0[k]
    requires m1 == m0 || exists k :: k in At(p, t, x).calls && k in b1 && At(p, t, x).depth + b1[k] == m1
    ensures Earned(p, t, b1, m1)
  {
    hide Derived, At;
    EarnedMonotone(p, t, b0, b1, m0);
    if m1 != m0 {
      assert Yields(p, t, x, b1, m1);
    }
  }

  lemma AllRecorded(p: Program, t: Task, states: map<Loc, State>, d: seq<Point>, maximum: nat, bounds: map<Key, nat>)
    requires Traced(p, t, states, d) && Earned(p, t, bounds, maximum)
    ensures Traceable(p, Cert(t.address, t.entry, t.options, states, maximum), bounds)
  {
    hide Traced, Derived, Earned;
    forall l | l in states ensures Derived(p, t, Point(l, states[l])) {
      TracedDerived(p, t, states, d, l);
    }
  }

  lemma LongReason(p: Program, around: seq<int>, t: Task, graph: CallGraph.Graph, states: map<Loc, State>,
      d: seq<Point>)
    returns (why: Why)
    requires Traced(p, t, states, d) && |d| > ITERATION_LIMIT
    ensures why.Long? && Explains(p, around, t, graph, why)
  {
    hide Derivation;
    why := Long(d);
  }

  lemma StuckReason(p: Program, around: seq<int>, t: Task, graph: CallGraph.Graph, x: Point) returns (why: Why)
    requires Derived(p, t, x) && At(p, t, x).Rejected?
    ensures why.Stuck? && Explains(p, around, t, graph, why)
  {
    hide Derived, At;
    why := Stuck(x);
  }

  lemma CalleeReason(p: Program, around: seq<int>, t: Task, graph: CallGraph.Graph, x: Point, k: Key, inner: Why)
    returns (why: Why)
    requires Derived(p, t, x) && At(p, t, x).Flows? && k in At(p, t, x).calls
    requires Explains(p, around + [t.address], TaskOf(k), graph, inner)
    ensures why.CalleeRefused? && Explains(p, around, t, graph, why)
  {
    hide Derived, At;
    why := CalleeRefused(x, k, inner);
  }

  lemma HereSteps(p: Program, t: Task, states: map<Loc, State>, d: seq<Point>, l: Loc)
    requires Traced(p, t, states, d) && l in states
    requires Transfer(p, t.options, t.entry, l.pc, states[l]).Flows?
    ensures Point(l, states[l]) in d
    ensures forall s :: s in Transfer(p, t.options, t.entry, l.pc, states[l]).succs ==>
                Steps(p, t, Point(l, states[l]), s)
  {
    hide Transfer, Derivation;
  }

  lemma ReturnHere(p: Program, t: Task, x: Point)
    requires Derived(p, t, x) && At(p, t, x).Flows? && At(p, t, x).returning
    ensures CanReturn(p, t)
  {
    hide Derived, At;
  }

  /** No recorded state off the worklist returns. */
  ghost predicate SilentOff(p: Program, t: Task, states: map<Loc, State>, work: seq<Loc>) {
    forall l :: l in states && l !in work ==> var out := At(p, t, Point(l, states[l])); out.Flows? && !out.returning
  }

  /** The count of exits so far: none while no recorded state off the worklist returns, and some when one did. */
  ghost predicate Exits(p: Program, t: Task, states: map<Loc, State>, work: seq<Loc>, exits: nat) {
    if exits == 0 then SilentOff(p, t, states, work) else CanReturn(p, t)
  }

  lemma ExitsNone(p: Program, t: Task, l: Loc, st: State)
    ensures Exits(p, t, map[l := st], [l], 0)
  {
  }

  lemma ExitsAdvance(p: Program, t: Task, s0: map<Loc, State>, w0: seq<Loc>, e0: nat, s1: map<Loc, State>,
      w1: seq<Loc>, e1: nat)
    requires w0 != [] && w0[0] in s0 && Exits(p, t, s0, w0, e0) && Grown(s0, s1, w0[1..], w1)
    requires Derived(p, t, Point(w0[0], s0[w0[0]])) && At(p, t, Point(w0[0], s0[w0[0]])).Flows?
    requires e1 == e0 + if At(p, t, Point(w0[0], s0[w0[0]])).returning then 1 else 0
    ensures Exits(p, t, s1, w1, e1)
  {
    hide At, LeqState, Derived;
    if e1 == 0 {
      forall l | l in s1 && l !in w1 ensures At(p, t, Point(l, s1[l])).Flows? && !At(p, t, Point(l, s1[l])).returning {
        assert l in s0 && s0[l] == s1[l];
        assert l == w0[0] || l !in w0;
      }
    } else if e0 == 0 {
      ReturnHere(p, t, Point(w0[0], s0[w0[0]]));
    }
  }

  lemma ExitsDecide(p: Program, t: Task, states: map<Loc, State>, d: seq<Point>, maximum: nat, bounds: map<Key, nat>,
      exits: nat)
    requires Traced(p, t, states, d) && Exits(p, t, states, [], exits)
    requires Exploring(p, t.options, t.entry, t.address, states, [], maximum, bounds)
    ensures if exits == 0 then NeverReturns(p, t, states) else CanReturn(p, t)
  {
    hide Traced, Exploring, NeverReturns, CanReturn, SilentOff;
    if exits == 0 {
      SilentThroughout(p, t, states, d, maximum, bounds);
    }
  }

  lemma SilentThroughout(p: Program, t: Task, states: map<Loc, State>, d: seq<Point>, maximum: nat, bounds: map<Key,
      nat>)
    requires Traced(p, t, states, d) && SilentOff(p, t, states, [])
    requires Exploring(p, t.options, t.entry, t.address, states, [], maximum, bounds)
    ensures NeverReturns(p, t, states)
  {
    hide Transfer, Derived, LeqState, Derivation, Traced;
    forall l | l in states
      ensures Derived(p, t, Point(l, states[l]))
      ensures At(p, t, Point(l, states[l])).Flows? && !At(p, t, Point(l, states[l])).returning
      ensures forall s :: s in At(p, t, Point(l, states[l])).succs ==> LocOf(s.pc, s.st) in states
    {
      TracedDerived(p, t, states, d, l);
      assert SettledAt(p, t.options, t.entry, states, maximum, bounds, l);
      assert forall s :: s in At(p, t, Point(l, states[l])).succs ==> Covered(states, s);
    }
  }

  /** Analyses whose result depends on more than the key bypass the cache; stage checks alone do not. */
  predicate Special(seed: Option<State>, o: Options) {
    seed.Some? || o.stopCalls != {} || o.inlineCalls || o.stopPcs != {}
  }
}
