/**
 Why stage calls have to be direct: one jump that may call either of the first two stages advances the phase past
 both, so an accepted analysis has a run that skips the first stage and still reaches the cut.
 */
module StageWitness {
  import opened Basics
  import opened Words
  import opened Sets
  import opened AbstractValues
  import opened Machine
  import opened Transfers
  import opened Refusals
  import opened IntervalEngine
  import opened StepCoverage
  import opened StackBound
  import opened StageProtocol
  import opened StraightLine
  import CallGraph

  /** One dispatch over the first two stages, in the order the engine visits them, counts both. */
  lemma OneJumpTwoPhases(p: Program, o: Options, s: Site, regs: Regs, first: int, second: int)
    requires first in p.owner && second in p.owner && first < second && first != s.owner && second != s.owner
    requires |o.stages| >= 2 && o.stages[0] == first && o.stages[1] == second
    requires p.once == {} && p.exceptional == {} && o.stopCalls == {}
    ensures var j := JumpAll(p, o, s, Jump(regs, {}, 0, [], {}), SortedSeq({first, second}));
            j.Jump? && j.phase == 2
  {
    var start := Jump(regs, {}, 0, [], {});
    SortedTwo(first, second);
    assert [first, second][..1] == [first] && [first][..0] == [];
    assert IndexOf(o.stages, second) == 1 by { assert o.stages[1..][0] == second; }
    var one := JumpTo(p, o, s, start, first);
    assert JumpAll(p, o, s, start, [first]) == one && one.phase == 1;
    assert JumpTo(p, o, s, one, second).phase == 2;
  }

  lemma SortedTwo(x: int, y: int)
    requires x < y
    ensures SortedSeq({x, y}) == [x, y]
  {
    assert {x, y} - {x} == {y};
    SortedOne(y);
    assert x in {x, y} && y in {x, y};
    assert SortedSeq({x, y}) == [x] + SortedSeq({x, y} - {x});
  }

  // ---- an accepted analysis ----

  /** 0: jalr ra, a5; jal ra, 300; the cut. 100, 200, 300: jr ra. */
  function Code(): Program {
    Program(map[0 := Ins(JumpReg(1, 15), 4), 4 := Ins(Jal(1, 300), 4),
                100 := Ins(JumpReg(0, 1), 4), 200 := Ins(JumpReg(0, 1), 4), 300 := Ins(JumpReg(0, 1), 4)],
            map[0 := 0, 4 := 0, 100 := 100, 200 := 200, 300 := 300], {}, {}, [])
  }

  /** Begin, hook and end, and the cut after them. */
  const STAGED: Options := Options([100, 200, 300], {8}, {}, false, {})

  /** Seeded with a5 holding either of the first two stages. */
  function Seeded(): State {
    State(DefaultEntry(Top).regs[15 := Vals({100, 200})], map[], 0)
  }

  function Hooked(): State {
    State(Clobber(Seeded().regs)[1 := Const(4)], map[], 2)
  }

  function Ended(): State {
    State(Clobber(Hooked().regs)[1 := Const(8)], map[], 3)
  }

  function StageKey(t: int): Key {
    Key(t, Top)
  }

  function StageCert(t: int): Cert {
    Cert(t, DefaultEntry(Top), DEFAULTS, map[LocOf(t, DefaultEntry(Top)) := DefaultEntry(Top)], 0)
  }

  function RootCert(): Cert {
    Cert(0, Seeded(), STAGED, map[LocOf(0, Seeded()) := Seeded(), LocOf(4, Hooked()) := Hooked(),
        LocOf(8, Ended()) := Ended()], 0)
  }

  function Bounds(): map<Key, nat> {
    map[StageKey(100) := 0, StageKey(200) := 0, StageKey(300) := 0]
  }

  function Finished(): Analysis {
    Analysis(Code(), RootCert(), Bounds(),
             map[StageKey(100) := StageCert(100), StageKey(200) := StageCert(200), StageKey(300) := StageCert(300)])
  }

  lemma Registers()
    ensures Seeded().regs[SP] == Const(STACK) && Seeded().regs[15] == Vals({100, 200})
    ensures Hooked().regs[SP] == Const(STACK) && Ended().regs[SP] == Const(STACK)
    ensures DefaultEntry(Top).regs[SP] == Const(STACK) && DefaultEntry(Top).regs[1] == Const(RETURN)
    ensures Only({STACK}) == STACK
  {
  }

  lemma ClobberTwice(regs: Regs, x: AVal)
    ensures Clobber(Clobber(regs)[1 := x]) == Clobber(regs)
  {
  }

  lemma DispatchWalk()
    ensures JumpAll(Code(), STAGED, Site(0, 1, 4), Jump(Seeded().regs, {}, 0, [], {}), [100, 200]) ==
            Jump(Hooked().regs, {4}, 2, [StageKey(100), StageKey(200)], {(0, 100), (0, 200)})
  {
    var s, start := Site(0, 1, 4), Jump(Seeded().regs, {}, 0, [], {});
    assert [100, 200][..1] == [100] && [100][..0] == [];
    assert IndexOf([100, 200, 300], 200) == 1;
    ClobberTwice(Seeded().regs, Const(4));
    var one := JumpTo(Code(), STAGED, s, start, 100);
    assert one == Jump(Hooked().regs, {4}, 1, [StageKey(100)], {(0, 100)});
    assert JumpAll(Code(), STAGED, s, start, [100]) == one;
    var two := JumpTo(Code(), STAGED, s, one, 200);
    assert two.targets == {4} && two.calls == [StageKey(100), StageKey(200)] && two.edges == {(0, 100), (0, 200)};
  }

  lemma DispatchSettles()
    ensures Transfer(Code(), STAGED, Seeded(), 0, Seeded()) ==
            Flows(0, [Succ(4, Hooked())], [StageKey(100), StageKey(200)], {(0, 100), (0, 200)}, false)
  {
    hide Execute, RefineBranch, RefineZero, JumpAll, Seeded, Hooked, SortedSeq;
    Registers();
    Phases();
    DispatchWalk();
    assert {100, 200} - {RETURN} == {100, 200};
    SortedTwo(100, 200);
    SortedOne(4);
    assert Hooked() == State(Hooked().regs, map[], 2);
    DispatchOutcome();
  }

  lemma DispatchOutcome()
    requires SortedSeq({100, 200} - {RETURN}) == [100, 200] && SortedSeq({4}) == [4]
    ensures JumpOutcome(Code(), STAGED, Seeded(), Seeded(), 0, Site(0, 1, 4), Vals({100, 200})) ==
            Flows(0, [Succ(4, Hooked())], [StageKey(100), StageKey(200)], {(0, 100), (0, 200)}, false)
  {
    hide JumpAll, Seeded, Hooked, SortedSeq, Code;
    DispatchWalk();
    Phases();
    assert Hooked() == State(Hooked().regs, map[], 2);
    var ts := SortedSeq({4});
    var succs := seq(|ts|, i requires 0 <= i < |ts| => Succ(ts[i], State(Hooked().regs, map[], 2)));
    assert succs == [Succ(4, Hooked())];
  }

  lemma EndSettles()
    ensures Transfer(Code(), STAGED, Seeded(), 4, Hooked())
            == Flows(0, [Succ(8, Ended())], [StageKey(300)], {(0, 300)}, false)
  {
    hide Execute, RefineBranch, RefineZero, JumpAll, Hooked, Ended, SortedSeq;
    Registers();
    Phases();
    EndWalk();
    assert {300} - {RETURN} == {300};
    SortedOne(300);
    SortedOne(8);
    EndOutcome();
  }

  lemma EndWalk()
    ensures JumpAll(Code(), STAGED, Site(0, 1, 8), Jump(Hooked().regs, {}, 2, [], {}), [300]) ==
            Jump(Ended().regs, {8}, 3, [StageKey(300)], {(0, 300)})
  {
    var s, start := Site(0, 1, 8), Jump(Hooked().regs, {}, 2, [], {});
    hide Hooked;
    assert [300][..0] == [];
    assert IndexOf([100, 200, 300], 300) == 2;
    assert JumpAll(Code(), STAGED, s, start, [300]) == JumpTo(Code(), STAGED, s, start, 300);
  }

  lemma EndOutcome()
    requires SortedSeq({300} - {RETURN}) == [300] && SortedSeq({8}) == [8]
    ensures JumpOutcome(Code(), STAGED, Seeded(), Hooked(), 0, Site(0, 1, 8), Const(300)) ==
            Flows(0, [Succ(8, Ended())], [StageKey(300)], {(0, 300)}, false)
  {
    hide JumpAll, Seeded, Hooked, Ended, SortedSeq, Code;
    EndWalk();
    Phases();
    assert Ended() == State(Ended().regs, map[], 3);
    var ts := SortedSeq({8});
    var succs := seq(|ts|, i requires 0 <= i < |ts| => Succ(ts[i], State(Ended().regs, map[], 3)));
    assert succs == [Succ(8, Ended())];
  }

  lemma CutSettles()
    ensures Transfer(Code(), STAGED, Seeded(), 8, Ended()) == Flows(0, [], [], {}, false)
  {
  }

  lemma StageSettles(t: int)
    requires t in {100, 200, 300}
    ensures Transfer(Code(), DEFAULTS, DefaultEntry(Top), t, DefaultEntry(Top)) == Flows(0, [], [], {}, true)
  {
    Registers();
    hide Execute, RefineBranch, RefineZero;
    assert {RETURN} - {RETURN} == {};
    assert SortedSeq({RETURN} - {RETURN}) == [];
    assert SortedSeq({}) == [];
  }

  lemma RootAt(l: Loc)
    requires l in RootCert().states
    ensures var st := RootCert().states[l];
            l == LocOf(l.pc, st) && l.pc in {0, 4, 8}
                && st == (if l.pc == 0 then Seeded() else if l.pc == 4 then Hooked() else Ended())
  {
    hide Seeded, Hooked, Ended;
  }

  lemma RootHas()
    ensures var s := RootCert().states;
            Covered(s, Succ(0, Seeded())) && Covered(s, Succ(4, Hooked())) && Covered(s, Succ(8, Ended()))
  {
    LeqStateReflexive(Seeded());
    LeqStateReflexive(Hooked());
    LeqStateReflexive(Ended());
    hide Seeded, Hooked, Ended, LeqState;
  }

  lemma RootClosed()
    ensures Closed(Code(), RootCert(), Bounds())
  {
    hide Transfer, Covered, Code, Seeded, Hooked, Ended;
    var c := RootCert();
    RootHas();
    DispatchSettles();
    EndSettles();
    CutSettles();
    forall l | l in c.states
      ensures Settled(Transfer(Code(), c.options, c.entry, l.pc, c.states[l]), c.states, 0, Bounds())
      ensures c.states[l].phase == l.phase && WindowOnly(c.states[l].mem)
    {
      RootAt(l);
      Phases();
      hide RootCert;
    }
    hide Settled, Bounds;
    Phases();
  }

  lemma Phases()
    ensures Seeded().phase == 0 && Hooked().phase == 2 && Ended().phase == 3
    ensures Seeded().mem == map[] && Hooked().mem == map[] && Ended().mem == map[]
  {
  }

  lemma StageClosed(t: int)
    requires t in {100, 200, 300}
    ensures Closed(Code(), StageCert(t), Bounds())
  {
    StageSettles(t);
    LeqStateReflexive(DefaultEntry(Top));
    hide Transfer, LeqState, Code, Bounds;
  }

  lemma CodeWellFormed()
    ensures WellFormed(Code())
  {
    forall pc | pc in Code().instrs
      ensures Code().instrs[pc].size == 4 && 0 <= pc <= 300 && pc % 2 == 0
      ensures Encodable(Code().instrs[pc].op, pc + 4) && !WritesPlatformRegister(Code().instrs[pc].op)
    {
      CodeAt(pc);
    }
    hide Encodable, WritesPlatformRegister;
  }

  lemma CodeAt(pc: int)
    requires pc in Code().instrs
    ensures Code().instrs[pc].size == 4 && 0 <= pc <= 300 && pc % 2 == 0
    ensures Encodable(Code().instrs[pc].op, pc + 4) && !WritesPlatformRegister(Code().instrs[pc].op)
  {
    if pc == 0 {
    } else if pc == 4 {
    } else if pc == 100 {
    } else if pc == 200 {
    }
  }

  lemma CodeWithinClaim()
    ensures WithinClaim(Finished())
  {
    CodeWellFormed();
    hide WellFormed;
    forall l | l in RootCert().states ensures Disciplined(Code(), STAGED, l.pc, RootCert().states[l]) {
      RootDisciplined(l);
    }
    forall k | k in Finished().certs ensures AllDisciplined(Code(), Finished().certs[k]) {
      StageDisciplined(k.address);
      hide StageCert;
    }
  }

  lemma RootDisciplined(l: Loc)
    requires l in RootCert().states
    ensures Disciplined(Code(), STAGED, l.pc, RootCert().states[l])
  {
    RootAt(l);
    Registers();
    hide Seeded, Hooked, Ended, RootCert;
  }

  lemma StageDisciplined(t: int)
    requires t in {100, 200, 300}
    ensures AllDisciplined(Code(), StageCert(t))
  {
    Registers();
  }

  lemma CodeAccepted()
    ensures Accepted(Finished())
  {
    CodeWithinClaim();
    RootClosed();
    hide Closed, WithinClaim, Code, RootCert, StageCert;
    RootShape();
    forall k | k in Finished().certs
      ensures Finished().certs[k].maximum == Bounds()[k] && CertFor(Code(), Bounds(), k, Finished().certs[k])
    {
      StageCertified(k.address);
    }
    assert Finished().bounds.Keys == Finished().certs.Keys;
  }

  lemma RootShape()
    ensures RootCert().address == 0 && RootCert().entry == Seeded() && RootCert().options == STAGED
            && RootCert().maximum == 0
    ensures Seeded().mem == map[] && Seeded().phase == 0
  {
  }

  lemma StageCertified(t: int)
    requires t in {100, 200, 300}
    ensures StageCert(t).maximum == 0 && CertFor(Code(), Bounds(), StageKey(t), StageCert(t))
  {
    StageClosed(t);
    hide Closed, Code, Bounds;
  }

  // ---- the engine's answer ----

  const EDGES: set<(int, int)> := {(0, 100), (0, 200), (0, 300)}

  const STAGES: set<int> := {100, 200, 300}

  function StageKeys(): set<Key> {
    {StageKey(100), StageKey(200), StageKey(300)}
  }

  function RootTask(): Task {
    Task(0, Seeded(), STAGED)
  }

  function StageTask(t: int): Task {
    Task(t, DefaultEntry(Top), DEFAULTS)
  }

  function RootLine(): seq<Point> {
    [Point(LocOf(0, Seeded()), Seeded()), Point(LocOf(4, Hooked()), Hooked()), Point(LocOf(8, Ended()), Ended())]
  }

  function StageLine(t: int): seq<Point> {
    [Point(LocOf(t, DefaultEntry(Top)), DefaultEntry(Top))]
  }

  ghost function Lines(): map<Task, seq<Point>> {
    map[RootTask() := RootLine(), StageTask(100) := StageLine(100), StageTask(200) := StageLine(200),
        StageTask(300) := StageLine(300)]
  }

  lemma RootFlows()
    ensures var p, t, q := Code(), RootTask(), RootLine();
            && At(p, t, q[0])
               == Flows(0, [Succ(4, Hooked())], [StageKey(100), StageKey(200)], {(0, 100), (0, 200)}, false)
            && At(p, t, q[1]) == Flows(0, [Succ(8, Ended())], [StageKey(300)], {(0, 300)}, false)
            && At(p, t, q[2]) == Flows(0, [], [], {}, false)
  {
    hide Transfer, Seeded, Hooked, Ended, Code;
    DispatchSettles();
    EndSettles();
    CutSettles();
  }

  lemma StageFlows(t: int)
    requires t in STAGES
    ensures At(Code(), StageTask(t), StageLine(t)[0]) == Flows(0, [], [], {}, true)
  {
    hide Transfer, DefaultEntry, Code;
    StageSettles(t);
  }

  lemma Joins(st: State)
    requires st == Seeded() || st == Hooked() || st == Ended() || st == DefaultEntry(Top)
    ensures Merge(st, st) == Some(st)
  {
    assert forall r :: 0 <= r < 32 ==> DefaultEntry(Top).regs[r] == DefaultReg(r, Top);
    assert |{100, 200}| == 2;
    JoinsSelf(st);
  }

  lemma RootLined()
    ensures Line(Code(), RootTask(), RootLine())
  {
    hide At, Seeded, Hooked, Ended, Code, Merge, DefaultEntry;
    RootFlows();
    Joins(Seeded());
    Joins(Hooked());
    Joins(Ended());
    var p, t, q := Code(), RootTask(), RootLine();
    assert Lone(p, t, q, 0) && Lone(p, t, q, 1) && Lone(p, t, q, 2);
    hide Lone;
    assert q[0] == Start(t);
  }

  lemma StageLined(t: int)
    requires t in STAGES
    ensures Line(Code(), StageTask(t), StageLine(t))
  {
    hide At, Code, Merge, DefaultEntry;
    StageFlows(t);
    Joins(DefaultEntry(Top));
    assert Lone(Code(), StageTask(t), StageLine(t), 0);
  }

  lemma RootUses(x: Point)
    requires x in RootLine()
    ensures var out := At(Code(), RootTask(), x);
            out.Flows? && out.edges <= EDGES && forall k :: k in out.calls ==> k in StageKeys()
  {
    hide At, Seeded, Hooked, Ended, Code, LocOf;
    RootFlows();
  }

  lemma LinesShape()
    ensures |RootLine()| == 3 && RootTask().address == 0 && 0 in Code().owner && Lines()[RootTask()] == RootLine()
    ensures RootTask() in Lines() && forall t :: t in STAGES ==>
              && t in Code().owner && StageTask(t) in Lines() && Lines()[StageTask(t)] == StageLine(t)
              && TaskOf(StageKey(t)) == StageTask(t) && |StageLine(t)| == 1
  {
    hide Seeded, Hooked, Ended, DefaultEntry, LocOf;
  }

  lemma StageSmooth(t: int)
    requires t in STAGES
    ensures Smooth(Code(), [0], StageTask(t), Lines(), 0, EDGES, StageKeys())
    ensures Returns(Code(), StageTask(t), Lines()[StageTask(t)])
  {
    LinesShape();
    StageFlows(t);
    StageLined(t);
    hide At, Code, Line, Lines, DefaultEntry;
  }

  lemma RootSmooth()
    ensures Smooth(Code(), [], RootTask(), Lines(), 1, EDGES, StageKeys())
  {
    hide At, Code, Line, Lines, RootLine, StageLine, RootTask, StageTask, Returns, TaskOf;
    LinesShape();
    RootLined();
    assert [] + [0] == [0];
    forall k | k in StageKeys()
      ensures Smooth(Code(), [0], TaskOf(k), Lines(), 0, EDGES, StageKeys())
      ensures Returns(Code(), TaskOf(k), Lines()[TaskOf(k)])
    {
      StageSmooth(k.address);
    }
    forall x | x in RootLine()
      ensures var out := At(Code(), RootTask(), x);
              out.Flows? && out.edges <= EDGES && forall k :: k in out.calls ==> k in StageKeys()
    {
      RootUses(x);
    }
  }

  lemma RootTraceable()
    ensures Traceable(Code(), RootCert(), Bounds())
  {
    RootLined();
    var p, t, q := Code(), RootTask(), RootLine();
    hide Seeded, Hooked, Ended, Derived, At, Code, Line;
    forall x | x in q ensures Derived(p, t, x) {
      OnLine(p, t, q, x);
    }
    EarnedNothing(p, t, Bounds());
    forall l | l in RootCert().states ensures Point(l, RootCert().states[l]) in q {
      RootAt(l);
    }
  }

  lemma StageTraceable(t: int)
    requires t in STAGES
    ensures Traceable(Code(), StageCert(t), Bounds())
  {
    StageLined(t);
    var p, task, q := Code(), StageTask(t), StageLine(t);
    hide DefaultEntry, Derived, At, Code, Line;
    OnLine(p, task, q, q[0]);
    EarnedNothing(p, task, Bounds());
  }

  lemma StageShape(t: int)
    ensures TaskBehind(StageCert(t)) == StageTask(t) && StageCert(t).maximum == 0
  {
  }

  /** A stage's certificate on any engine that made one without options. */
  lemma StageLeft(t: int, cache: map<Key, nat>, certs: map<Key, Cert>)
    requires t in STAGES && Certified(Code(), cache, certs) && AllTraceable(Code(), cache, certs)
    requires StageKey(t) in certs && certs[StageKey(t)].options == DEFAULTS
    ensures certs[StageKey(t)] == StageCert(t) && StageKey(t) in cache && cache[StageKey(t)] == 0
  {
    hide Closed, Traceable, DefaultEntry, Line, Code, At, Bounds, StageCert;
    StageClosed(t);
    StageTraceable(t);
    StageLined(t);
    StageFlows(t);
    StageShape(t);
    var k, e := StageKey(t), certs[StageKey(t)];
    assert CertFor(Code(), cache, k, e) && Traceable(Code(), e, cache);
    assert Agree(Code(), StageTask(t), StageLine(t), Bounds(), cache);
    OneCertificate(Code(), StageTask(t), StageLine(t), StageCert(t), Bounds(), e, cache);
  }

  /** The calls are covered, so every stage was analysed. */
  lemma StagesKept(c: Cert, cache: map<Key, nat>)
    requires TaskBehind(c) == RootTask() && Closed(Code(), c, cache) && Traceable(Code(), c, cache)
    ensures StageKey(100) in cache && StageKey(200) in cache && StageKey(300) in cache
  {
    hide Traceable, Line, LeqState, Reached, Covered, Code;
    RootFlows();
    RootLined();
    var q := RootLine();
    RecordsLine(Code(), RootTask(), q, c, cache);
    var x, y := q[0], q[1];
    assert x in q && y in q;
    assert Settled(Transfer(Code(), c.options, c.entry, x.loc.pc, c.states[x.loc]), c.states, c.maximum, cache);
    assert Settled(Transfer(Code(), c.options, c.entry, y.loc.pc, c.states[y.loc]), c.states, c.maximum, cache);
    hide Transfer, RootLine;
    assert CallCovered(cache, c.maximum, At(Code(), RootTask(), x).depth, StageKey(100));
    assert CallCovered(cache, c.maximum, At(Code(), RootTask(), x).depth, StageKey(200));
    assert CallCovered(cache, c.maximum, At(Code(), RootTask(), y).depth, StageKey(300));
  }

  lemma RootAgrees(cache: map<Key, nat>)
    requires forall k :: k in StageKeys() ==> k in cache && cache[k] == 0
    ensures Agree(Code(), RootTask(), RootLine(), Bounds(), cache)
  {
    assert forall k :: k in StageKeys() ==> k in Bounds() && Bounds()[k] == 0;
    hide At, Code, RootLine, Bounds;
    forall x | x in RootLine() ensures At(Code(), RootTask(), x).Flows? {
      RootUses(x);
    }
    forall x, k | x in RootLine() && k in At(Code(), RootTask(), x).calls ensures k in StageKeys() {
      RootUses(x);
    }
  }

  lemma RootLeft(c: Cert, cache: map<Key, nat>, certs: map<Key, Cert>)
    requires TaskBehind(c) == RootTask() && Closed(Code(), c, cache) && Traceable(Code(), c, cache)
    requires Certified(Code(), cache, certs) && AllTraceable(Code(), cache, certs)
    requires forall k :: k in certs ==> k in StageKeys() && certs[k].options == DEFAULTS
    ensures c == RootCert() && cache == Bounds() && certs == Finished().certs
  {
    RootShape();
    hide Closed, Traceable, DefaultEntry, Line, Code, RootCert, StageCert, RootLine, AllTraceable, At, Certified,
        Seeded;
    CertifiedKeys(Code(), cache, certs);
    StagesKept(c, cache);
    StageLeft(100, cache, certs);
    StageLeft(200, cache, certs);
    StageLeft(300, cache, certs);
    RootClosed();
    RootTraceable();
    RootLined();
    RootAgrees(cache);
    OneCertificate(Code(), RootTask(), RootLine(), RootCert(), Bounds(), c, cache);
    assert cache == Bounds();
    assert certs == Finished().certs;
  }

  /** Asked about the seeded root, a fresh engine answers zero and leaves exactly the finished analysis. */
  method StageAnalysed() returns (r: Option<nat>, ghost a: Analysis)
    ensures r == Some(0) && a == Finished()
  {
    hide Closed, Explains, GraphGrew, DefaultEntry, Certified, AllTraceable, Traceable, CalleeOf, Smooth, Returns,
        Line, Code, RootCert, StageCert, RootLine, StageLine, Lines, Seeded, CallGraph.Cyclic;
    var e := new Engine(Code());
    ghost var cert, why;
    r, cert, why := e.Analyze(Key(0, Top), Some(Seeded()), STAGED);
    RootShape();
    RootSmooth();
    SmoothLeaves(Code(), RootTask(), Lines(), 1, EDGES, StageKeys(), e.callGraph);
    if r.None? {
      Star(EDGES, e.callGraph, 0);
      NotRefused(Code(), [], RootTask(), Lines(), 1, EDGES, StageKeys(), e.callGraph, why);
    }
    RootLeft(cert, e.cache, e.certs);
    a := Analysis(Code(), cert, e.cache, e.certs);
  }

  // ---- a run that skips the first stage ----

  function SkippingRun(base: seq<int>, mem: Memory): seq<Config>
    requires |base| == 32
  {
    [Config(0, base, mem), Config(200, base[1 := 4], mem), Config(4, base[1 := 4], mem),
     Config(300, base[1 := 8], mem), Config(8, base[1 := 8], mem)]
  }

  lemma SkippingSteps(base: seq<int>, mem: Memory)
    requires Frame(base) && base[0] == 0 && base[15] == 200
    ensures Run(Code(), CutOf(STAGED), SkippingRun(base, mem))
  {
    var run := SkippingRun(base, mem);
    assert base[1 := 4][1 := 8] == base[1 := 8];
    assert Step(Code(), CutOf(STAGED), run[0], run[1]);
    assert Step(Code(), CutOf(STAGED), run[1], run[2]);
    assert Step(Code(), CutOf(STAGED), run[2], run[3]);
    assert Step(Code(), CutOf(STAGED), run[3], run[4]);
  }

  lemma SkippingStarts(base: seq<int>, mem: Memory)
    requires Frame(base) && base[0] == 0 && base[15] == 200
    ensures Starts(Finished(), base, SkippingRun(base, mem)[0])
  {
    EntryDescribed(base, Top);
    assert Denotes(base, 200, base[15]);
    hide DefaultEntry, Denotes;
    assert RegsDescribe(base, Seeded().regs, base);
  }

  /** Accepted and in scope, the run reaches the cut after hook and end, without begin. */
  lemma StageSkipped(base: seq<int>, mem: Memory)
    requires StackMapped(Finished(), base) && base[1] > 300 && base[15] == 200
    ensures Accepted(Finished()) && InScope(Finished(), base, SkippingRun(base, mem)) && !DirectStages(Finished())
    ensures SkippingRun(base, mem)[4].pc in Finished().root.options.stopPcs
    ensures StageTrace(Finished(), SkippingRun(base, mem)) == [200, 300]
  {
    hide Accepted, Run, Starts, MemoryInScope, StageTrace, DirectStages, RootCert, StageCert, Code, StackMapped;
    CodeAccepted();
    RootShape();
    assert Frame(base) && base[0] == 0 by { FrameOf(base); }
    SkippingSteps(base, mem);
    SkippingStarts(base, mem);
    NoStores(base, mem);
    SkippingTrace(base, mem);
    OutsideCode(base[1]);
    assert [200, 300][0] != STAGED.stages[0];
    if DirectStages(Finished()) {
      OrderKept(Finished(), base, SkippingRun(base, mem));
    }
  }

  lemma FrameOf(base: seq<int>)
    requires StackMapped(Finished(), base)
    ensures Frame(base) && base[0] == 0
  {
  }

  lemma OutsideCode(pc: int)
    requires pc > 300
    ensures pc !in Code().instrs
  {
  }

  lemma OrderKept(a: Analysis, base: seq<int>, run: seq<Config>)
    requires Accepted(a) && InScope(a, base, run) && DirectStages(a) && a.root.entry.phase == 0
    requires base[1] !in a.root.options.stages && base[1] !in a.root.options.stopPcs
    ensures StageTrace(a, run) <= a.root.options.stages
  {
    hide Accepted, InScope, DirectStages;
    StagesInOrder(a, base, run);
  }

  lemma NoStores(base: seq<int>, mem: Memory)
    requires |base| == 32
    ensures MemoryInScope(Finished(), base, SkippingRun(base, mem))
  {
    hide Describes, Builds;
    assert forall pc :: pc in Code().instrs ==> !Code().instrs[pc].op.Sw?;
  }

  lemma FinishedShape()
    ensures Finished().p == Code() && Finished().root.options == STAGED
  {
  }

  lemma SkippingCalls(base: seq<int>, mem: Memory)
    requires |base| == 32
    ensures var a, run := Finished(), SkippingRun(base, mem);
            && |run| == 5 && run[1].pc == 200 && run[3].pc == 300
            && StageCall(a, run[0], run[1]) && !StageCall(a, run[1], run[2])
            && StageCall(a, run[2], run[3]) && !StageCall(a, run[3], run[4])
  {
    hide Finished;
    FinishedShape();
  }

  lemma SkippingTrace(base: seq<int>, mem: Memory)
    requires |base| == 32
    ensures StageTrace(Finished(), SkippingRun(base, mem)) == [200, 300]
  {
    hide Finished, StageCall, SkippingRun, StageTrace;
    var a, run := Finished(), SkippingRun(base, mem);
    SkippingCalls(base, mem);
    assert run[..0 + 2] == run[..2] && run[..4 + 1] == run;
    TraceOfOne(a, run[..0 + 1]);
    TraceStep(a, run, 0);
    TraceStep(a, run, 1);
    TraceStep(a, run, 2);
    TraceStep(a, run, 3);
  }

  lemma TraceOfOne(a: Analysis, run: seq<Config>)
    requires |run| == 1
    ensures StageTrace(a, run) == []
  {
  }
}
