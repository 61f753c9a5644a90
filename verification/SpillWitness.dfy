/**
 A caller that spills its return address, calls a function that stores through a pointer, reloads and returns.
 When the pointer misses the spilled word the run is in scope; when it hits it, the claimed bound fails.
 */
module SpillWitness {
  import opened Basics
  import opened Words
  import opened Sets
  import opened AbstractValues
  import opened Machine
  import opened Transfers
  import opened Refusals
  import opened IntervalEngine
  import opened StepCoverage
  import opened StackBound
  import opened StraightLine
  import opened ScopeWitness
  import CallGraph

  /**
   0: addi sp, sp, -16; sw ra, 12(sp); jal ra, 100; lw ra, 12(sp); addi sp, sp, 16; jr ra.
   100: sw a1, 0(a0); jr ra. 200: addi sp, sp, -64.
   */
  function Code(): Program {
    Program(map[0 := Ins(Addi(SP, SP, -16), 4), 4 := Ins(Sw(1, SP, 12), 4), 8 := Ins(Jal(1, 100), 4),
                12 := Ins(Lw(1, SP, 12), 4), 16 := Ins(Addi(SP, SP, 16), 4), 20 := Ins(JumpReg(0, 1), 4),
                100 := Ins(Sw(11, 10, 0), 4), 104 := Ins(JumpReg(0, 1), 4), 200 := Ins(Addi(SP, SP, -64), 4)],
            map[0 := 0, 4 := 0, 8 := 0, 12 := 0, 16 := 0, 20 := 0, 100 := 100, 104 := 100, 200 := 200], {}, {}, [])
  }

  const SPILLED: map<int, AVal> := map[STACK - 4 := Const(RETURN)]

  function Spilt(): State {
    State(Framed().regs, SPILLED, 0)
  }

  function Called(): State {
    State(Clobber(Framed().regs)[1 := Const(12)], SPILLED, 0)
  }

  function Reloaded(): State {
    State(Clobber(Framed().regs)[1 := Const(RETURN)], SPILLED, 0)
  }

  function Popped(): State {
    State(Clobber(Framed().regs)[1 := Const(RETURN)][SP := Const(STACK)], SPILLED, 0)
  }

  const CALLEE: Key := Key(100, Top)

  function CallerCert(): Cert {
    Cert(0, Entered(), DEFAULTS,
         map[LocOf(0, Entered()) := Entered(), LocOf(4, Framed()) := Framed(), LocOf(8, Spilt()) := Spilt(),
             LocOf(12, Called()) := Called(), LocOf(16, Reloaded()) := Reloaded(), LocOf(20, Popped()) := Popped()], 16)
  }

  function CalleeCert(): Cert {
    Cert(100, Entered(), DEFAULTS, map[LocOf(100, Entered()) := Entered(), LocOf(104, Entered()) := Entered()], 0)
  }

  function Bounds(): map<Key, nat> {
    map[CALLEE := 0, ROOT := 16]
  }

  function Finished(): Analysis {
    Analysis(Code(), CallerCert(), Bounds(), map[CALLEE := CalleeCert(), ROOT := CallerCert()])
  }

  // ---- the recorded states are settled ----

  lemma Registers()
    ensures Entered().regs[SP] == Const(STACK) && Entered().regs[1] == Const(RETURN) && Entered().regs[10].Top?
    ensures Framed().regs[SP] == Const(STACK - 16) && Framed().regs[1] == Const(RETURN)
    ensures Called().regs[SP] == Const(STACK - 16) && Called().regs[1] == Const(12)
    ensures Reloaded().regs[SP] == Const(STACK - 16) && Reloaded().regs[1] == Const(RETURN)
    ensures Popped().regs[SP] == Const(STACK) && Popped().regs[1] == Const(RETURN)
    ensures forall r :: Saved(r) ==> Popped().regs[r] == Entered().regs[r]
    ensures Only({STACK}) == STACK && Only({STACK - 16}) == STACK - 16 && Only({STACK - 4}) == STACK - 4
  {
  }

  lemma EnterSettles()
    ensures Transfer(Code(), DEFAULTS, Entered(), 0, Entered()) == Flows(0, [Succ(4, Framed())], [], {}, false)
  {
    Registers();
    AddConstants(STACK, -16);
    hide JumpAll, RefineBranch, RefineZero, LoadValue, StoreValue, Arithmetic;
  }

  lemma SpillSettles()
    ensures Transfer(Code(), DEFAULTS, Entered(), 4, Framed()) == Flows(16, [Succ(8, Spilt())], [], {}, false)
  {
    Registers();
    AddConstants(STACK - 16, 12);
    hide JumpAll, RefineBranch, RefineZero, LoadValue, Arithmetic;
    assert StoreValue(map[], Const(STACK - 4), Const(RETURN)) == SPILLED;
  }

  lemma CallWalk()
    ensures JumpAll(Code(), DEFAULTS, Site(0, 1, 12), Jump(Spilt().regs, {}, 0, [], {}), [100]) ==
            Jump(Called().regs, {12}, 0, [CALLEE], {(0, 100)})
  {
    var s, start := Site(0, 1, 12), Jump(Spilt().regs, {}, 0, [], {});
    hide Framed;
    assert [100][..0] == [];
    assert JumpAll(Code(), DEFAULTS, s, start, [100]) == JumpTo(Code(), DEFAULTS, s, start, 100);
  }

  lemma CallOutcome()
    ensures JumpOutcome(Code(), DEFAULTS, Entered(), Spilt(), 16, Site(0, 1, 12), Const(100)) ==
            Flows(16, [Succ(12, Called())], [CALLEE], {(0, 100)}, false)
  {
    CallWalk();
    SortedOne(100);
    SortedOne(12);
    assert {100} - {RETURN} == {100};
    assert Called() == State(Called().regs, SPILLED, 0) && Spilt().mem == SPILLED && Spilt().phase == 0;
    hide JumpAll, SortedSeq, Spilt, Called, Entered, Code;
    var ts := SortedSeq({12});
    var succs := seq(|ts|, i requires 0 <= i < |ts| => Succ(ts[i], State(Called().regs, SPILLED, 0)));
    assert succs == [Succ(12, Called())];
  }

  lemma CallSettles()
    ensures Transfer(Code(), DEFAULTS, Entered(), 8, Spilt())
            == Flows(16, [Succ(12, Called())], [CALLEE], {(0, 100)}, false)
  {
    hide Execute, RefineBranch, RefineZero, JumpOutcome, Entered, Called, Framed;
    Registers();
    CallOutcome();
  }

  lemma ReloadSettles()
    ensures Transfer(Code(), DEFAULTS, Entered(), 12, Called()) == Flows(16, [Succ(16, Reloaded())], [], {}, false)
  {
    Registers();
    AddConstants(STACK - 16, 12);
    hide JumpAll, RefineBranch, RefineZero, StoreValue, Arithmetic;
    assert LoadValue(Code(), SPILLED, Const(STACK - 4), 4) == Const(RETURN) by {
      var all := set x, v | x in {STACK - 4} && v in Lookup(Code(), SPILLED, x, 4).xs :: v;
      assert all == {RETURN} by {
        assert STACK - 4 in {STACK - 4} && RETURN in Lookup(Code(), SPILLED, STACK - 4, 4).xs;
      }
    }
    assert Called().regs[1 := Const(RETURN)] == Reloaded().regs;
  }

  lemma PopSettles()
    ensures Transfer(Code(), DEFAULTS, Entered(), 16, Reloaded()) == Flows(16, [Succ(20, Popped())], [], {}, false)
  {
    Registers();
    AddConstants(STACK - 16, 16);
    hide JumpAll, RefineBranch, RefineZero, LoadValue, StoreValue, Arithmetic;
  }

  lemma LeaveSettles()
    ensures Transfer(Code(), DEFAULTS, Entered(), 20, Popped()) == Flows(0, [], [], {}, true)
  {
    Registers();
    ReturnSettles(20, Popped());
  }

  lemma ReturnSettles(pc: int, st: State)
    requires pc == 20 || pc == 104
    requires st.regs[SP] == Const(STACK) && st.regs[1] == Const(RETURN) && forall r :: Saved(r) ==>
                 st.regs[r] == Entered().regs[r]
    ensures Transfer(Code(), DEFAULTS, Entered(), pc, st) == Flows(0, [], [], {}, true)
  {
    Registers();
    hide Execute, RefineBranch, RefineZero;
    assert {RETURN} - {RETURN} == {};
    assert SortedSeq({RETURN} - {RETURN}) == [];
    assert SortedSeq({}) == [];
  }

  lemma StoreSettles()
    ensures Transfer(Code(), DEFAULTS, Entered(), 100, Entered()) == Flows(0, [Succ(104, Entered())], [], {}, false)
  {
    Registers();
    hide JumpAll, RefineBranch, RefineZero, LoadValue;
  }

  /** What the caller's certificate records, location by location. */
  lemma CallerAt(l: Loc)
    requires l in CallerCert().states
    ensures var st := CallerCert().states[l];
            && l == LocOf(l.pc, st) && l.pc in {0, 4, 8, 12, 16, 20}
            && st == (if l.pc == 0 then Entered() else if l.pc == 4 then Framed() else if l.pc == 8 then Spilt()
                      else if l.pc == 12 then Called() else if l.pc == 16 then Reloaded() else Popped())
  {
    hide Entered, Framed, Spilt, Called, Reloaded, Popped;
  }

  lemma CallerHas()
    ensures var s := CallerCert().states;
            && Covered(s, Succ(0, Entered())) && Covered(s, Succ(4, Framed())) && Covered(s, Succ(8, Spilt()))
            && Covered(s, Succ(12, Called())) && Covered(s, Succ(16, Reloaded())) && Covered(s, Succ(20, Popped()))
  {
    LeqStateReflexive(Entered());
    LeqStateReflexive(Framed());
    LeqStateReflexive(Spilt());
    LeqStateReflexive(Called());
    LeqStateReflexive(Reloaded());
    LeqStateReflexive(Popped());
    hide Entered, Framed, Spilt, Called, Reloaded, Popped, LeqState;
  }

  lemma CallerSettled(l: Loc)
    requires l in CallerCert().states
    ensures Settled(Transfer(Code(), DEFAULTS, Entered(), l.pc, CallerCert().states[l]), CallerCert().states, 16,
            map[CALLEE := 0])
  {
    hide Transfer, Covered, LocOf, Entered, Framed, Spilt, Called, Reloaded, Popped, CallerCert, Code;
    CallerAt(l);
    CallerHas();
    EnterSettles();
    SpillSettles();
    CallSettles();
    ReloadSettles();
    PopSettles();
    LeaveSettles();
  }

  lemma CalleeSettled(l: Loc)
    requires l in CalleeCert().states
    ensures Settled(Transfer(Code(), DEFAULTS, Entered(), l.pc, CalleeCert().states[l]), CalleeCert().states, 0,
            map[CALLEE := 0])
  {
    Registers();
    StoreSettles();
    ReturnSettles(104, Entered());
    LeqStateReflexive(Entered());
    hide Transfer, LeqState, Entered, Code;
  }

  lemma CallerClosed()
    ensures Closed(Code(), CallerCert(), map[CALLEE := 0])
  {
    hide Transfer, Covered, Settled, Reached, Code;
    var c := CallerCert();
    CallerHas();
    CallerReached();
    forall l | l in c.states
      ensures Settled(Transfer(Code(), c.options, c.entry, l.pc, c.states[l]), c.states, 16, map[CALLEE := 0])
      ensures c.states[l].phase == l.phase && WindowOnly(c.states[l].mem)
    {
      CallerSettled(l);
      CallerAt(l);
      hide CallerCert;
    }
  }

  lemma CallerReached()
    ensures Reached(CallerCert().states, 16, map[CALLEE := 0])
  {
    var l := LocOf(4, Framed());
    assert l in CallerCert().states by { hide Entered, Framed, Spilt, Called, Reloaded, Popped; }
    assert DepthAt(l) == 16 by { Registers(); }
  }

  lemma CalleeClosed()
    ensures Closed(Code(), CalleeCert(), map[CALLEE := 0])
  {
    hide Transfer, LeqState, Settled, Code;
    var c := CalleeCert();
    forall l | l in c.states ensures Settled(Transfer(Code(), DEFAULTS, Entered(), l.pc, c.states[l]), c.states, 0,
        map[CALLEE := 0]) {
      CalleeSettled(l);
    }
    LeqStateReflexive(Entered());
  }

  lemma CodeWithinClaim()
    ensures WithinClaim(Finished())
  {
    CodeWellFormed();
    CertShapes();
    hide WellFormed, Disciplined, CallerCert, CalleeCert, Code;
    forall l | l in CallerCert().states ensures Disciplined(Code(), DEFAULTS, l.pc, CallerCert().states[l]) {
      CallerDisciplined(l);
    }
    forall l | l in CalleeCert().states ensures Disciplined(Code(), DEFAULTS, l.pc, CalleeCert().states[l]) {
      CalleeDisciplined(l);
    }
  }

  lemma CodeWellFormed()
    ensures WellFormed(Code())
  {
    hide Encodable, WritesPlatformRegister;
    forall pc | pc in Code().instrs
      ensures Code().instrs[pc].size == 4 && 0 <= pc <= 200 && pc % 2 == 0
      ensures Encodable(Code().instrs[pc].op, pc + 4) && !WritesPlatformRegister(Code().instrs[pc].op)
    {
      CodeAt(pc);
    }
  }

  lemma CodeAt(pc: int)
    requires pc in Code().instrs
    ensures Code().instrs[pc].size == 4 && 0 <= pc <= 200 && pc % 2 == 0
    ensures Encodable(Code().instrs[pc].op, pc + 4) && !WritesPlatformRegister(Code().instrs[pc].op)
    ensures Code().instrs[pc].op.Sw? <==> pc == 4 || pc == 100
  {
    if pc == 0 {
    } else if pc == 4 {
    } else if pc == 8 {
    } else if pc == 12 {
    } else if pc == 16 {
    } else if pc == 20 {
    } else if pc == 100 {
    } else if pc == 104 {
    }
  }

  lemma CallerDisciplined(l: Loc)
    requires l in CallerCert().states
    ensures Disciplined(Code(), DEFAULTS, l.pc, CallerCert().states[l])
  {
    CallerAt(l);
    Registers();
    hide Entered, Framed, Spilt, Called, Reloaded, Popped, CallerCert;
  }

  lemma CalleeDisciplined(l: Loc)
    requires l in CalleeCert().states
    ensures Disciplined(Code(), DEFAULTS, l.pc, CalleeCert().states[l])
  {
    Registers();
    hide Entered;
  }

  lemma CodeAccepted()
    ensures Accepted(Finished())
  {
    hide Closed, WithinClaim, CallerCert, CalleeCert, Code;
    CallerClosed();
    CalleeClosed();
    CodeWithinClaim();
    CertShapes();
    ClosedMonotone(Code(), CallerCert(), map[CALLEE := 0], Bounds());
    ClosedMonotone(Code(), CalleeCert(), map[CALLEE := 0], Bounds());
    assert CertFor(Code(), Bounds(), CALLEE, CalleeCert()) && CertFor(Code(), Bounds(), ROOT, CallerCert());
  }

  lemma CertShapes()
    ensures CallerCert().address == 0 && CallerCert().entry == DefaultEntry(Top) && CallerCert().options == DEFAULTS
            && CallerCert().maximum == 16
    ensures CalleeCert().address == 100 && CalleeCert().entry == DefaultEntry(Top) && CalleeCert().options == DEFAULTS
            && CalleeCert().maximum == 0
  {
  }

  // ---- the engine's answer ----

  function CallerTask(): Task {
    Task(0, Entered(), DEFAULTS)
  }

  function CalleeTask(): Task {
    Task(100, Entered(), DEFAULTS)
  }

  function CallerLine(): seq<Point> {
    [Point(LocOf(0, Entered()), Entered()), Point(LocOf(4, Framed()), Framed()), Point(LocOf(8, Spilt()), Spilt()),
     Point(LocOf(12, Called()), Called()), Point(LocOf(16, Reloaded()), Reloaded()),
     Point(LocOf(20, Popped()), Popped())]
  }

  function CalleeLine(): seq<Point> {
    [Point(LocOf(100, Entered()), Entered()), Point(LocOf(104, Entered()), Entered())]
  }

  ghost function Lines(): map<Task, seq<Point>> {
    map[CallerTask() := CallerLine(), CalleeTask() := CalleeLine()]
  }

  lemma CallerFlows()
    ensures var p, t, q := Code(), CallerTask(), CallerLine();
            && At(p, t, q[0]) == Flows(0, [Succ(4, Framed())], [], {}, false)
            && At(p, t, q[1]) == Flows(16, [Succ(8, Spilt())], [], {}, false)
            && At(p, t, q[2]) == Flows(16, [Succ(12, Called())], [CALLEE], {(0, 100)}, false)
            && At(p, t, q[3]) == Flows(16, [Succ(16, Reloaded())], [], {}, false)
            && At(p, t, q[4]) == Flows(16, [Succ(20, Popped())], [], {}, false)
            && At(p, t, q[5]) == Flows(0, [], [], {}, true)
  {
    hide Transfer, Entered, Framed, Spilt, Called, Reloaded, Popped, Code;
    EnterSettles();
    SpillSettles();
    CallSettles();
    ReloadSettles();
    PopSettles();
    LeaveSettles();
  }

  lemma CalleeFlows()
    ensures var p, t, q := Code(), CalleeTask(), CalleeLine();
            && At(p, t, q[0]) == Flows(0, [Succ(104, Entered())], [], {}, false)
            && At(p, t, q[1]) == Flows(0, [], [], {}, true)
  {
    StoreSettles();
    Registers();
    ReturnSettles(104, Entered());
    hide Transfer, Entered, Code;
  }

  lemma Joins(st: State)
    requires st == Framed() || st == Spilt() || st == Called() || st == Reloaded() || st == Popped()
    ensures Merge(st, st) == Some(st)
  {
    assert forall r :: 0 <= r < 32 ==> Entered().regs[r] == DefaultReg(r, Top);
    JoinsSelf(st);
  }

  lemma CallerLined()
    ensures Line(Code(), CallerTask(), CallerLine())
  {
    hide At, Entered, Framed, Spilt, Called, Reloaded, Popped, Code, Merge;
    CallerFlows();
    LeafJoins();
    Joins(Framed());
    Joins(Spilt());
    Joins(Called());
    Joins(Reloaded());
    Joins(Popped());
    var p, t, q := Code(), CallerTask(), CallerLine();
    assert Lone(p, t, q, 0) && Lone(p, t, q, 1) && Lone(p, t, q, 2);
    assert Lone(p, t, q, 3) && Lone(p, t, q, 4) && Lone(p, t, q, 5);
    hide Lone;
    assert q[0] == Start(t);
  }

  lemma CalleeLined()
    ensures Line(Code(), CalleeTask(), CalleeLine())
  {
    hide At, Entered, Code, Merge;
    CalleeFlows();
    LeafJoins();
    var p, t, q := Code(), CalleeTask(), CalleeLine();
    assert Lone(p, t, q, 0) && Lone(p, t, q, 1);
    hide Lone;
    assert q[0] == Start(t);
  }

  lemma CalleeSmooth()
    ensures Smooth(Code(), [0], CalleeTask(), Lines(), 0, {(0, 100)}, {CALLEE})
    ensures Returns(Code(), CalleeTask(), CalleeLine()) && Lines()[CalleeTask()] == CalleeLine()
  {
    CalleeFlows();
    CalleeLined();
    assert 100 in Code().owner;
    hide At, Entered, Code, Line, CallerLine;
  }

  lemma CallerUses(x: Point)
    requires x in CallerLine()
    ensures var out := At(Code(), CallerTask(), x);
            out.Flows? && out.edges <= {(0, 100)} && forall k :: k in out.calls ==> k == CALLEE
  {
    hide At, Entered, Framed, Spilt, Called, Reloaded, Popped, Code, LocOf;
    CallerFlows();
  }

  lemma CallerShape()
    ensures |CallerLine()| == 6 && CallerTask().address == 0 && 0 in Code().owner
    ensures TaskOf(CALLEE) == CalleeTask() && Lines()[CallerTask()] == CallerLine() && CallerTask() in Lines()
  {
    EntryIs();
    hide Entered, DefaultEntry;
  }

  lemma CallerSmooth()
    ensures Smooth(Code(), [], CallerTask(), Lines(), 1, {(0, 100)}, {CALLEE})
    ensures Returns(Code(), CallerTask(), CallerLine()) && Lines()[CallerTask()] == CallerLine()
  {
    CallerShape();
    CallerFlows();
    CallerLined();
    CalleeSmooth();
    hide At, Code, Line, Lines, CallerLine, CalleeLine, CallerTask, CalleeTask;
    assert [] + [0] == [0];
    forall x | x in CallerLine()
      ensures var out := At(Code(), CallerTask(), x);
              out.Flows? && out.edges <= {(0, 100)} && forall k :: k in out.calls ==> k == CALLEE
    {
      CallerUses(x);
    }
  }

  lemma CallerTraceable()
    ensures Traceable(Code(), CallerCert(), map[CALLEE := 0])
  {
    CallerFlows();
    CallerLined();
    var p, t, q := Code(), CallerTask(), CallerLine();
    hide Entered, Framed, Spilt, Called, Reloaded, Popped, Derived, At, Code, Line;
    forall x | x in q ensures Derived(p, t, x) {
      OnLine(p, t, q, x);
    }
    EarnedDepth(p, t, q[1], map[CALLEE := 0]);
    forall l | l in CallerCert().states ensures Point(l, CallerCert().states[l]) in q {
      CallerAt(l);
    }
  }

  lemma CalleeTraceable()
    ensures Traceable(Code(), CalleeCert(), map[CALLEE := 0])
  {
    CalleeFlows();
    CalleeLined();
    var p, t, q := Code(), CalleeTask(), CalleeLine();
    hide Entered, Derived, At, Code, Line;
    forall x | x in q ensures Derived(p, t, x) {
      OnLine(p, t, q, x);
    }
    EarnedNothing(p, t, map[CALLEE := 0]);
    forall l | l in CalleeCert().states ensures Point(l, CalleeCert().states[l]) in q {
      CalleeAt(l);
    }
  }

  lemma CalleeAt(l: Loc)
    requires l in CalleeCert().states
    ensures l == LocOf(l.pc, Entered()) && l.pc in {100, 104} && CalleeCert().states[l] == Entered()
  {
    hide Entered;
  }

  lemma Tasks()
    ensures TaskBehind(CallerCert()) == CallerTask() == TaskOf(ROOT)
    ensures TaskBehind(CalleeCert()) == CalleeTask() == TaskOf(CALLEE)
  {
  }

  /** The callee's certificate on any engine that made one without options. */
  lemma CalleeLeft(cache: map<Key, nat>, certs: map<Key, Cert>)
    requires Certified(Code(), cache, certs) && AllTraceable(Code(), cache, certs)
    requires CALLEE in certs && certs[CALLEE].options == DEFAULTS
    ensures certs[CALLEE] == CalleeCert() && CALLEE in cache && cache[CALLEE] == 0
  {
    hide Closed, Traceable, DefaultEntry, Line, Code, CalleeCert, At;
    CalleeClosed();
    CalleeTraceable();
    CalleeLined();
    CalleeFlows();
    Tasks();
    CertShapes();
    assert CertFor(Code(), cache, CALLEE, certs[CALLEE]) && Traceable(Code(), certs[CALLEE], cache);
    assert Agree(Code(), CalleeTask(), CalleeLine(), map[CALLEE := 0], cache);
    OneCertificate(Code(), CalleeTask(), CalleeLine(), CalleeCert(), map[CALLEE := 0], certs[CALLEE], cache);
  }

  /** The call is covered, so the callee was analysed. */
  lemma CalleeKept(c: Cert, cache: map<Key, nat>)
    requires TaskBehind(c) == CallerTask() && Closed(Code(), c, cache) && Traceable(Code(), c, cache)
    ensures CALLEE in cache
  {
    hide Traceable, Line, LeqState, Reached, Covered, Code;
    CallerFlows();
    CallerLined();
    var q := CallerLine();
    RecordsLine(Code(), CallerTask(), q, c, cache);
    var x := q[2];
    assert x in q;
    assert Settled(Transfer(Code(), c.options, c.entry, x.loc.pc, c.states[x.loc]), c.states, c.maximum, cache);
    hide Transfer, CallerLine;
    assert CallCovered(cache, c.maximum, At(Code(), CallerTask(), x).depth, CALLEE);
  }

  /** Asked about the caller, a fresh engine answers 16 and leaves exactly the finished analysis. */
  method CallAnalysed() returns (r: Option<nat>, ghost a: Analysis)
    ensures r == Some(16) && a == Finished()
  {
    hide Closed, Explains, GraphGrew, DefaultEntry, Certified, AllTraceable, Traceable, CalleeOf, Smooth, Returns, Line,
        Code, CallerCert, CalleeCert, CallerLine, Lines, CallGraph.Cyclic;
    var e := new Engine(Code());
    ghost var cert, why;
    r, cert, why := e.Analyze(ROOT, None, DEFAULTS);
    Tasks();
    CertShapes();
    CallerSmooth();
    SmoothLeaves(Code(), CallerTask(), Lines(), 1, {(0, 100)}, {CALLEE}, e.callGraph);
    if r.None? {
      Star({(0, 100)}, e.callGraph, 0);
      NotRefused(Code(), [], CallerTask(), Lines(), 1, {(0, 100)}, {CALLEE}, e.callGraph, why);
    }
    CallerLeft(cert, e.cache, e.certs);
    a := Analysis(Code(), cert, e.cache, e.certs);
  }

  lemma CallerLeft(c: Cert, cache: map<Key, nat>, certs: map<Key, Cert>)
    requires TaskBehind(c) == CallerTask() && Closed(Code(), c, cache) && Traceable(Code(), c, cache)
    requires Certified(Code(), cache, certs) && AllTraceable(Code(), cache, certs)
    requires ROOT in certs && certs[ROOT] == c
    requires forall k :: k in certs && k != ROOT ==> k == CALLEE && certs[k].options == DEFAULTS
    ensures c == CallerCert() && cache == Bounds() && certs == Finished().certs
  {
    hide Closed, Traceable, DefaultEntry, Line, Code, CallerCert, CalleeCert, CallerLine, AllTraceable, At, Certified;
    CertifiedKeys(Code(), cache, certs);
    CalleeKept(c, cache);
    CalleeLeft(cache, certs);
    CallerClosed();
    CallerTraceable();
    CallerLined();
    CallerAgrees(cache);
    Tasks();
    CertShapes();
    OneCertificate(Code(), CallerTask(), CallerLine(), CallerCert(), map[CALLEE := 0], c, cache);
    CertifiedAt(Code(), cache, certs, ROOT);
    assert cache.Keys == {ROOT, CALLEE};
    assert certs == Finished().certs;
    assert cache == Bounds();
  }

  lemma CallerAgrees(cache: map<Key, nat>)
    requires CALLEE in cache && cache[CALLEE] == 0
    ensures Agree(Code(), CallerTask(), CallerLine(), map[CALLEE := 0], cache)
  {
    CallerFlows();
    hide At, Code;
  }

  // ---- the runs ----

  /** The configurations up to and with the caller's return. */
  function CallRun(base: seq<int>, mem: Memory): seq<Config>
    requires |base| == 32
  {
    var inner, called := base[SP := base[SP] - 16], base[SP := base[SP] - 16][1 := 12];
    var spilt := Spill(base, mem);
    var stored := Overwrite(base, mem);
    var ra := Returned(base, mem);
    [Config(0, base, mem), Config(4, inner, mem), Config(8, inner, spilt), Config(100, called, spilt),
     Config(104, called, stored), Config(12, called, stored), Config(16, inner[1 := ra], stored),
     Config(20, base[1 := ra], stored), Config(ra - ra % 2, base[1 := ra], stored)]
  }

  function Spill(base: seq<int>, mem: Memory): Memory
    requires |base| == 32
  {
    StoreWord(mem, Word(base[SP] - 4), Word(base[1]))
  }

  function Overwrite(base: seq<int>, mem: Memory): Memory
    requires |base| == 32
  {
    StoreWord(Spill(base, mem), Word(base[10]), Word(base[11]))
  }

  /** The return address the caller reloads. */
  function Returned(base: seq<int>, mem: Memory): (ra: int)
    requires |base| == 32
    ensures 0 <= ra < WORD
  {
    LoadWord(Overwrite(base, mem), Word(base[SP] - 4))
  }

  /** A frame of reference with a roomy stack and an outside return address. */
  ghost predicate Roomy(base: seq<int>) {
    Frame(base) && base[0] == 0 && base[1] % 2 == 0 && base[1] > 204
    && 16 + STACK_WINDOW < base[SP] && base[SP] + STACK_WINDOW + 4 <= WORD
  }

  lemma StepAdd(pc: int, imm: int, regs: seq<int>, mem: Memory)
    requires Frame(regs) && 0 <= regs[SP] + imm < WORD && pc in Code().instrs
             && Code().instrs[pc].op == Addi(SP, SP, imm)
    ensures Step(Code(), CutOf(DEFAULTS), Config(pc, regs, mem), Config(pc + 4, regs[SP := regs[SP] + imm], mem))
  {
  }

  lemma StepSpill(base: seq<int>, regs: seq<int>, mem: Memory)
    requires Roomy(base) && regs == base[SP := base[SP] - 16]
    ensures Step(Code(), CutOf(DEFAULTS), Config(4, regs, mem), Config(8, regs, Spill(base, mem)))
  {
    hide StoreWord;
  }

  lemma StepOverwrite(base: seq<int>, regs: seq<int>, mem: Memory)
    requires Roomy(base) && regs == base[SP := base[SP] - 16][1 := 12]
    ensures Step(Code(), CutOf(DEFAULTS), Config(100, regs, Spill(base, mem)), Config(104, regs, Overwrite(base, mem)))
  {
    hide StoreWord;
  }

  lemma StepReload(base: seq<int>, regs: seq<int>, mem: Memory)
    requires Roomy(base) && regs == base[SP := base[SP] - 16][1 := 12]
    ensures Step(Code(), CutOf(DEFAULTS), Config(12, regs, Overwrite(base, mem)),
                 Config(16, regs[1 := Returned(base, mem)], Overwrite(base, mem)))
  {
    hide StoreWord, LoadWord;
  }

  lemma StepJumps(regs: seq<int>, mem: Memory)
    requires Frame(regs)
    ensures Step(Code(), CutOf(DEFAULTS), Config(8, regs, mem), Config(100, regs[1 := 12], mem))
    ensures Step(Code(), CutOf(DEFAULTS), Config(20, regs, mem), Config(regs[1] - regs[1] % 2, regs, mem))
    ensures Step(Code(), CutOf(DEFAULTS), Config(104, regs, mem), Config(regs[1] - regs[1] % 2, regs, mem))
  {
  }

  lemma CallRunSteps(base: seq<int>, mem: Memory)
    requires Roomy(base)
    ensures Run(Code(), CutOf(DEFAULTS), CallRun(base, mem))
  {
    hide Step, Spill, Overwrite, Returned, Code;
    var run := CallRun(base, mem);
    var inner, ra := base[SP := base[SP] - 16], Returned(base, mem);
    CodeAdds();
    StepAdd(0, -16, base, mem);
    StepSpill(base, inner, mem);
    StepJumps(inner, Spill(base, mem));
    StepOverwrite(base, inner[1 := 12], mem);
    StepJumps(inner[1 := 12], Overwrite(base, mem));
    StepReload(base, inner[1 := 12], mem);
    assert inner[1 := 12][1 := ra] == inner[1 := ra];
    StepAdd(16, 16, inner[1 := ra], Overwrite(base, mem));
    assert inner[1 := ra][SP := base[SP]] == base[1 := ra];
    StepJumps(base[1 := ra], Overwrite(base, mem));
  }

  lemma CodeAdds()
    ensures 0 in Code().instrs && Code().instrs[0].op == Addi(SP, SP, -16)
    ensures 16 in Code().instrs && Code().instrs[16].op == Addi(SP, SP, 16)
    ensures 200 in Code().instrs && Code().instrs[200].op == Addi(SP, SP, -64)
  {
  }

  // ---- in scope ----

  /** Where a state flows to one place only, the stack follows it there. */
  lemma MovesOn(a: Analysis, stack: seq<Act>, c: Config, d: Config, stack': seq<Act>, s: Succ)
    requires |stack| > 0 && stack[|stack| - 1].loc in stack[|stack| - 1].cert.states
    requires var top := stack[|stack| - 1];
             var out := Transfer(a.p, top.cert.options, top.cert.entry, c.pc, top.cert.states[top.loc]);
             out.Flows? && out.succs == [s] && out.calls == [] && !out.returning
    requires Moves(a, stack, c, d, stack')
    ensures stack' == Continued(stack, s)
  {
    hide Transfer;
  }

  /** Where a state calls one function, the stack enters it. */
  lemma MovesIn(a: Analysis, stack: seq<Act>, c: Config, d: Config, stack': seq<Act>, s: Succ, k: Key)
    requires |stack| > 0 && stack[|stack| - 1].loc in stack[|stack| - 1].cert.states
    requires var top := stack[|stack| - 1];
             var out := Transfer(a.p, top.cert.options, top.cert.entry, c.pc, top.cert.states[top.loc]);
             out.Flows? && out.succs == [s] && out.calls == [k] && !out.returning && s.pc != d.pc
    requires Moves(a, stack, c, d, stack')
    ensures k in a.certs && stack' == Continued(stack, s) + [Entering(a, k, d.regs)]
  {
    hide Transfer;
  }

  lemma Before(a: Analysis, base: seq<int>, run: seq<Config>, k: nat, stack: seq<Act>) returns (before: seq<Act>)
    requires k + 1 < |run| && Builds(a, base, run, k + 1, stack)
    ensures Builds(a, base, run, k, before)
    ensures |before| > 0 && before[|before| - 1].loc in before[|before| - 1].cert.states
    ensures Moves(a, before, run[k], run[k + 1], stack)
  {
    hide Moves;
    assert BuiltFrom(a, base, run, k, stack);
    before :| Builds(a, base, run, k, before) && Describes(a, base, before, run[k])
        && Moves(a, before, run[k], run[k + 1], stack);
    assert ActOK(a, base, before[|before| - 1]);
  }

  function Waiting(loc: Loc, base: seq<int>): Act {
    Act(CallerCert(), loc, base)
  }

  lemma CallerStates()
    ensures var s := CallerCert().states;
            && LocOf(0, Entered()) in s && s[LocOf(0, Entered())] == Entered()
            && LocOf(4, Framed()) in s && s[LocOf(4, Framed())] == Framed()
            && LocOf(8, Spilt()) in s && s[LocOf(8, Spilt())] == Spilt()
            && LocOf(12, Called()) in s && s[LocOf(12, Called())] == Called()
  {
    hide Entered, Framed, Spilt, Called, Reloaded, Popped;
  }

  lemma BuiltBySpill(base: seq<int>, mem: Memory, stack: seq<Act>)
    requires |base| == 32 && Builds(Finished(), base, CallRun(base, mem), 1, stack)
    ensures stack == [Waiting(LocOf(4, Framed()), base)]
  {
    hide Transfer, CallRun, CallerCert, CalleeCert, Entered, Framed, Spilt, Describes, Moves, Code, DefaultEntry, LocOf,
        Clobber, Builds;
    CallRunAt(base, mem);
    CallerStates();
    CertShapes();
    EnterSettles();
    EntryIs();
    var a, run := Finished(), CallRun(base, mem);
    var before := Before(a, base, run, 0, stack);
    BuiltFirst(base, mem, before);
    MovesOn(a, before, run[0], run[1], stack, Succ(4, Framed()));
  }

  lemma BuiltFirst(base: seq<int>, mem: Memory, stack: seq<Act>)
    requires |base| == 32 && |CallRun(base, mem)| > 0 && Builds(Finished(), base, CallRun(base, mem), 0, stack)
    ensures stack == [Waiting(LocOf(0, Entered()), base)]
  {
    hide CallRun, DefaultEntry, LocOf;
    EntryIs();
  }

  lemma EntryIs()
    ensures Entered() == DefaultEntry(Top)
  {
  }

  lemma BuiltByCall(base: seq<int>, mem: Memory, stack: seq<Act>)
    requires |base| == 32 && Builds(Finished(), base, CallRun(base, mem), 2, stack)
    ensures stack == [Waiting(LocOf(8, Spilt()), base)]
  {
    hide Transfer, CallRun, CallerCert, CalleeCert, Entered, Framed, Spilt, Describes, Moves, Code, DefaultEntry, LocOf,
        Clobber, Builds;
    CallRunAt(base, mem);
    CallerStates();
    CertShapes();
    SpillSettles();
    EntryIs();
    var a, run := Finished(), CallRun(base, mem);
    var before := Before(a, base, run, 1, stack);
    BuiltBySpill(base, mem, before);
    MovesOn(a, before, run[1], run[2], stack, Succ(8, Spilt()));
  }

  /** Inside the callee the caller waits behind its call, with the spilled word recorded. */
  lemma BuiltInside(base: seq<int>, mem: Memory, stack: seq<Act>)
    requires |base| == 32 && Builds(Finished(), base, CallRun(base, mem), 3, stack)
    ensures stack == [Waiting(LocOf(12, Called()), base),
                      Act(CalleeCert(), LocOf(100, Entered()), CallRun(base, mem)[3].regs)]
  {
    hide Transfer, CallRun, CallerCert, CalleeCert, Entered, Framed, Spilt, Called, Describes, Moves, Code, LocOf,
        DefaultEntry, Clobber, Builds;
    CallRunAt(base, mem);
    CallerStates();
    CertShapes();
    CallSettles();
    EntryIs();
    var a, run := Finished(), CallRun(base, mem);
    var before := Before(a, base, run, 2, stack);
    BuiltByCall(base, mem, before);
    MovesIn(a, before, run[2], run[3], stack, Succ(12, Called()), CALLEE);
  }

  lemma OverwriteInScope(base: seq<int>, mem: Memory, stack: seq<Act>)
    requires |base| == 32 && Builds(Finished(), base, CallRun(base, mem), 3, stack)
    requires Describes(Finished(), base, stack, CallRun(base, mem)[3])
    requires Apart(Word(base[10] + 0), base[SP] - 4)
    ensures StoreInScope(Finished(), base, stack, CallRun(base, mem)[3])
  {
    hide Apart, CallerCert, CalleeCert, Describes, CallRun, Builds, Entered, Clobber, Framed, LocOf;
    BuiltInside(base, mem, stack);
    CallRunAt(base, mem);
    CallerStates();
    CalleeStates();
    assert Code().instrs[100].op == Sw(11, 10, 0);
    assert MissesFacts(base, Called().mem, Word(base[10] + 0));
  }

  lemma CalleeStates()
    ensures LocOf(100, Entered()) in CalleeCert().states
            && CalleeCert().states[LocOf(100, Entered())] == Entered() && Entered().mem == map[]
  {
  }

  lemma SpillInScope(base: seq<int>, mem: Memory, stack: seq<Act>)
    requires |base| == 32 && Builds(Finished(), base, CallRun(base, mem), 1, stack)
    requires Describes(Finished(), base, stack, CallRun(base, mem)[1])
    ensures StoreInScope(Finished(), base, stack, CallRun(base, mem)[1])
  {
    hide Arithmetic, Describes, Framed, CallerCert, CalleeCert, CallRun, Builds, LocOf, Entered;
    BuiltBySpill(base, mem, stack);
    CallRunAt(base, mem);
    CallerStates();
    Registers();
    AddConstants(STACK - 16, 12);
    assert KnownSlot(Const(STACK - 4));
  }

  /** A store apart from the spilled word leaves the return address in it. */
  lemma ReturnsToCaller(base: seq<int>, mem: Memory)
    requires Roomy(base) && Apart(base[10], base[SP] - 4)
    ensures Returned(base, mem) == base[1]
  {
    hide StoreWord, LoadWord, Apart;
    assert Word(base[SP] - 4) == base[SP] - 4 && Word(base[10]) == base[10];
    LoadAfterStore(mem, base[SP] - 4, Word(base[1]));
    LoadAfterStoreApart(Spill(base, mem), base[10], Word(base[11]), base[SP] - 4);
  }

  /** A store onto the spilled word replaces the return address. */
  lemma ReturnsElsewhere(base: seq<int>, mem: Memory)
    requires Roomy(base) && base[10] == base[SP] - 4
    ensures Returned(base, mem) == base[11]
  {
    hide StoreWord, LoadWord;
    LoadAfterStore(Spill(base, mem), base[10], Word(base[11]));
  }

  /** Where the run is at each step, and what the callee's pointer is. */
  lemma CallRunAt(base: seq<int>, mem: Memory)
    requires |base| == 32
    ensures var run := CallRun(base, mem);
            && |run| == 9 && run[0] == Config(0, base, mem)
            && run[1].pc == 4 && run[1].regs == base[SP := base[SP] - 16]
            && run[2].pc == 8 && run[3].pc == 100 && run[3].regs[10] == base[10] && run[4].pc == 104
            && run[5].pc == 12 && run[6].pc == 16 && run[7].pc == 20
            && run[8] == Config(Returned(base, mem) - Returned(base, mem) % 2, base[1 := Returned(base, mem)],
                Overwrite(base, mem))
  {
    hide Spill, Overwrite, Returned;
  }

  lemma CallRunInScope(base: seq<int>, mem: Memory)
    requires Roomy(base) && Apart(base[10], base[SP] - 4)
    ensures MemoryInScope(Finished(), base, CallRun(base, mem))
  {
    hide Describes, StoreInScope, Apart, Builds, Spill, Overwrite, Returned, CallRun, CallerCert, CalleeCert;
    assert Word(base[10] + 0) == base[10];
    CallRunAt(base, mem);
    ReturnsToCaller(base, mem);
    var a, run := Finished(), CallRun(base, mem);
    assert Code().rom == [];
    hide Code;
    forall i, stack | 0 <= i < |run| && Builds(a, base, run, i, stack) && Describes(a, base, stack, run[i])
      ensures StoreInScope(a, base, stack, run[i])
    {
      if i == 1 {
        SpillInScope(base, mem, stack);
      } else if i == 3 {
        OverwriteInScope(base, mem, stack);
      } else {
        NoStoreInScope(base, stack, run[i]);
      }
    }
  }

  lemma NoStoreInScope(base: seq<int>, stack: seq<Act>, c: Config)
    requires Describes(Finished(), base, stack, c) && c.pc != 4 && c.pc != 100
    ensures StoreInScope(Finished(), base, stack, c)
  {
    hide Describes;
    if c.pc in Code().instrs {
      CodeAt(c.pc);
    }
  }

  lemma CallRunStarts(base: seq<int>, mem: Memory)
    requires Roomy(base)
    ensures StackMapped(Finished(), base) && base[1] !in Code().instrs && 204 !in Code().instrs
    ensures Starts(Finished(), base, CallRun(base, mem)[0])
  {
    CertShapes();
    CallRunAt(base, mem);
    hide CallerCert, CalleeCert, Starts, DefaultEntry, CallRun;
    DefaultStart(Finished(), CallRun(base, mem)[0]);
  }

  /** With the pointer off the spilled word the run is in scope: it spills, calls, reloads, returns,
      and reaches the bound. */
  lemma CallInScope(base: seq<int>, mem: Memory)
    requires Roomy(base) && Apart(base[10], base[SP] - 4)
    ensures Accepted(Finished()) && InScope(Finished(), base, CallRun(base, mem))
    ensures CallRun(base, mem)[8].pc == base[1] && CallRun(base, mem)[8].regs == base
    ensures CallRun(base, mem)[1].regs[SP] == base[SP] - Finished().root.maximum
  {
    hide Accepted, Run, Starts, MemoryInScope, CallerCert, CalleeCert, Code, CallRun, Spill, Overwrite, Returned,
        Apart, StackMapped;
    CodeAccepted();
    CertShapes();
    CallRunAt(base, mem);
    CallRunStarts(base, mem);
    CallRunSteps(base, mem);
    CallRunInScope(base, mem);
    ReturnsToCaller(base, mem);
    assert base[1 := base[1]] == base;
  }

  /** The run that goes on where the overwritten return address leads. */
  function AstrayRun(base: seq<int>, mem: Memory): seq<Config>
    requires |base| == 32
  {
    CallRun(base, mem) + [Config(204, base[1 := 200][SP := base[SP] - 64], Overwrite(base, mem))]
  }

  /**
   With the pointer on the spilled word the caller returns into other code, and the accepted bound fails. Only the
   memory clause of the scope is broken: the engine keeps the caller's facts over the call.
   */
  lemma BoundFails(base: seq<int>, mem: Memory)
    requires Roomy(base) && base[10] == base[SP] - 4 && base[11] == 200
    ensures Accepted(Finished()) && Begun(Finished(), base, AstrayRun(base, mem))
    ensures !MemoryInScope(Finished(), base, AstrayRun(base, mem)) && Exceeds(Finished(), base, AstrayRun(base, mem))
    ensures forall c :: c in AstrayRun(base, mem) ==> RomIntact(Finished().p, c.mem)
  {
    AstrayBegun(base, mem);
    CodeAccepted();
    NoRom();
    hide Accepted, Begun, MemoryInScope, CallerCert, CalleeCert, Code, AstrayRun;
    OutOfScope(Finished(), base, AstrayRun(base, mem));
  }

  /** Some configuration is below what the accepted maximum allows. */
  ghost predicate Exceeds(a: Analysis, base: seq<int>, run: seq<Config>) {
    exists c :: c in run && Frame(base) && |c.regs| == 32 && c.pc !in a.root.options.stopPcs && !WithinBound(a, base, c)
  }

  lemma AstrayBegun(base: seq<int>, mem: Memory)
    requires Roomy(base) && base[10] == base[SP] - 4 && base[11] == 200
    ensures Begun(Finished(), base, AstrayRun(base, mem)) && Exceeds(Finished(), base, AstrayRun(base, mem))
  {
    hide Run, Starts, CallerCert, CalleeCert, Code, CallRun, AstrayRun, StackMapped;
    CertShapes();
    CallRunStarts(base, mem);
    AstrayRunSteps(base, mem);
    AstrayShape(base, mem);
    var run := AstrayRun(base, mem);
    assert run[9] in run && !WithinBound(Finished(), base, run[9]);
  }

  lemma AstrayShape(base: seq<int>, mem: Memory)
    requires Roomy(base)
    ensures |AstrayRun(base, mem)| == 10 && AstrayRun(base, mem)[0] == CallRun(base, mem)[0]
    ensures AstrayRun(base, mem)[9].regs == base[1 := 200][SP := base[SP] - 64]
  {
    hide CallRun, Overwrite;
    CallRunAt(base, mem);
  }

  lemma OutOfScope(a: Analysis, base: seq<int>, run: seq<Config>)
    requires Accepted(a) && Exceeds(a, base, run)
    ensures !InScope(a, base, run)
  {
    hide Accepted, InScope;
    if InScope(a, base, run) {
      StackBounded(a, base, run);
    }
  }

  lemma NoRom()
    ensures Code().rom == []
  {
  }

  lemma AstrayRunSteps(base: seq<int>, mem: Memory)
    requires Roomy(base) && base[10] == base[SP] - 4 && base[11] == 200
    ensures Run(Code(), CutOf(DEFAULTS), AstrayRun(base, mem))
  {
    hide Step, Spill, Overwrite, Returned, Code, CallRun;
    var early, run := CallRun(base, mem), AstrayRun(base, mem);
    CallRunAt(base, mem);
    CallRunSteps(base, mem);
    ReturnsElsewhere(base, mem);
    CodeAdds();
    StepAdd(200, -64, base[1 := 200], Overwrite(base, mem));
    assert early[8] == Config(200, base[1 := 200], Overwrite(base, mem));
    forall i | 0 <= i < |run| - 1 ensures Step(Code(), CutOf(DEFAULTS), run[i], run[i + 1]) {
      if i < 8 {
        assert Step(Code(), CutOf(DEFAULTS), early[i], early[i + 1]);
      }
    }
    forall i | 0 <= i < |run| ensures Valid(run[i]) {
      if i < 9 {
        assert Valid(early[i]);
      }
    }
  }
}
