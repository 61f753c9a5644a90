/** The scope of the stack claim is inhabited, and its bound is reached: a leaf function with a 16-byte frame. */
module ScopeWitness {
  import opened Basics
  import opened Words
  import opened Sets
  import opened AbstractValues
  import opened Machine
  import opened Transfers
  import opened Refusals
  import opened IntervalEngine
  import opened StraightLine
  import opened StackBound
  import CallGraph

  /** addi sp, sp, -16; addi sp, sp, 16; jr ra. */
  function Leaf(): Program {
    Program(map[0 := Ins(Addi(SP, SP, -16), 4), 4 := Ins(Addi(SP, SP, 16), 4), 8 := Ins(JumpReg(0, 1), 4)],
            map[0 := 0, 4 := 0, 8 := 0], {}, {}, [])
  }

  function Entered(): State {
    DefaultEntry(Top)
  }

  function Framed(): State {
    State(Entered().regs[SP := Const(STACK - 16)], map[], 0)
  }

  function LeafCert(): Cert {
    var a, b, c := LocOf(0, Entered()), LocOf(4, Framed()), LocOf(8, Entered());
    Cert(0, Entered(), DEFAULTS, map[a := Entered(), b := Framed(), c := Entered()], 16)
  }

  lemma AddConstants(x: int, y: int)
    requires x >= -WORD && y >= -WORD
    ensures Arithmetic(Const(x), Const(y), Add) == Const(EvalMasked(Add, x, y))
  {
    var z := EvalMasked(Add, x, y);
    var all := set a, b | a in Const(x).xs && b in Const(y).xs :: EvalMasked(Add, a, b);
    assert all == {z} by {
      assert x in Const(x).xs && y in Const(y).xs;
    }
    assert forall a :: a in Const(x).xs + Const(y).xs ==> a >= -WORD;
    assert |{z}| == 1;
  }

  lemma EnterTransfer()
    ensures Transfer(Leaf(), DEFAULTS, Entered(), 0, Entered()) == Flows(0, [Succ(4, Framed())], [], {}, false)
  {
    hide JumpAll, RefineBranch, RefineZero, LoadValue, StoreValue, Arithmetic;
    AddConstants(STACK, -16);
    assert Only({STACK}) == STACK;
    assert Entered().regs[SP] == Const(STACK);
  }

  lemma LeaveTransfer()
    ensures Transfer(Leaf(), DEFAULTS, Entered(), 4, Framed()) == Flows(16, [Succ(8, Entered())], [], {}, false)
  {
    hide JumpAll, RefineBranch, RefineZero, LoadValue, StoreValue, Arithmetic;
    AddConstants(STACK - 16, 16);
    assert Only({STACK - 16}) == STACK - 16;
    assert Entered().regs[SP] == Const(STACK);
    assert Framed().regs[SP := Const(STACK)] == Entered().regs;
  }

  lemma ReturnTransfer()
    ensures Transfer(Leaf(), DEFAULTS, Entered(), 8, Entered()) == Flows(0, [], [], {}, true)
  {
    hide Execute, RefineBranch, RefineZero;
    assert Only({STACK}) == STACK;
    assert Entered().regs[SP] == Const(STACK) && Entered().regs[1] == Const(RETURN);
    assert {RETURN} - {RETURN} == {};
    assert SortedSeq({RETURN} - {RETURN}) == [];
    assert SortedSeq({}) == [];
  }

  lemma LeafSettled()
    ensures forall l :: l in LeafCert().states ==>
              Settled(Transfer(Leaf(), DEFAULTS, Entered(), l.pc, LeafCert().states[l]), LeafCert().states, 16, map[])
  {
    EnterTransfer();
    LeaveTransfer();
    ReturnTransfer();
    hide Transfer;
    LeqStateReflexive(Entered());
    LeqStateReflexive(Framed());
    hide LeqState;
    var c := LeafCert();
    assert Covered(c.states, Succ(4, Framed()));
    assert Covered(c.states, Succ(8, Entered()));
  }

  lemma LeafClosed()
    ensures Closed(Leaf(), LeafCert(), map[])
  {
    LeafSettled();
    LeqStateReflexive(Entered());
    hide Transfer, LeqState, Settled;
    var l := LocOf(4, Framed());
    assert l in LeafCert().states;
    assert DepthAt(l) == 16 by { assert Only({STACK - 16}) == STACK - 16; }
    hide DepthAt;
    assert Reached(LeafCert().states, 16, map[]);
  }

  const ROOT: Key := Key(0, Top)

  /** The finished analysis: nothing but the leaf's own certificate is kept. */
  function LeafAnalysis(): Analysis {
    Analysis(Leaf(), LeafCert(), map[ROOT := 16], map[ROOT := LeafCert()])
  }

  lemma LeafWithinClaim()
    ensures WithinClaim(LeafAnalysis())
  {
    assert WellFormed(Leaf());
    assert Entered().regs[SP] == Const(STACK) && Framed().regs[SP] == Const(STACK - 16);
    assert AllDisciplined(Leaf(), LeafCert());
  }

  lemma LeafAccepted()
    ensures Accepted(LeafAnalysis())
  {
    hide Closed, WithinClaim;
    LeafClosed();
    ClosedMonotone(Leaf(), LeafCert(), map[], map[ROOT := 16]);
    LeafWithinClaim();
  }

  // ---- the engine's answer ----

  function LeafTask(): Task {
    Task(0, Entered(), DEFAULTS)
  }

  function LeafLine(): seq<Point> {
    [Point(LocOf(0, Entered()), Entered()), Point(LocOf(4, Framed()), Framed()), Point(LocOf(8, Entered()), Entered())]
  }

  lemma LeafJoins()
    ensures Merge(Entered(), Entered()) == Some(Entered()) && Merge(Framed(), Framed()) == Some(Framed())
  {
    assert forall r :: 0 <= r < 32 ==> Entered().regs[r] == DefaultReg(r, Top);
    assert forall r :: 0 <= r < 32 && r != SP ==> Framed().regs[r] == Entered().regs[r];
    JoinsSelf(Entered());
    JoinsSelf(Framed());
  }

  lemma LeafFlows()
    ensures var p, t, q := Leaf(), LeafTask(), LeafLine();
            && At(p, t, q[0]) == Flows(0, [Succ(4, Framed())], [], {}, false)
            && At(p, t, q[1]) == Flows(16, [Succ(8, Entered())], [], {}, false)
            && At(p, t, q[2]) == Flows(0, [], [], {}, true)
  {
    EnterTransfer();
    LeaveTransfer();
    ReturnTransfer();
    hide Transfer, Entered, Framed, Leaf;
  }

  lemma LeafLined()
    ensures Line(Leaf(), LeafTask(), LeafLine())
  {
    LeafFlows();
    LeafJoins();
    hide At, Entered, Framed, Leaf, Merge;
    var p, t, q := Leaf(), LeafTask(), LeafLine();
    assert Lone(p, t, q, 0) && Lone(p, t, q, 1) && Lone(p, t, q, 2);
    hide Lone;
    assert q[0] == Start(t);
  }

  lemma LeafUses(x: Point)
    requires x in LeafLine()
    ensures var out := At(Leaf(), LeafTask(), x); out.Flows? && out.edges == {} && out.calls == []
  {
    hide At, Entered, Framed, Leaf, LocOf;
    LeafFlows();
  }

  lemma LeafReturns()
    ensures Returns(Leaf(), LeafTask(), LeafLine()) && |LeafLine()| == 3 && 0 in Leaf().owner
  {
    LeafFlows();
    hide At, Entered, Framed, LocOf;
  }

  lemma LeafSmooth()
    ensures Smooth(Leaf(), [], LeafTask(), map[LeafTask() := LeafLine()], 0, {}, {})
    ensures Returns(Leaf(), LeafTask(), LeafLine())
  {
    hide At, Entered, Framed, Leaf, Line, LeafLine, Returns;
    LeafReturns();
    LeafLined();
    forall x | x in LeafLine()
      ensures var out := At(Leaf(), LeafTask(), x); out.Flows? && out.edges == {} && out.calls == []
    {
      LeafUses(x);
    }
  }

  lemma LeafAgrees(cache: map<Key, nat>)
    ensures Agree(Leaf(), LeafTask(), LeafLine(), map[], cache)
  {
    hide At, Entered, Framed, Leaf, LocOf;
    LeafFlows();
  }

  lemma LeafAt(l: Loc)
    requires l in LeafCert().states
    ensures Point(l, LeafCert().states[l]) in LeafLine()
  {
    hide Entered, Framed;
  }

  lemma LeafTraceable()
    ensures Traceable(Leaf(), LeafCert(), map[])
  {
    var p, t, q := Leaf(), LeafTask(), LeafLine();
    hide Derived, At, Leaf, Line, LocOf;
    LeafShape();
    LeafFlows();
    LeafLined();
    hide Entered, Framed, LeafCert, LeafTask;
    forall x | x in q ensures Derived(p, t, x) {
      OnLine(p, t, q, x);
    }
    assert q[1] in q;
    EarnedDepth(p, t, q[1], map[]);
    forall l | l in LeafCert().states ensures Point(l, LeafCert().states[l]) in q {
      LeafAt(l);
    }
  }

  lemma LeafShape()
    ensures TaskBehind(LeafCert()) == LeafTask() == TaskOf(ROOT) && LeafCert().maximum == 16
  {
  }

  /** Asked about the leaf, a fresh engine answers 16 and leaves exactly the finished analysis. */
  method LeafAnalysed() returns (r: Option<nat>, ghost a: Analysis)
    ensures r == Some(16) && a == LeafAnalysis()
  {
    hide Closed, Explains, GraphGrew, DefaultEntry, Certified, Traceable, CalleeOf, Smooth, Returns, Line, Leaf,
        LeafCert, LeafLine, CallGraph.Cyclic;
    var e := new Engine(Leaf());
    ghost var cert, why;
    r, cert, why := e.Analyze(ROOT, None, DEFAULTS);
    ghost var t, q := LeafTask(), LeafLine();
    LeafSmooth();
    LeafLined();
    LeafTraceable();
    LeafClosed();
    SmoothLeaves(Leaf(), t, map[t := q], 0, {}, {}, e.callGraph);
    if r.None? {
      Star({}, e.callGraph, 0);
      NotRefused(Leaf(), [], t, map[t := q], 0, {}, {}, e.callGraph, why);
    }
    LeafShape();
    LeafAgrees(e.cache);
    OneCertificate(Leaf(), t, q, LeafCert(), map[], cert, e.cache);
    assert e.certs.Keys == {ROOT} && e.cache.Keys == {ROOT} by { CertifiedKeys(Leaf(), e.cache, e.certs); }
    assert e.certs == map[ROOT := cert] && e.cache == map[ROOT := 16];
    a := Analysis(Leaf(), cert, e.cache, e.certs);
  }

  /** The run of the leaf from any registers with a roomy stack and an outside return address. */
  function LeafRun(base: seq<int>, mem: Memory): seq<Config>
    requires |base| == 32
  {
    [Config(0, base, mem), Config(4, base[SP := Word(base[SP] - 16)], mem), Config(8, base, mem),
        Config(base[1], base, mem)]
  }

  /** The claim is not empty: this run is in scope, returns, and reaches the accepted maximum. */
  lemma BoundReached(base: seq<int>, mem: Memory)
    requires StackMapped(LeafAnalysis(), base) && base[1] > 8
    ensures Accepted(LeafAnalysis()) && InScope(LeafAnalysis(), base, LeafRun(base, mem))
    ensures LeafRun(base, mem)[3].pc == base[1]
    ensures LeafRun(base, mem)[1].regs[SP] == base[SP] - LeafAnalysis().root.maximum
  {
    hide Accepted, Run, MemoryInScope, Starts, DefaultEntry, LeafRun;
    LeafAccepted();
    LeafStarts(base, mem);
    LeafSteps(base, mem);
    NoStores(base, mem);
  }

  lemma LeafStarts(base: seq<int>, mem: Memory)
    requires StackMapped(LeafAnalysis(), base) && base[1] > 8
    ensures Starts(LeafAnalysis(), base, LeafRun(base, mem)[0])
    ensures |LeafRun(base, mem)| == 4 && LeafRun(base, mem)[3].pc == base[1] && base[1] !in Leaf().instrs
    ensures LeafRun(base, mem)[1].regs == base[SP := base[SP] - 16]
  {
    hide Starts, DefaultEntry;
    DefaultStart(LeafAnalysis(), LeafRun(base, mem)[0]);
  }

  lemma LeafSteps(base: seq<int>, mem: Memory)
    requires StackMapped(LeafAnalysis(), base) && base[1] > 8
    ensures Run(Leaf(), CutOf(DEFAULTS), LeafRun(base, mem))
  {
    var run := LeafRun(base, mem);
    assert Word(Word(base[SP] - 16) + 16) == base[SP];
    assert base[SP := Word(base[SP] - 16)][SP := base[SP]] == base;
    assert forall i :: 0 <= i < 4 ==> Valid(run[i]);
    assert Step(Leaf(), CutOf(DEFAULTS), run[0], run[1]);
    assert Step(Leaf(), CutOf(DEFAULTS), run[1], run[2]);
    assert Step(Leaf(), CutOf(DEFAULTS), run[2], run[3]);
  }

  lemma NoStores(base: seq<int>, mem: Memory)
    requires StackMapped(LeafAnalysis(), base)
    ensures MemoryInScope(LeafAnalysis(), base, LeafRun(base, mem))
  {
    hide Describes;
    assert forall pc :: pc in Leaf().instrs ==> !Leaf().instrs[pc].op.Sw?;
  }
}
