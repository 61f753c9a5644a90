/**
 The engine's answer for a function that compares two constants and goes 64 bytes deep on one side only: the side it
 counts is the one the comparison really takes, for every condition and every two words.
 */
module BranchWitness {
  import opened Basics
  import opened Words
  import opened Sets
  import opened AbstractValues
  import opened Machine
  import opened Transfers
  import opened Refusals
  import opened IntervalEngine
  import opened StraightLine
  import opened ScopeWitness
  import CallGraph

  datatype Test = Test(cond: Cond, x: int, y: int)

  ghost predicate Words32(t: Test) {
    0 <= t.x < 0x1_0000_0000 && 0 <= t.y < 0x1_0000_0000
  }

  /**
   0: li a0, x; li a1, y; 8: branch a0, a1, 16; 12: jr ra. 16: addi sp, sp, -64; addi sp, sp, 64; jr ra.
   */
  function Code(t: Test): Program {
    Program(map[0 := Ins(Li(10, t.x), 4), 4 := Ins(Li(11, t.y), 4), 8 := Ins(Branch(t.cond, 10, 11, 16), 4),
                12 := Ins(JumpReg(0, 1), 4), 16 := Ins(Addi(SP, SP, -64), 4), 20 := Ins(Addi(SP, SP, 64), 4),
                24 := Ins(JumpReg(0, 1), 4)],
            map[0 := 0, 4 := 0, 8 := 0, 12 := 0, 16 := 0, 20 := 0, 24 := 0], {}, {}, [])
  }

  /** The comparison in plain arithmetic. */
  predicate Compares(t: Test) {
    var sx := if t.x < 0x8000_0000 then t.x else t.x - 0x1_0000_0000;
    var sy := if t.y < 0x8000_0000 then t.y else t.y - 0x1_0000_0000;
    match t.cond
    case Beq => t.x == t.y
    case Bne => t.x != t.y
    case Blt => sx < sy
    case Bge => sx >= sy
    case Bltu => t.x < t.y
    case Bgeu => t.x >= t.y
  }

  function First(t: Test): State {
    State(Entered().regs[10 := Const(t.x)], map[], 0)
  }

  function Second(t: Test): State {
    State(First(t).regs[11 := Const(t.y)], map[], 0)
  }

  function Deep(t: Test): State {
    State(Second(t).regs[SP := Const(STACK - 64)], map[], 0)
  }

  function At0(pc: int, st: State): Point {
    Point(LocOf(pc, st), st)
  }

  function Path(t: Test): seq<Point> {
    [At0(0, Entered()), At0(4, First(t)), At0(8, Second(t))] +
    (if Compares(t) then [At0(16, Second(t)), At0(20, Deep(t)), At0(24, Second(t))] else [At0(12, Second(t))])
  }

  function Asked(): Task {
    Task(0, Entered(), DEFAULTS)
  }

  lemma Registers(t: Test)
    ensures Entered().regs[SP] == Const(STACK) && First(t).regs[SP] == Const(STACK)
    ensures Second(t).regs[SP] == Const(STACK) && Deep(t).regs[SP] == Const(STACK - 64)
    ensures Second(t).regs[1] == Const(RETURN) && Second(t).regs[10] == Const(t.x) && Second(t).regs[11] == Const(t.y)
    ensures forall r :: Saved(r) ==> Second(t).regs[r] == Entered().regs[r]
    ensures Entered().mem == map[] && Entered().phase == 0
    ensures Only({STACK}) == STACK && Only({STACK - 64}) == STACK - 64
  {
  }

  lemma LoadsSettle(t: Test)
    requires Words32(t)
    ensures Transfer(Code(t), DEFAULTS, Entered(), 0, Entered()) == Flows(0, [Succ(4, First(t))], [], {}, false)
    ensures Transfer(Code(t), DEFAULTS, Entered(), 4, First(t)) == Flows(0, [Succ(8, Second(t))], [], {}, false)
  {
    Registers(t);
    hide JumpAll, RefineBranch, RefineZero, LoadValue, StoreValue, Arithmetic, Entered;
  }

  lemma HoldsCompares(t: Test)
    requires Words32(t)
    ensures Holds(t.cond, t.x, t.y) == Compares(t)
  {
    assert Word(t.x) == t.x && Word(t.y) == t.y;
  }

  /** Refining two constants keeps both on the edge they take and drops the other edge. */
  lemma RefinePair(cond: Cond, taken: bool, x: int, y: int, regs: Regs)
    requires regs[10] == Const(x) && regs[11] == Const(y) && 0 <= x < WORD && 0 <= y < WORD
    ensures RefineBranch(cond, taken, 10, 11, regs) == if taken == Holds(cond, x, y) then Some(regs) else None
  {
    hide Holds;
    var a, b := regs[10], regs[11];
    assert Comparable(a) && Comparable(b);
    var xs := set x | x in a.xs && exists y :: y in b.xs && Holds(cond, x, y) == taken;
    var ys := set y | y in b.xs && exists x :: x in a.xs && Holds(cond, x, y) == taken;
    if taken == Holds(cond, x, y) {
      assert x in a.xs && y in b.xs;
      assert xs == {x} && ys == {y};
      assert regs[10 := Vals(xs)] == regs && regs[11 := Vals(ys)] == regs;
    } else {
      assert xs == {};
    }
  }

  lemma EdgeTaken(t: Test, taken: bool)
    requires Words32(t)
    ensures RefineBranch(t.cond, taken, 10, 11, Second(t).regs)
            == if taken == Compares(t) then Some(Second(t).regs) else None
  {
    hide RefineBranch, Compares, Holds, Second;
    Registers(t);
    HoldsCompares(t);
    RefinePair(t.cond, taken, t.x, t.y, Second(t).regs);
  }

  lemma TestSettles(t: Test)
    requires Words32(t)
    ensures Transfer(Code(t), DEFAULTS, Entered(), 8, Second(t))
            == Flows(0, [Succ(if Compares(t) then 16 else 12, Second(t))], [], {}, false)
  {
    Registers(t);
    EdgeTaken(t, true);
    EdgeTaken(t, false);
    assert Second(t).(regs := Second(t).regs) == Second(t);
    hide RefineBranch, RefineZero, Entered, Compares, Second;
  }

  lemma DeepSettles(t: Test)
    ensures Transfer(Code(t), DEFAULTS, Entered(), 16, Second(t)) == Flows(0, [Succ(20, Deep(t))], [], {}, false)
  {
    Registers(t);
    AddConstants(STACK, -64);
    hide JumpAll, RefineBranch, RefineZero, LoadValue, StoreValue, Arithmetic, Entered;
  }

  lemma ShallowSettles(t: Test)
    ensures Transfer(Code(t), DEFAULTS, Entered(), 20, Deep(t)) == Flows(64, [Succ(24, Second(t))], [], {}, false)
  {
    Registers(t);
    AddConstants(STACK - 64, 64);
    assert Deep(t).regs[SP := Const(STACK)] == Second(t).regs;
    hide JumpAll, RefineBranch, RefineZero, LoadValue, StoreValue, Arithmetic, Entered;
  }

  lemma ReturnSettles(t: Test, pc: int)
    requires pc == 12 || pc == 24
    ensures Transfer(Code(t), DEFAULTS, Entered(), pc, Second(t)) == Flows(0, [], [], {}, true)
  {
    Registers(t);
    hide Execute, RefineBranch, RefineZero, Entered, First, Second;
    assert {RETURN} - {RETURN} == {};
    assert SortedSeq({RETURN} - {RETURN}) == [];
    assert SortedSeq({}) == [];
  }

  lemma Joins(t: Test, st: State)
    requires st == First(t) || st == Second(t) || st == Deep(t)
    ensures Merge(st, st) == Some(st)
  {
    assert forall r :: 0 <= r < 32 ==> Entered().regs[r] == DefaultReg(r, Top);
    JoinsSelf(st);
  }

  lemma PathFlows(t: Test, i: nat)
    requires Words32(t) && i < |Path(t)|
    ensures var out := At(Code(t), Asked(), Path(t)[i]);
            && out.Flows?
            && out == Flows(if Compares(t) && i == 4 then 64 else 0, out.succs, [], {}, i == |Path(t)| - 1)
            && (if i + 1 < |Path(t)| then |out.succs| == 1 && PointOf(out.succs[0]) == Path(t)[i + 1]
                else out.succs == [])
    ensures Merge(Path(t)[i].st, Path(t)[i].st) == Some(Path(t)[i].st)
  {
    hide Transfer, Entered, First, Second, Deep, Code, Merge, Compares;
    LoadsSettle(t);
    TestSettles(t);
    DeepSettles(t);
    ShallowSettles(t);
    ReturnSettles(t, 12);
    ReturnSettles(t, 24);
    LeafJoins();
    Joins(t, First(t));
    Joins(t, Second(t));
    Joins(t, Deep(t));
  }

  lemma Pathed(t: Test)
    requires Words32(t)
    ensures Line(Code(t), Asked(), Path(t))
  {
    forall i | 0 <= i < |Path(t)| ensures Lone(Code(t), Asked(), Path(t), i) {
      PathFlows(t, i);
    }
    hide Lone, Entered, First, Second, Deep, Compares;
    assert Path(t)[0] == Start(Asked());
  }

  lemma PathSmooth(t: Test)
    requires Words32(t)
    ensures Smooth(Code(t), [], Asked(), map[Asked() := Path(t)], 0, {}, {})
    ensures Returns(Code(t), Asked(), Path(t))
  {
    Pathed(t);
    assert 0 in Code(t).owner;
    PathFlows(t, |Path(t)| - 1);
    hide At, Line, Code, Entered;
    forall x | x in Path(t) ensures At(Code(t), Asked(), x).Flows? && At(Code(t), Asked(), x).edges == {}
                                    && At(Code(t), Asked(), x).calls == [] {
      var i :| 0 <= i < |Path(t)| && Path(t)[i] == x;
      PathFlows(t, i);
    }
    assert |Path(t)| <= 6;
    hide Path;
  }

  /** On this path the only closed certificate with a reason for everything has the depth of the side taken. */
  lemma PathMaximum(t: Test, c: Cert, bounds: map<Key, nat>)
    requires Words32(t) && TaskBehind(c) == Asked() && Closed(Code(t), c, bounds) && Traceable(Code(t), c, bounds)
    ensures c.maximum == if Compares(t) then 64 else 0
  {
    Pathed(t);
    hide Line, Closed, Code, At, Compares, Entered, Path, Traceable;
    var p, q := Code(t), Path(t);
    assert |q| == if Compares(t) then 6 else 4 by { PathLength(t); }
    if Compares(t) {
      PathFlows(t, 4);
      assert q[4] in q && Yields(p, Asked(), q[4], bounds, 64);
      UsesFit(p, Asked(), q, c, bounds, q[4], 64);
    }
    assert Earned(p, Asked(), bounds, c.maximum) by { TraceableEarned(p, c, bounds); }
    if c.maximum != 0 {
      var x :| Derived(p, Asked(), x) && Yields(p, Asked(), x, bounds, c.maximum);
      OnLine(p, Asked(), q, x);
      var i :| 0 <= i < |q| && q[i] == x;
      PathFlows(t, i);
    }
  }

  lemma PathLength(t: Test)
    ensures |Path(t)| == if Compares(t) then 6 else 4
  {
  }

  lemma TraceableEarned(p: Program, c: Cert, bounds: map<Key, nat>)
    requires Traceable(p, c, bounds)
    ensures Earned(p, TaskBehind(c), bounds, c.maximum)
  {
    hide Derived, Earned;
  }

  lemma AskedIs()
    ensures Asked() == TaskOf(ROOT)
  {
  }

  /** A fresh engine answers 64 when the comparison holds and 0 when it does not. */
  method BranchAnalysed(cond: Cond, x: int, y: int) returns (r: Option<nat>)
    requires 0 <= x < 0x1_0000_0000 && 0 <= y < 0x1_0000_0000
    ensures var sx := if x < 0x8000_0000 then x else x - 0x1_0000_0000;
            var sy := if y < 0x8000_0000 then y else y - 0x1_0000_0000;
            var taken := match cond
                         case Beq => x == y
                         case Bne => x != y
                         case Blt => sx < sy
                         case Bge => sx >= sy
                         case Bltu => x < y
                         case Bgeu => x >= y;
            r == Some(if taken then 64 else 0)
  {
    hide Closed, Explains, GraphGrew, DefaultEntry, Certified, Traceable, CalleeOf, Smooth, Returns, Line, Code, Path,
        CallGraph.Cyclic;
    var t := Test(cond, x, y);
    var e := new Engine(Code(t));
    ghost var cert, why;
    r, cert, why := e.Analyze(ROOT, None, DEFAULTS);
    AskedIs();
    PathSmooth(t);
    SmoothLeaves(Code(t), Asked(), map[Asked() := Path(t)], 0, {}, {}, e.callGraph);
    if r.None? {
      Star({}, e.callGraph, 0);
      NotRefused(Code(t), [], Asked(), map[Asked() := Path(t)], 0, {}, {}, e.callGraph, why);
    }
    PathMaximum(t, cert, e.cache);
  }
}
