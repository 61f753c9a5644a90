/**
 Stages are not part of what an analysis is cached under: a function whose staged analysis is refused on a fresh
 engine is accepted, stages and all, once it has been analysed without them.
 */
module StaleCache {
  import opened Basics
  import opened Sets
  import opened AbstractValues
  import opened Machine
  import opened Transfers
  import opened Refusals
  import opened IntervalEngine
  import opened StraightLine
  import CallGraph

  /** 0: j 100. 100: jr ra. */
  function Code(): Program {
    Program(map[0 := Ins(Jal(0, 100), 4), 100 := Ins(JumpReg(0, 1), 4)], map[0 := 0, 100 := 100], {}, {}, [])
  }

  const ROOT: Key := Key(0, Top)

  /** The function at 100 is the second stage, so nothing may call it first. */
  const STAGED: Options := Options([200, 100], {}, {}, false, {})

  function Entry(): State {
    DefaultEntry(Top)
  }

  lemma EntryRegisters()
    ensures Entry().regs[SP] == Const(STACK) && Entry().regs[1] == Const(RETURN)
    ensures Entry().mem == map[] && Entry().phase == 0 && Only({STACK}) == STACK
  {
  }

  function Asked(): Task {
    Task(0, Entry(), DEFAULTS)
  }

  /** All that is ever derived: the default entry, at the function and behind its jump. */
  function Places(): seq<Point> {
    [Point(LocOf(0, Entry()), Entry()), Point(LocOf(100, Entry()), Entry())]
  }

  lemma JumpFlows()
    ensures Transfer(Code(), DEFAULTS, Entry(), 0, Entry()) ==
            Flows(0, [Succ(100, Entry())], [], {(0, 100)}, false)
  {
    hide Execute, RefineBranch, RefineZero, Entry;
    EntryRegisters();
    assert {100} - {RETURN} == {100};
    One(100);
    var st := Entry();
    var s, start := Site(0, 0, 4), Jump(st.regs, {}, 0, [], {});
    assert [100][..0] == [];
    assert JumpAll(Code(), DEFAULTS, s, start, [100]) == JumpTo(Code(), DEFAULTS, s, start, 100);
    assert JumpTo(Code(), DEFAULTS, s, start, 100) == Jump(st.regs, {100}, 0, [], {(0, 100)});
    assert State(st.regs, st.mem, 0) == st;
  }

  lemma One(x: int)
    ensures SortedSeq({x}) == [x]
  {
    assert {x} - {x} == {};
    assert SortedSeq({x} - {x}) == [];
  }

  lemma ReturnFlows()
    ensures Transfer(Code(), DEFAULTS, Entry(), 100, Entry()) == Flows(0, [], [], {}, true)
  {
    hide Execute, RefineBranch, RefineZero, Entry;
    EntryRegisters();
    assert {RETURN} - {RETURN} == {};
    assert SortedSeq({RETURN} - {RETURN}) == [];
    assert SortedSeq({}) == [];
  }

  lemma MergeSame()
    ensures Merge(Entry(), Entry()) == Some(Entry())
  {
    assert forall r :: 0 <= r < 32 ==> Entry().regs[r] == DefaultReg(r, Top);
    JoinsSelf(Entry());
  }

  lemma AskedIsSmooth()
    ensures Smooth(Code(), [], Asked(), map[Asked() := Places()], 0, {(0, 100)}, {})
    ensures Returns(Code(), Asked(), Places())
  {
    hide Transfer, Entry, Code, Merge;
    JumpFlows();
    ReturnFlows();
    MergeSame();
    assert 0 in Code().owner by { CodeOwner(); }
    var t, q := Asked(), Places();
    assert At(Code(), t, q[0]) == Flows(0, [Succ(100, Entry())], [], {(0, 100)}, false);
    assert At(Code(), t, q[1]) == Flows(0, [], [], {}, true);
    assert Lone(Code(), t, q, 0) && Lone(Code(), t, q, 1);
    assert Line(Code(), t, q);
  }

  lemma CodeOwner()
    ensures 0 in Code().owner
  {
  }

  /** Nothing explains a refusal of the function without stages, so it is accepted. */
  lemma NotRefused(g: CallGraph.Graph, why: Why)
    requires GraphGrew(Code(), Asked(), {}, g)
    ensures !Explains(Code(), [], Asked(), g, why)
  {
    hide Smooth, Returns, Explains, GraphGrew, CallGraph.Cyclic;
    AskedIsSmooth();
    SmoothLeaves(Code(), Asked(), map[Asked() := Places()], 0, {(0, 100)}, {}, g);
    Star({(0, 100)}, g, 0);
    StraightLine.NotRefused(Code(), [], Asked(), map[Asked() := Places()], 0, {(0, 100)}, {}, g, why);
  }

  /** With the stages no state recorded at the entry lets the jump through. */
  lemma NoStagedCert(c: Cert, bounds: map<Key, nat>)
    requires c.address == 0 && c.entry == Entry() && c.options == STAGED
    ensures !Closed(Code(), c, bounds)
  {
    var l := LocOf(0, Entry());
    if l in c.states && LeqState(Entry(), c.states[l]) {
      JumpRefused(c.states[l]);
      hide Transfer;
      assert !Settled(Transfer(Code(), c.options, c.entry, l.pc, c.states[l]), c.states, c.maximum, bounds);
    }
  }

  lemma JumpRefused(st: State)
    requires st.phase == 0
    ensures Transfer(Code(), STAGED, Entry(), 0, st).Rejected?
  {
    hide Execute, RefineBranch, RefineZero, Entry;
    assert {100} - {RETURN} == {100};
    One(100);
    var s, start := Site(0, 0, 4), Jump(st.regs, {}, 0, [], {});
    assert [100][..0] == [];
    assert IndexOf([200, 100], 100) == 1;
    assert JumpAll(Code(), STAGED, s, start, [100]) == JumpTo(Code(), STAGED, s, start, 100);
  }

  /** The same staged call on a fresh engine, and on one that has analysed the function before. */
  method StagedCalls() returns (alone: Option<nat>, after: Option<nat>)
    ensures alone.None? && after.Some?
  {
    hide Closed, Explains, GraphGrew, DefaultEntry;
    var e := new Engine(Code());
    ghost var c, why;
    alone, c, why := e.Analyze(ROOT, None, STAGED);
    if alone.Some? {
      NoStagedCert(c, e.cache);
    }
    var f := new Engine(Code());
    var plain;
    plain, c, why := f.Analyze(ROOT, None, DEFAULTS);
    if plain.None? {
      NotRefused(f.callGraph, why);
    }
    after, c, why := f.Analyze(ROOT, None, STAGED);
    assert c.options.stages != STAGED.stages;
  }
}
