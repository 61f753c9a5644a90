/**
 What a clean frame report says about leaving the body. The walker looks at sp where it sees an exit, and a
 `jal x0` to the outside is none in its eyes.
 */
module FrameExits {
  import opened Basics
  import opened FrameWalker

  predicate Inside(b: Body, target: Option<int>) {
    target.Some? && target.value in Starts(b)
  }

  /** Control may go from here to something that is not an instruction of the body; a call comes back. */
  predicate Leaves(b: Body, pc: int)
    requires Decoded(b, pc)
  {
    var i := IndexOf(b.instrs, pc);
    match b.instrs[i].kind
    case Return => true
    case JumpRegister(_) => true
    case SystemTrap => false
    case Jump(target) => !Inside(b, target)
    case Branch(target) => !Inside(b, target) || Fallthrough(b, i).None?
    case Link(rd, target, _) => if rd == Zero then !Inside(b, target) else Fallthrough(b, i).None?
    case LinkRegister(rd, _) => rd == Zero || Fallthrough(b, i).None?
    case Linear(_) => Fallthrough(b, i).None?
    case Unsupported => true
  }

  /** `jal x0` to a target outside the body. */
  predicate OutwardLink(b: Body, pc: int)
    requires Decoded(b, pc)
  {
    var kind := InsAt(b, pc).kind;
    kind.Link? && kind.rd == Zero && !Inside(b, kind.target)
  }

  /** What is understood and leaves the body is an exit for the walker, or an outward `jal x0`, never both. */
  lemma LeavesOrLinks(b: Body, lr: bool, pc: int)
    requires Decoded(b, pc) && Understood(b, lr, pc)
    ensures Leaves(b, pc) <==> FlowAt(b, lr, pc).exits || OutwardLink(b, pc)
    ensures !(FlowAt(b, lr, pc).exits && OutwardLink(b, pc))
  {
  }

  /**
   A clean body is left with sp restored on every way out if and only if it is on every outward `jal x0`; so it is
   when no such jump can be reached.
   */
  lemma LeavesRestored(b: Body, lr: bool)
    requires Clean(b, lr)
    ensures (forall w :: Walk(b, lr, w) && Leaves(b, w[|w| - 1]) ==> After(b, w) == 0) <==>
            forall w :: Walk(b, lr, w) && OutwardLink(b, w[|w| - 1]) ==> After(b, w) == 0
  {
    hide Leaves, OutwardLink, Next, After, FlowAt, Laid, StackStep;
    forall w | Walk(b, lr, w)
      ensures Leaves(b, w[|w| - 1]) ==> After(b, w) == 0 || OutwardLink(b, w[|w| - 1])
      ensures OutwardLink(b, w[|w| - 1]) ==> Leaves(b, w[|w| - 1])
    {
      assert CleanWalk(b, lr, w);
      LeavesOrLinks(b, lr, w[|w| - 1]);
    }
  }

  // ---- a clean body that is left with sp moved ----

  /** 0: beqz a0, 12; 4: addi sp, sp, -16; 8: jal x0, 1000; 12: ret. */
  function Silent(): Body {
    Body(0, [Ins(0, 4, Branch(Some(12)), Abi(10), None), Ins(4, 4, Linear(false), Sp, Some(-16)),
             Ins(8, 4, Link(Zero, Some(1000), false), Zero, None), Ins(12, 4, Return, NoRegister, None)])
  }

  lemma SilentFlows(lr: bool)
    ensures forall pc :: Decoded(Silent(), pc) <==> pc == 0 || pc == 4 || pc == 8 || pc == 12
    ensures Next(Silent(), lr, 0) == [12, 4] && Next(Silent(), lr, 4) == [8]
    ensures Next(Silent(), lr, 8) == Next(Silent(), lr, 12) == []
    ensures Moves(Silent(), 0) == Moves(Silent(), 8) == Moves(Silent(), 12) == 0 && Moves(Silent(), 4) == -16
    ensures forall pc :: Decoded(Silent(), pc) ==> Understood(Silent(), lr, pc)
    ensures forall pc :: Decoded(Silent(), pc) ==> (FlowAt(Silent(), lr, pc).exits <==> pc == 12)
    ensures OutwardLink(Silent(), 8) && Leaves(Silent(), 8)
  {
    var b := Silent();
    assert b.instrs[0].address == 0 && b.instrs[1].address == 4;
    assert b.instrs[2].address == 8 && b.instrs[3].address == 12;
    forall pc | Decoded(b, pc) ensures pc == 0 || pc == 4 || pc == 8 || pc == 12 {
      var k :| 0 <= k < |b.instrs| && b.instrs[k].address == pc;
    }
    assert 12 in Starts(b);
    assert 1000 !in Starts(b);
  }

  /** The walks of the body are the prefixes of its two paths. */
  lemma {:induction false} SilentWalks(lr: bool, w: seq<int>)
    requires Walk(Silent(), lr, w)
    ensures w == [0] || w == [0, 12] || w == [0, 4] || w == [0, 4, 8]
  {
    SilentFlows(lr);
    if |w| > 1 {
      var front := w[..|w| - 1];
      WalkPrefix(Silent(), lr, w, |w| - 1);
      SilentWalks(lr, front);
      WalkEdge(Silent(), lr, w, |w| - 2);
      hide Walk, Next, Decoded, Silent;
      assert w == front + [w[|w| - 1]];
    }
  }

  lemma SilentDeltas()
    ensures forall pc :: Decoded(Silent(), pc) <==> pc == 0 || pc == 4 || pc == 8 || pc == 12
    ensures Delta(Silent(), [0]) == 0 && Delta(Silent(), [0, 12]) == 0 && Delta(Silent(), [0, 4]) == 0
    ensures Delta(Silent(), [0, 4, 8]) == -16
  {
    SilentFlows(false);
    hide Decoded, Moves;
    var b := Silent();
    DeltaExtends(b, [0], 12);
    DeltaExtends(b, [0], 4);
    DeltaExtends(b, [0, 4], 8);
    assert [0] + [12] == [0, 12] && [0] + [4] == [0, 4] && [0, 4] + [8] == [0, 4, 8];
  }

  lemma SilentClean(lr: bool)
    ensures Clean(Silent(), lr)
    ensures Walk(Silent(), lr, [0, 4, 8]) && After(Silent(), [0, 4, 8]) == -16
  {
    var b := Silent();
    SilentLaid();
    SilentFlows(lr);
    SilentDeltas();
    hide Decoded, Moves, Next, Delta, Laid, Understood, FlowAt, OutwardLink, Leaves;
    forall w | Walk(b, lr, w) ensures CleanWalk(b, lr, w) {
      SilentWalks(lr, w);
    }
    assert Walk(b, lr, [0, 12]);
    assert Walk(b, lr, [0, 4, 8]);
    assert ExitWalk(b, lr, [0, 12]) by { assert Understood(b, lr, 12); }
  }

  lemma SilentLaid()
    ensures Laid(Silent())
  {
    var b := Silent();
    assert b.instrs[0].address == 0 && b.instrs[1].address == 4;
    assert b.instrs[2].address == 8 && b.instrs[3].address == 12;
    assert Starts(b) == {0, 4, 8, 12};
  }

  /** Its report is clean and counts one exit, and the walk through the outward `jal x0` leaves 16 bytes down. */
  method SilentExit(lr: bool) returns (r: Report)
    ensures r.issues == {}
    ensures var w := [0, 4, 8];
            && Walk(Silent(), lr, w) && Leaves(Silent(), w[2]) && OutwardLink(Silent(), w[2])
            && After(Silent(), w) == -16
  {
    SilentClean(lr);
    SilentFlows(lr);
    hide Clean, Walk, After;
    r := AnalyzeFrame(Silent(), lr);
  }
}
