/**
 Where control goes in a function body, instruction kind by instruction kind: what the walker follows, what it takes
 for an exit and what it does not understand, in terms of the decoded instructions alone.
 */
module FrameFlow {
  import opened Basics
  import opened Sets
  import opened FrameWalker

  /** The last instruction decoded at its address. */
  ghost predicate Last(b: Body, i: nat) {
    i < |b.instrs| && forall k :: i < k < |b.instrs| ==> b.instrs[k].address != b.instrs[i].address
  }

  /** The instruction behind `i` in the list starts where `i` ends. */
  predicate Contiguous(b: Body, i: nat)
    requires i < |b.instrs|
  {
    i + 1 < |b.instrs| && b.instrs[i + 1].address == b.instrs[i].address + b.instrs[i].size
  }

  lemma {:induction false} LastIndex(q: seq<Ins>, i: nat)
    requires i < |q| && forall k :: i < k < |q| ==> q[k].address != q[i].address
    ensures IndexOf(q, q[i].address) == i
  {
    if i < |q| - 1 {
      LastIndex(q[..|q| - 1], i);
    }
  }

  lemma FlowOfLast(b: Body, lr: bool, i: nat)
    requires Last(b, i)
    ensures Decoded(b, b.instrs[i].address) && InsAt(b, b.instrs[i].address) == b.instrs[i]
    ensures FlowAt(b, lr, b.instrs[i].address) == Flows(b, lr, i)
  {
    LastIndex(b.instrs, i);
  }

  lemma StartsDecoded(b: Body, t: int)
    ensures t in Starts(b) <==> Decoded(b, t)
  {
    DecodedStarts(b, t);
  }

  /**
   The walker goes from an understood instruction exactly to its target, when that is an instruction of the body, if
   it is a jump, a branch or a `jal x0`, and to the contiguous next one if it is a branch, a linking call or linear.
   */
  lemma NextExact(b: Body, lr: bool, i: nat, t: int)
    requires Last(b, i) && Decoded(b, b.instrs[i].address) && Understood(b, lr, b.instrs[i].address)
    ensures var ins := b.instrs[i];
            var targets := match ins.kind
                           case Jump(target) => target == Some(t)
                           case Branch(target) => target == Some(t)
                           case Link(rd, target, _) => rd == Zero && target == Some(t)
                           case _ => false;
            var proceeds := match ins.kind
                            case Branch(_) => true
                            case Link(rd, _, _) => rd != Zero
                            case LinkRegister(_, _) => true
                            case Linear(_) => true
                            case _ => false;
            t in Next(b, lr, ins.address) <==>
            && (exists k :: 0 <= k < |b.instrs| && b.instrs[k].address == t)
            && (targets || (proceeds && Contiguous(b, i) && t == ins.address + ins.size))
  {
    FlowOfLast(b, lr, i);
    StartsDecoded(b, t);
    if Contiguous(b, i) {
      assert b.instrs[i + 1].address == b.instrs[i].address + b.instrs[i].size;
    }
  }

  /** What an instruction does to sp, when it is understood. */
  lemma MovesExact(b: Body, lr: bool, i: nat)
    requires Last(b, i) && Decoded(b, b.instrs[i].address) && Understood(b, lr, b.instrs[i].address)
    ensures var ins := b.instrs[i];
            && (ins.first == Sp ==> ins.spImmediate.Some?)
            && Moves(b, ins.address) == if ins.first == Sp then ins.spImmediate.value else 0
  {
    FlowOfLast(b, lr, i);
  }

  /** Control may leave the function here: a return, `jr ra`, a known `jr t0`, or a direct jump out of the body. */
  lemma ExitsExact(b: Body, lr: bool, i: nat)
    requires Last(b, i) && Decoded(b, b.instrs[i].address) && Understood(b, lr, b.instrs[i].address)
    ensures FlowAt(b, lr, b.instrs[i].address).exits <==>
            match b.instrs[i].kind
            case Return => true
            case JumpRegister(rs) => rs == Ra || rs == T0
            case Jump(target) =>
              target.Some? && forall k :: 0 <= k < |b.instrs| ==> b.instrs[k].address != target.value
            case _ => false
  {
    FlowOfLast(b, lr, i);
    var kind := b.instrs[i].kind;
    if kind.Jump? && kind.target.Some? {
      StartsDecoded(b, kind.target.value);
    }
  }

  /**
   Exactly when an instruction is understood: sp changes only by an immediate, the link register is not written, and
   control goes to known places of the body or to a known exit.
   */
  lemma UnderstoodExact(b: Body, lr: bool, i: nat)
    requires Last(b, i) && Decoded(b, b.instrs[i].address)
    ensures var ins := b.instrs[i];
            var inBody := (target: Option<int>) =>
              target.Some? && exists k :: 0 <= k < |b.instrs| && b.instrs[k].address == target.value;
            var links := match ins.kind
                         case Link(_, _, compressed) => compressed || ins.first == Ra
                         case Linear(store) => ins.first == Ra && !store
                         case Branch(_) => false
                         case Jump(_) => false
                         case Return => false
                         case JumpRegister(_) => false
                         case _ => ins.first == Ra;
            var known := match ins.kind
                         case Return => true
                         case JumpRegister(rs) => rs == Ra || (rs == T0 && lr)
                         case SystemTrap => false
                         case Jump(target) => target.Some?
                         case Branch(target) => inBody(target) && Contiguous(b, i)
                         case Link(rd, target, _) =>
                           target.Some? && (rd == Zero || (rd != Foreign && rd != NoRegister && Contiguous(b, i)))
                         case LinkRegister(rd, target) => rd != Zero && target.Some? && Contiguous(b, i)
                         case Linear(_) => Contiguous(b, i)
                         case Unsupported => false;
            Understood(b, lr, ins.address) <==> (ins.first == Sp ==> ins.spImmediate.Some?) && !links && known
  {
    FlowOfLast(b, lr, i);
    var kind := b.instrs[i].kind;
    if kind.Branch? && kind.target.Some? {
      StartsDecoded(b, kind.target.value);
    }
  }

  // ---- a clean body ----

  ghost predicate AddressesDiffer(b: Body) {
    forall i, j :: 0 <= i < j < |b.instrs| ==> b.instrs[i].address != b.instrs[j].address
  }

  /** A body is laid out when it starts where it should and each instruction starts where the one before ends. */
  lemma LaidMeans(b: Body)
    ensures Laid(b) <==>
            && b.instrs != [] && b.instrs[0].address == b.start && AddressesDiffer(b)
            && forall i :: 0 <= i < |b.instrs| - 1 ==> Contiguous(b, i)
  {
    StartsCounted(b);
    hide AddressesDiffer, Starts;
    if forall i :: 0 <= i < |b.instrs| - 1 ==> Contiguous(b, i) {
      forall i | 0 <= i < |b.instrs| - 1
        ensures b.instrs[i].address + b.instrs[i].size == b.instrs[i + 1].address
      {
        assert Contiguous(b, i);
      }
    }
  }

  lemma StartsCounted(b: Body)
    ensures |Starts(b)| == |b.instrs| <==> AddressesDiffer(b)
  {
    var w := seq(|b.instrs|, i requires 0 <= i < |b.instrs| => b.instrs[i].address);
    forall i | 0 <= i < |w| ensures w[i] in Starts(b) {
      assert b.instrs[i].address == w[i];
    }
    forall x | x in Starts(b) ensures x in w {
      var k :| 0 <= k < |b.instrs| && b.instrs[k].address == x;
      assert w[k] == x;
    }
    hide Starts;
    MembersLength(Starts(b), w);
    if AddressesDiffer(b) {
      DistinctLength(w, Starts(b));
    } else {
      var i, j :| 0 <= i < j < |b.instrs| && b.instrs[i].address == b.instrs[j].address;
      FewerThan(Starts(b), w, i, j);
    }
  }

  lemma FewerThan(s: set<int>, w: seq<int>, i: nat, j: nat)
    requires (forall x :: x in s ==> x in w) && i < j < |w| && w[i] == w[j]
    ensures |s| < |w|
  {
    var rest := w[..j] + w[j + 1..];
    forall x | x in s ensures x in rest {
      var k :| 0 <= k < |w| && w[k] == x;
      assert rest[if k < j then k else if k == j then i else k - 1] == x;
    }
    MembersLength(s, rest);
  }

  /**
   A report is clean exactly for a laid-out body where every walk ends at an understood instruction, leaves with sp
   restored and comes back to an instruction only with the same sp, and where some walk leaves.
   */
  lemma CleanMeans(b: Body, lr: bool)
    ensures Clean(b, lr) <==>
            && Laid(b)
            && (forall w :: Walk(b, lr, w) ==>
                  && Understood(b, lr, w[|w| - 1])
                  && (FlowAt(b, lr, w[|w| - 1]).exits ==> Delta(b, w) + Moves(b, w[|w| - 1]) == 0)
                  && forall i, j :: 0 <= i < j < |w| && w[i] == w[j] ==> Delta(b, w[..i + 1]) == Delta(b, w[..j + 1]))
            && exists w :: Walk(b, lr, w) && Understood(b, lr, w[|w| - 1]) && FlowAt(b, lr, w[|w| - 1]).exits
  {
    hide Laid, Delta, Moves, FlowAt;
    if Clean(b, lr) {
      var w :| ExitWalk(b, lr, w);
      assert CleanWalk(b, lr, w);
    } else if w :| Walk(b, lr, w) && Understood(b, lr, w[|w| - 1]) && FlowAt(b, lr, w[|w| - 1]).exits {
      assert ExitWalk(b, lr, w);
    }
  }

  // ---- a loop that moves sp ----

  /** 0: beqz a0, 12; 4: addi sp, sp, -16; 8: j 0; 12: ret. */
  function Sinking(): Body {
    Body(0, [Ins(0, 4, Branch(Some(12)), Abi(10), None), Ins(4, 4, Linear(false), Sp, Some(-16)),
             Ins(8, 4, Jump(Some(0)), NoRegister, None), Ins(12, 4, Return, NoRegister, None)])
  }

  lemma SinkingFlows(lr: bool)
    ensures forall pc :: pc in {0, 4, 8, 12} ==> Decoded(Sinking(), pc)
    ensures Next(Sinking(), lr, 0) == [12, 4] && Next(Sinking(), lr, 4) == [8] && Next(Sinking(), lr, 8) == [0]
    ensures Moves(Sinking(), 0) == 0 && Moves(Sinking(), 4) == -16 && Moves(Sinking(), 8) == 0
  {
    var b := Sinking();
    assert b.instrs[0].address == 0 && b.instrs[1].address == 4;
    assert b.instrs[2].address == 8 && b.instrs[3].address == 12;
    assert 12 in Starts(b) && 0 in Starts(b);
  }

  lemma SinkingWalk(lr: bool)
    ensures Walk(Sinking(), lr, [0, 4, 8, 0]) && Delta(Sinking(), [0]) == 0 && Delta(Sinking(), [0, 4, 8, 0]) == -16
  {
    SinkingFlows(lr);
    hide Next, Decoded, Moves;
    var b := Sinking();
    DeltaExtends(b, [0], 4);
    DeltaExtends(b, [0, 4], 8);
    DeltaExtends(b, [0, 4, 8], 0);
    assert [0] + [4] == [0, 4] && [0, 4] + [8] == [0, 4, 8] && [0, 4, 8] + [0] == [0, 4, 8, 0];
  }

  /** The backward jump is followed, and the loop that lowers sp each time round is reported. */
  method SinkingReported(lr: bool) returns (r: Report)
    ensures r.issues != {}
  {
    SinkingWalk(lr);
    var w := [0, 4, 8, 0];
    assert w[..0 + 1] == [0] && w[..3 + 1] == w;
    hide Next, Decoded, Moves, Laid, Walk, Delta, Sinking;
    assert Clean(Sinking(), lr) ==> CleanWalk(Sinking(), lr, w);
    assert w[0] == w[3];
    r := AnalyzeFrame(Sinking(), lr);
  }
}
