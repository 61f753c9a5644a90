/**
 The stack-frame walker: a path search over (pc, sp delta) pairs that reports no issue exactly when the body
 is laid out contiguously, every reachable instruction is understood, every exit restores sp and no reachable
 cycle moves it.
 */
module FrameWalker {

  import opened Basics
  import opened Sets
  import opened Words

  datatype Register = Zero | Ra | Sp | T0 | Abi(n: nat) | Foreign | NoRegister

  /** Decoded control flow; `first` of an instruction is its first operand, source or destination. */
  datatype Kind =
    | Return
    | JumpRegister(rs: Register)
    | SystemTrap
    | Jump(target: Option<int>)
    | Branch(target: Option<int>)
    | Link(rd: Register, target: Option<int>, compressed: bool)
    | LinkRegister(rd: Register, target: Option<int>)
    | Linear(store: bool)
    | Unsupported

  /** `spImmediate` is the immediate of an add of the form sp := sp + n. */
  datatype Ins = Ins(address: int, size: nat, kind: Kind, first: Register, spImmediate: Option<int>)

  datatype Body = Body(start: int, instrs: seq<Ins>)

  datatype Issue =
    | MissingBody
    | DuplicateAddress
    | WrongStart
    | Gap(left: int)
    | WritesLink(pc: int)
    | DynamicStack(pc: int)
    | Flow(pc: int)
    | UnbalancedExit(pc: int, after: int)
    | MovingCycle(pc: int, next: int, after: int, earlier: int)
    | NoExit

  /** Signed sp change, or `None` for an unsupported write of sp. */
  function StackStep(ins: Ins): Option<int> {
    if ins.first != Sp then Some(0) else ins.spImmediate
  }

  predicate WritesLinkRegister(ins: Ins) {
    match ins.kind
    case Link(_, _, compressed) => ins.first == Ra || compressed
    case LinkRegister(_, _) => ins.first == Ra
    case Branch(_) => false
    case Jump(_) => false
    case Return => false
    case JumpRegister(_) => false
    case Linear(store) => ins.first == Ra && !store
    case _ => ins.first == Ra
  }

  function Starts(b: Body): set<int> {
    set i | 0 <= i < |b.instrs| :: b.instrs[i].address
  }

  /** The last instruction decoded at `pc`. */
  function IndexOf(q: seq<Ins>, pc: int): (i: nat)
    requires exists k :: 0 <= k < |q| && q[k].address == pc
    ensures i < |q| && q[i].address == pc
  {
    if q[|q| - 1].address == pc then |q| - 1 else IndexOf(q[..|q| - 1], pc)
  }

  datatype Succession = Succession(next: seq<int>, exits: bool, problem: bool)

  const BROKEN: Succession := Succession([], false, true)

  function Fallthrough(b: Body, i: nat): Option<int>
    requires i < |b.instrs|
  {
    if i + 1 < |b.instrs| && b.instrs[i + 1].address == b.instrs[i].address + b.instrs[i].size
    then Some(b.instrs[i + 1].address) else None
  }

  function To(next: Option<int>): Succession {
    if next.None? then BROKEN else Succession([next.value], false, false)
  }

  function Successors(b: Body, i: nat): Succession
    requires i < |b.instrs|
  {
    var next := Fallthrough(b, i);
    match b.instrs[i].kind
    case Return => Succession([], true, false)
    case JumpRegister(rs) => if rs == Ra || rs == T0 then Succession([], true, false) else BROKEN
    case SystemTrap => BROKEN
    case Jump(target) =>
      if target.Some? && target.value in Starts(b) then Succession([target.value], false, false)
      else Succession([], true, target.None?)
    case Branch(target) =>
      if target.None? || target.value !in Starts(b) || next.None? then BROKEN
      else Succession([target.value, next.value], false, false)
    case Link(rd, target, _) =>
      if rd == Zero then
        Succession(if target.Some? && target.value in Starts(b) then [target.value] else [], false, target.None?)
      else if rd == Foreign || rd == NoRegister || target.None? then BROKEN
      else To(next)
    case LinkRegister(rd, target) => if rd == Zero || target.None? then BROKEN else To(next)
    case Linear(_) => To(next)
    case Unsupported => BROKEN
  }

  /** A `jr t0` continues an outlined caller only when such a caller is known. */
  function Flows(b: Body, linkReturn: bool, i: nat): Succession
    requires i < |b.instrs|
  {
    if b.instrs[i].kind == JumpRegister(T0) && !linkReturn then BROKEN else Successors(b, i)
  }

  // ---- the successor graph ----

  predicate Decoded(b: Body, pc: int) {
    exists k :: 0 <= k < |b.instrs| && b.instrs[k].address == pc
  }

  function InsAt(b: Body, pc: int): Ins
    requires Decoded(b, pc)
  {
    b.instrs[IndexOf(b.instrs, pc)]
  }

  function FlowAt(b: Body, lr: bool, pc: int): Succession
    requires Decoded(b, pc)
  {
    Flows(b, lr, IndexOf(b.instrs, pc))
  }

  /** The edges the walker follows: none after an unsupported write of sp. */
  function Next(b: Body, lr: bool, pc: int): seq<int>
    requires Decoded(b, pc)
  {
    if StackStep(InsAt(b, pc)).None? then [] else FlowAt(b, lr, pc).next
  }

  function Moves(b: Body, pc: int): int
    requires Decoded(b, pc)
  {
    var s := StackStep(InsAt(b, pc));
    if s.None? then 0 else s.value
  }

  lemma NextDecoded(b: Body, lr: bool, pc: int, t: int)
    requires Decoded(b, pc) && t in Next(b, lr, pc)
    ensures Decoded(b, t)
  {
    var i := IndexOf(b.instrs, pc);
    if Fallthrough(b, i).Some? {
      assert b.instrs[i + 1].address == Fallthrough(b, i).value;
    }
    if t in Starts(b) {
      var k :| 0 <= k < |b.instrs| && b.instrs[k].address == t;
    }
  }

  ghost predicate Walk(b: Body, lr: bool, w: seq<int>) {
    && b.instrs != [] && |w| >= 1 && w[0] == b.instrs[0].address
    && (forall i :: 0 <= i < |w| ==> Decoded(b, w[i]))
    && forall i :: 0 <= i < |w| - 1 ==> w[i + 1] in Next(b, lr, w[i])
  }

  /** The sp change on arrival at the last instruction of the walk. */
  ghost function Delta(b: Body, w: seq<int>): int
    requires forall i :: 0 <= i < |w| ==> Decoded(b, w[i])
  {
    if |w| < 2 then 0 else Delta(b, w[..|w| - 1]) + Moves(b, w[|w| - 2])
  }

  /** The sp change after the last instruction of the walk. */
  ghost function After(b: Body, w: seq<int>): int
    requires |w| >= 1 && forall i :: 0 <= i < |w| ==> Decoded(b, w[i])
  {
    Delta(b, w) + Moves(b, w[|w| - 1])
  }

  lemma DeltaExtends(b: Body, w: seq<int>, t: int)
    requires |w| >= 1 && (forall i :: 0 <= i < |w| ==> Decoded(b, w[i])) && Decoded(b, t)
    ensures forall i :: 0 <= i < |w + [t]| ==> Decoded(b, (w + [t])[i])
    ensures Delta(b, w + [t]) == After(b, w)
  {
    assert (w + [t])[..|w + [t]| - 1] == w;
  }

  lemma WalkExtends(b: Body, lr: bool, w: seq<int>, t: int)
    requires Walk(b, lr, w) && t in Next(b, lr, w[|w| - 1])
    ensures Walk(b, lr, w + [t]) && Delta(b, w + [t]) == After(b, w)
  {
    NextDecoded(b, lr, w[|w| - 1], t);
    DeltaExtends(b, w, t);
    var v := w + [t];
    forall i | 0 <= i < |v| - 1 ensures v[i + 1] in Next(b, lr, v[i]) {
      if i < |w| - 1 {
        assert w[i + 1] in Next(b, lr, w[i]);
      }
    }
  }

  lemma WalkPrefix(b: Body, lr: bool, w: seq<int>, n: nat)
    requires Walk(b, lr, w) && 1 <= n <= |w|
    ensures Walk(b, lr, w[..n])
  {
  }

  // ---- what a clean body is ----

  ghost predicate Laid(b: Body) {
    && b.instrs != []
    && |Starts(b)| == |b.instrs|
    && b.instrs[0].address == b.start
    && forall i :: 0 <= i < |b.instrs| - 1 ==> b.instrs[i].address + b.instrs[i].size == b.instrs[i + 1].address
  }

  ghost predicate Understood(b: Body, lr: bool, pc: int)
    requires Decoded(b, pc)
  {
    StackStep(InsAt(b, pc)).Some? && !WritesLinkRegister(InsAt(b, pc)) && !FlowAt(b, lr, pc).problem
  }

  /** A walk that comes back to an instruction comes back with the same sp. */
  ghost predicate Balanced(b: Body, w: seq<int>)
    requires forall i :: 0 <= i < |w| ==> Decoded(b, w[i])
  {
    forall i, j :: 0 <= i < j < |w| && w[i] == w[j] ==> Delta(b, w[..i + 1]) == Delta(b, w[..j + 1])
  }

  ghost predicate CleanWalk(b: Body, lr: bool, w: seq<int>)
    requires Walk(b, lr, w)
  {
    && Understood(b, lr, w[|w| - 1])
    && (FlowAt(b, lr, w[|w| - 1]).exits ==> After(b, w) == 0)
    && Balanced(b, w)
  }

  ghost predicate ExitWalk(b: Body, lr: bool, w: seq<int>) {
    Walk(b, lr, w) && StackStep(InsAt(b, w[|w| - 1])).Some? && FlowAt(b, lr, w[|w| - 1]).exits
  }

  ghost predicate Clean(b: Body, lr: bool) {
    && Laid(b)
    && (forall w :: Walk(b, lr, w) ==> CleanWalk(b, lr, w))
    && exists w :: ExitWalk(b, lr, w)
  }

  /** Some part of the body or some walk gives a reason for an issue. */
  ghost predicate Faulty(b: Body, lr: bool) {
    !Laid(b) || exists w :: Walk(b, lr, w) && !CleanWalk(b, lr, w)
  }

  // ---- reachable deltas are bounded along paths that repeat no instruction ----

  function LargestMove(q: seq<Ins>): nat {
    if q == [] then 0
    else
      var rest := LargestMove(q[1..]);
      var s := StackStep(q[0]);
      if s.Some? && Abs(s.value) > rest then Abs(s.value) else rest
  }

  lemma {:induction false} LargestMoveBounds(q: seq<Ins>, i: nat)
    requires i < |q| && StackStep(q[i]).Some?
    ensures Abs(StackStep(q[i]).value) <= LargestMove(q)
  {
    if i > 0 {
      LargestMoveBounds(q[1..], i - 1);
    }
  }

  lemma {:induction false} DeltaBounded(b: Body, w: seq<int>)
    requires |w| >= 1 && forall i :: 0 <= i < |w| ==> Decoded(b, w[i])
    ensures Abs(Delta(b, w)) <= (|w| - 1) * LargestMove(b.instrs)
  {
    hide Moves, Decoded;
    if |w| >= 2 {
      var v := w[..|w| - 1];
      DeltaBounded(b, v);
      MoveBounded(b, v[|v| - 1]);
      Distribute(|v| - 1, LargestMove(b.instrs));
    }
  }

  lemma Distribute(n: nat, k: nat)
    ensures (n + 1) * k == n * k + k
  {
  }

  lemma MoveBounded(b: Body, pc: int)
    requires Decoded(b, pc)
    ensures Abs(Moves(b, pc)) <= LargestMove(b.instrs)
  {
    if StackStep(InsAt(b, pc)).Some? {
      LargestMoveBounds(b.instrs, IndexOf(b.instrs, pc));
    }
  }

  function Reach(b: Body): (r: int)
    ensures r >= 0
  {
    |Starts(b)| * LargestMove(b.instrs)
  }

  /** Every (pc, delta) pair a path without repetition can end in. */
  ghost function Universe(b: Body): set<(int, int)> {
    set pc, d | pc in Starts(b) && -Reach(b) <= d <= Reach(b) :: (pc, d)
  }

  lemma DecodedStarts(b: Body, pc: int)
    ensures Decoded(b, pc) <==> pc in Starts(b)
  {
    if Decoded(b, pc) {
      var k :| 0 <= k < |b.instrs| && b.instrs[k].address == pc;
      assert b.instrs[k].address in Starts(b);
    }
  }

  lemma WithinUniverse(b: Body, lr: bool, w: seq<int>)
    requires Walk(b, lr, w) && Distinct(w)
    ensures (w[|w| - 1], Delta(b, w)) in Universe(b)
  {
    forall i | 0 <= i < |w| ensures w[i] in Starts(b) {
      DecodedStarts(b, w[i]);
    }
    DistinctLength(w, Starts(b));
    DeltaBounded(b, w);
    var k := LargestMove(b.instrs);
    assert (|w| - 1) * k <= |Starts(b)| * k by { MulMonotone(|w| - 1, |Starts(b)|, k); }
  }

  lemma MulMonotone(x: nat, y: nat, k: nat)
    requires x <= y
    ensures x * k <= y * k
  {
  }

  // ---- going round a cycle ----

  /** `u` goes on from `v` for `m` steps the way `w` goes on from index `i`. */
  ghost predicate Continues(b: Body, lr: bool, u: seq<int>, v: seq<int>, w: seq<int>, i: nat, m: nat)
    requires Walk(b, lr, v) && Walk(b, lr, w) && i + m < |w|
  {
    && u == v + w[i + 1..i + 1 + m]
    && Walk(b, lr, u) && u[|u| - 1] == w[i + m]
    && Delta(b, u) == Delta(b, v) + Delta(b, w[..i + m + 1]) - Delta(b, w[..i + 1])
  }

  lemma {:induction false} Continue(b: Body, lr: bool, v: seq<int>, w: seq<int>, i: nat, m: nat) returns (u: seq<int>)
    requires Walk(b, lr, v) && Walk(b, lr, w) && i + m < |w| && v[|v| - 1] == w[i]
    ensures Continues(b, lr, u, v, w, i, m)
  {
    hide Walk, Delta, After, Next, Decoded, Moves, Continues;
    if m == 0 {
      u := v;
      ContinuesNowhere(b, lr, v, w, i);
    } else {
      var t := Continue(b, lr, v, w, i, m - 1);
      u := t + [w[i + m]];
      ContinuesStep(b, lr, t, v, w, i, m);
    }
  }

  lemma ContinuesNowhere(b: Body, lr: bool, v: seq<int>, w: seq<int>, i: nat)
    requires Walk(b, lr, v) && Walk(b, lr, w) && i < |w| && v[|v| - 1] == w[i]
    ensures Continues(b, lr, v, v, w, i, 0)
  {
    hide Next, Decoded, Moves, Delta;
    assert v + w[i + 1..i + 1] == v;
  }

  lemma ContinuesStep(b: Body, lr: bool, t: seq<int>, v: seq<int>, w: seq<int>, i: nat, m: nat)
    requires Walk(b, lr, v) && Walk(b, lr, w) && 0 < m && i + m < |w|
    requires Continues(b, lr, t, v, w, i, m - 1)
    ensures Continues(b, lr, t + [w[i + m]], v, w, i, m)
  {
    WalkDecoded(b, lr, w);
    WalkDecoded(b, lr, t);
    WalkEdge(b, lr, w, i + m - 1);
    hide Walk, Delta, After, Next, Decoded, Moves;
    WalkExtends(b, lr, t, w[i + m]);
    SliceExtends(v, w, i, m);
    AfterPrefix(b, w, i + m - 1);
    AfterLast(b, t);
  }

  lemma WalkEdge(b: Body, lr: bool, w: seq<int>, n: nat)
    requires Walk(b, lr, w) && n + 1 < |w|
    ensures Decoded(b, w[n]) && w[n + 1] in Next(b, lr, w[n])
  {
  }

  lemma WalkDecoded(b: Body, lr: bool, w: seq<int>)
    requires Walk(b, lr, w)
    ensures |w| >= 1 && forall i :: 0 <= i < |w| ==> Decoded(b, w[i])
  {
  }

  lemma SliceExtends(v: seq<int>, w: seq<int>, i: nat, m: nat)
    requires 0 < m && i + m < |w|
    ensures v + w[i + 1..i + m] + [w[i + m]] == v + w[i + 1..i + 1 + m]
  {
  }

  lemma AfterPrefix(b: Body, w: seq<int>, n: nat)
    requires n + 1 < |w| && forall i :: 0 <= i < |w| ==> Decoded(b, w[i])
    ensures Delta(b, w[..n + 2]) == Delta(b, w[..n + 1]) + Moves(b, w[n])
  {
    DeltaExtends(b, w[..n + 1], w[n + 1]);
    assert w[..n + 1] + [w[n + 1]] == w[..n + 2];
  }

  lemma AfterLast(b: Body, w: seq<int>)
    requires |w| >= 1 && forall i :: 0 <= i < |w| ==> Decoded(b, w[i])
    ensures After(b, w) == Delta(b, w) + Moves(b, w[|w| - 1])
  {
  }

  lemma {:induction false} Pump(b: Body, lr: bool, w: seq<int>, i: nat, j: nat, k: nat) returns (v: seq<int>)
    requires Walk(b, lr, w) && i < j < |w| && w[i] == w[j]
    ensures Walk(b, lr, v) && v[|v| - 1] == w[i]
    ensures Delta(b, v) == Delta(b, w[..i + 1]) + k * (Delta(b, w[..j + 1]) - Delta(b, w[..i + 1]))
  {
    hide Next, Decoded, Moves;
    if k == 0 {
      WalkPrefix(b, lr, w, i + 1);
      v := w[..i + 1];
    } else {
      var u := Pump(b, lr, w, i, j, k - 1);
      v := Continue(b, lr, u, w, i, j - i);
      var net := Delta(b, w[..j + 1]) - Delta(b, w[..i + 1]);
      assert (k - 1) * net + net == k * net;
    }
  }

  // ---- the search ----

  ghost predicate Visited(b: Body, lr: bool, seen: set<(int, int)>, w: seq<int>)
    requires Walk(b, lr, w)
  {
    (w[|w| - 1], Delta(b, w)) in seen
  }

  /** What processing one pair leaves behind. */
  ghost predicate Checked(b: Body, lr: bool, s: (int, int), issues: set<Issue>, exits: nat, least: int) {
    && Decoded(b, s.0)
    && (!Understood(b, lr, s.0) ==> issues != {})
    && (StackStep(InsAt(b, s.0)).Some? ==>
          && least <= s.1 + Moves(b, s.0)
          && (FlowAt(b, lr, s.0).exits ==> exits > 0 && (s.1 + Moves(b, s.0) != 0 ==> issues != {})))
  }

  ghost predicate ClosedUnder(b: Body, lr: bool, seen: set<(int, int)>) {
    forall s, t :: s in seen && Decoded(b, s.0) && t in Next(b, lr, s.0) ==> (t, s.1 + Moves(b, s.0)) in seen
  }

  lemma {:induction false} AllVisited(b: Body, lr: bool, seen: set<(int, int)>, w: seq<int>)
    requires ClosedUnder(b, lr, seen)
    requires Walk(b, lr, w) && (b.instrs[0].address, 0) in seen
    ensures Visited(b, lr, seen, w)
  {
    hide Next, Decoded, Moves;
    if |w| > 1 {
      var v := w[..|w| - 1];
      WalkPrefix(b, lr, w, |w| - 1);
      AllVisited(b, lr, seen, v);
      var n := |w| - 2;
      assert w[n + 1] in Next(b, lr, w[n]);
      var s := (w[n], Delta(b, v));
      assert (w[n + 1], s.1 + Moves(b, s.0)) in seen;
    }
  }

  /** A finite closed set of pairs cannot contain a cycle that moves sp: going round would leave it. */
  lemma NoMovingCycle(b: Body, lr: bool, seen: set<(int, int)>, w: seq<int>)
    requires ClosedUnder(b, lr, seen) && seen <= Universe(b)
    requires Walk(b, lr, w) && (b.instrs[0].address, 0) in seen
    ensures Balanced(b, w)
  {
    hide Next, Decoded, Moves;
    forall i, j | 0 <= i < j < |w| && w[i] == w[j]
      ensures Delta(b, w[..i + 1]) == Delta(b, w[..j + 1])
    {
      var d, net := Delta(b, w[..i + 1]), Delta(b, w[..j + 1]) - Delta(b, w[..i + 1]);
      var k := Reach(b) + Abs(d) + 1;
      var v := Pump(b, lr, w, i, j, k);
      AllVisited(b, lr, seen, v);
      assert Abs(d + k * net) <= Reach(b);
      if net != 0 {
        GoesFar(k, net);
        assert false;
      }
    }
  }

  lemma GoesFar(k: nat, net: int)
    requires net != 0
    ensures Abs(k * net) >= k
  {
    if net > 0 {
      MulMonotone(1, net, k);
    } else {
      MulMonotone(1, -net, k);
      assert k * net == -(-net * k);
    }
  }

  datatype Item = Item(pc: int, delta: int, path: seq<(int, int)>)

  function Pcs(path: seq<(int, int)>): seq<int> {
    seq(|path|, k requires 0 <= k < |path| => path[k].0)
  }

  /** A pushed path is a walk without repetition, annotated with the deltas it arrives with. */
  ghost predicate GoodItem(b: Body, lr: bool, it: Item, seen: set<(int, int)>) {
    && |it.path| >= 1 && it.path[|it.path| - 1] == (it.pc, it.delta)
    && Walk(b, lr, Pcs(it.path)) && Distinct(Pcs(it.path))
    && (forall k :: 0 <= k < |it.path| ==> it.path[k].1 == Delta(b, Pcs(it.path)[..k + 1]))
    && (forall k :: 0 <= k < |it.path| - 1 ==> it.path[k] in seen)
  }

  ghost predicate Pending(work: seq<Item>, p: (int, int)) {
    exists k :: 0 <= k < |work| && (work[k].pc, work[k].delta) == p
  }

  /** The pair has been or will be looked at, unless the search already has something to report. */
  ghost predicate Arrived(seen: set<(int, int)>, work: seq<Item>, issues: set<Issue>, p: (int, int)) {
    p in seen || Pending(work, p) || issues != {}
  }

  ghost predicate Attained(b: Body, lr: bool, least: int) {
    least == 0 || exists w :: Walk(b, lr, w) && After(b, w) == least
  }

  ghost predicate Search(b: Body, lr: bool, work: seq<Item>, seen: set<(int, int)>, issues: set<Issue>, exits: nat,
      least: int) {
    && b.instrs != [] && seen <= Universe(b)
    && (forall k :: 0 <= k < |work| ==> GoodItem(b, lr, work[k], seen))
    && (forall s :: s in seen ==> Checked(b, lr, s, issues, exits, least))
    && (forall s, t :: s in seen && Decoded(b, s.0) && t in Next(b, lr, s.0) ==>
          Arrived(seen, work, issues, (t, s.1 + Moves(b, s.0))))
    && Arrived(seen, work, issues, (b.instrs[0].address, 0))
    && (issues != {} ==> Faulty(b, lr))
    && (!Laid(b) ==> issues != {})
    && (exits > 0 ==> exists w :: ExitWalk(b, lr, w))
    && least <= 0 && Attained(b, lr, least)
  }

  /** The delta the path recorded for `pc`, most recent first. */
  function Earlier(path: seq<(int, int)>, pc: int): (d: Option<int>)
    ensures d.None? ==> forall k :: 0 <= k < |path| ==> path[k].0 != pc
    ensures d.Some? ==> exists k :: 0 <= k < |path| && path[k] == (pc, d.value)
  {
    if path == [] then None
    else if path[|path| - 1].0 == pc then Some(path[|path| - 1].1)
    else Earlier(path[..|path| - 1], pc)
  }

  method CheckLayout(b: Body) returns (issues: set<Issue>)
    requires b.instrs != []
    ensures issues != {} <==> !Laid(b)
  {
    issues := {};
    if |Starts(b)| != |b.instrs| {
      issues := issues + {DuplicateAddress};
    }
    if b.instrs[0].address != b.start {
      issues := issues + {WrongStart};
    }
    var i := 0;
    while i + 1 < |b.instrs|
      invariant 0 <= i < |b.instrs|
      invariant issues != {} <==>
                  !(|Starts(b)| == |b.instrs| && b.instrs[0].address == b.start
                    && forall k :: 0 <= k < i ==> b.instrs[k].address + b.instrs[k].size == b.instrs[k + 1].address)
    {
      if b.instrs[i].address + b.instrs[i].size != b.instrs[i + 1].address {
        issues := issues + {Gap(b.instrs[i].address)};
        assert Gap(b.instrs[i].address) in issues;
      }
      i := i + 1;
    }
  }

  lemma MovingCycleFaulty(b: Body, lr: bool, it: Item, t: int, k: nat, seen: set<(int, int)>)
    requires GoodItem(b, lr, it, seen) && Decoded(b, it.pc) && t in Next(b, lr, it.pc)
    requires k < |it.path| && it.path[k].0 == t && it.path[k].1 != it.delta + Moves(b, it.pc)
    ensures Faulty(b, lr)
  {
    hide Next, Decoded, Moves, Laid;
    var w := Pcs(it.path);
    WalkExtends(b, lr, w, t);
    var v := w + [t];
    assert v[..|w| + 1] == v;
    assert v[..k + 1] == w[..k + 1];
    assert w[..|it.path|] == w;
    assert it.path[|it.path| - 1].1 == Delta(b, w[..|it.path| - 1 + 1]);
    assert v[k] == v[|w|] == t;
    assert !Balanced(b, v);
    assert !CleanWalk(b, lr, v);
  }

  lemma PushGood(b: Body, lr: bool, it: Item, t: int, seen: set<(int, int)>)
    requires GoodItem(b, lr, it, seen) && (it.pc, it.delta) in seen
    requires Decoded(b, it.pc) && t in Next(b, lr, it.pc)
    requires forall k :: 0 <= k < |it.path| ==> it.path[k].0 != t
    ensures var after := it.delta + Moves(b, it.pc);
            GoodItem(b, lr, Item(t, after, it.path + [(t, after)]), seen)
  {
    hide Next, Decoded, Moves;
    var after := it.delta + Moves(b, it.pc);
    var w, path := Pcs(it.path), it.path + [(t, after)];
    assert Pcs(path) == w + [t];
    WalkExtends(b, lr, w, t);
    assert w[..|it.path|] == w;
    assert it.path[|it.path| - 1].1 == Delta(b, w[..|it.path| - 1 + 1]);
    forall k | 0 <= k < |path| ensures path[k].1 == Delta(b, Pcs(path)[..k + 1]) {
      if k < |w| {
        assert Pcs(path)[..k + 1] == w[..k + 1];
      } else {
        assert Pcs(path)[..k + 1] == w + [t];
      }
    }
  }

  /** Pushes every successor that does not close a cycle; a cycle that moves sp is reported instead. */
  method Expand(b: Body, lr: bool, it: Item, next: seq<int>, after: int, work: seq<Item>, issues: set<Issue>,
                ghost seen: set<(int, int)>)
    returns (work': seq<Item>, issues': set<Issue>)
    requires GoodItem(b, lr, it, seen) && (it.pc, it.delta) in seen && Decoded(b, it.pc)
    requires next == Next(b, lr, it.pc) && after == it.delta + Moves(b, it.pc)
    requires forall k :: 0 <= k < |work| ==> GoodItem(b, lr, work[k], seen)
    ensures work <= work' && forall k :: 0 <= k < |work'| ==> GoodItem(b, lr, work'[k], seen)
    ensures issues <= issues' && (issues' != {} ==> issues != {} || Faulty(b, lr))
    ensures forall t :: t in next ==> Arrived(seen, work', issues', (t, after))
  {
    hide Next, Decoded, Moves, Walk, Delta, Faulty;
    work', issues' := work, issues;
    var i := 0;
    while i < |next|
      invariant 0 <= i <= |next|
      invariant work <= work' && forall k :: 0 <= k < |work'| ==> GoodItem(b, lr, work'[k], seen)
      invariant issues <= issues' && (issues' != {} ==> issues != {} || Faulty(b, lr))
      invariant forall t :: t in next[..i] ==> Arrived(seen, work', issues', (t, after))
    {
      var t := next[i];
      var earlier := Earlier(it.path, t);
      ghost var before, reported := work', issues';
      if earlier.Some? {
        ghost var k :| 0 <= k < |it.path| && it.path[k] == (t, earlier.value);
        if earlier.value != after {
          MovingCycleFaulty(b, lr, it, t, k, seen);
          issues' := issues' + {MovingCycle(it.pc, t, after, earlier.value)};
          assert MovingCycle(it.pc, t, after, earlier.value) in issues';
        }
      } else {
        PushGood(b, lr, it, t, seen);
        work' := work' + [Item(t, after, it.path + [(t, after)])];
        assert (work'[|before|].pc, work'[|before|].delta) == (t, after);
      }
      forall u | u in next[..i + 1] ensures Arrived(seen, work', issues', (u, after)) {
        if u != t {
          assert u in next[..i];
          ArrivedStays(seen, before, reported, work', issues', (u, after));
        }
      }
      i := i + 1;
    }
  }

  lemma ArrivedStays(seen: set<(int, int)>, w0: seq<Item>, i0: set<Issue>, w1: seq<Item>, i1: set<Issue>, p: (int, int))
    requires Arrived(seen, w0, i0, p) && w0 <= w1 && i0 <= i1
    ensures Arrived(seen, w1, i1, p)
  {
    if Pending(w0, p) {
      var k :| 0 <= k < |w0| && (w0[k].pc, w0[k].delta) == p;
      assert (w1[k].pc, w1[k].delta) == p;
    }
  }

  /** The walk behind a popped item, and what it proves about a reported problem. */
  lemma ItemFaulty(b: Body, lr: bool, it: Item, seen: set<(int, int)>)
    requires GoodItem(b, lr, it, seen)
    ensures Decoded(b, it.pc) && (it.pc, it.delta) in Universe(b)
    ensures !Understood(b, lr, it.pc) ==> Faulty(b, lr)
    ensures FlowAt(b, lr, it.pc).exits && it.delta + Moves(b, it.pc) != 0 ==> Faulty(b, lr)
    ensures StackStep(InsAt(b, it.pc)).Some? && FlowAt(b, lr, it.pc).exits ==> exists w :: ExitWalk(b, lr, w)
    ensures Attained(b, lr, it.delta + Moves(b, it.pc))
  {
    hide Next, Moves, FlowAt, InsAt, Decoded, Laid;
    var w := Pcs(it.path);
    assert w[..|it.path|] == w;
    assert it.path[|it.path| - 1].1 == Delta(b, w[..|it.path| - 1 + 1]);
    WithinUniverse(b, lr, w);
    assert After(b, w) == it.delta + Moves(b, it.pc);
    if !Understood(b, lr, it.pc) || (FlowAt(b, lr, it.pc).exits && After(b, w) != 0) {
      assert !CleanWalk(b, lr, w);
    }
    if StackStep(InsAt(b, it.pc)).Some? && FlowAt(b, lr, it.pc).exits {
      assert ExitWalk(b, lr, w);
    }
  }

  /** One popped pair folded into the search state. */
  lemma SearchAdvances(b: Body, lr: bool, it: Item, w0: seq<Item>, seen: set<(int, int)>,
                       i0: set<Issue>, e0: nat, l0: int, w1: seq<Item>, i1: set<Issue>, e1: nat, l1: int)
    requires Search(b, lr, w0 + [it], seen, i0, e0, l0)
    requires i0 <= i1 && (i1 != {} ==> i0 != {} || Faulty(b, lr))
    requires e0 <= e1 && (e1 > e0 ==> exists w :: ExitWalk(b, lr, w))
    requires l1 <= l0 && Attained(b, lr, l1)
    requires Decoded(b, it.pc) && (it.pc, it.delta) in Universe(b)
    requires Checked(b, lr, (it.pc, it.delta), i1, e1, l1)
    requires w0 <= w1
    requires forall k :: 0 <= k < |w1| ==> GoodItem(b, lr, w1[k], seen + {(it.pc, it.delta)})
    requires forall t :: t in Next(b, lr, it.pc) ==>
               Arrived(seen + {(it.pc, it.delta)}, w1, i1, (t, it.delta + Moves(b, it.pc)))
    ensures Search(b, lr, w1, seen + {(it.pc, it.delta)}, i1, e1, l1)
  {
    hide Next, Moves, Decoded, GoodItem, Understood, StackStep, FlowAt, Universe, Laid, Faulty;
    var p := (it.pc, it.delta);
    var seen' := seen + {p};
    forall q | Arrived(seen, w0 + [it], i0, q) ensures Arrived(seen', w1, i1, q) {
      if q !in seen' && Pending(w0 + [it], q) {
        var k :| 0 <= k < |w0 + [it]| && ((w0 + [it])[k].pc, (w0 + [it])[k].delta) == q;
        assert k < |w0|;
        assert w1[k] == w0[k];
      }
    }
    forall s, t | s in seen' && Decoded(b, s.0) && t in Next(b, lr, s.0)
      ensures Arrived(seen', w1, i1, (t, s.1 + Moves(b, s.0)))
    {
      if s in seen {
        assert Arrived(seen, w0 + [it], i0, (t, s.1 + Moves(b, s.0)));
      }
    }
    forall s | s in seen' ensures Checked(b, lr, s, i1, e1, l1) {
      if s in seen {
        assert Checked(b, lr, s, i0, e0, l0);
      }
    }
  }

  /** `minimum` is the least sp change, `frameBytes` its negation, `exits` the number of exits looked at. */
  datatype Report = Report(frameBytes: Option<nat>, minimum: int, issues: set<Issue>, exits: nat)

  lemma NextOf(b: Body, lr: bool, pc: int)
    requires Decoded(b, pc)
    ensures var s := StackStep(InsAt(b, pc));
            if s.None? then Next(b, lr, pc) == [] && Moves(b, pc) == 0
            else Next(b, lr, pc) == FlowAt(b, lr, pc).next && Moves(b, pc) == s.value
  {
  }

  lemma InitialSearch(b: Body, lr: bool, issues: set<Issue>)
    requires b.instrs != [] && (issues != {} <==> !Laid(b))
    ensures var entry := b.instrs[0].address;
            Search(b, lr, [Item(entry, 0, [(entry, 0)])], {}, issues, 0, 0)
  {
    hide Laid;
    var entry := b.instrs[0].address;
    var it := Item(entry, 0, [(entry, 0)]);
    assert Pcs(it.path) == [entry];
    assert Decoded(b, entry);
    assert Walk(b, lr, [entry]);
    assert GoodItem(b, lr, it, {});
    assert ([it][0].pc, [it][0].delta) == (entry, 0);
  }

  /** A pair that was already looked at is dropped. */
  lemma SearchDrops(b: Body, lr: bool, it: Item, work: seq<Item>, seen: set<(int, int)>, issues: set<Issue>,
      exits: nat, least: int)
    requires Search(b, lr, work + [it], seen, issues, exits, least)
    requires (it.pc, it.delta) in seen
    ensures Search(b, lr, work, seen, issues, exits, least)
  {
    hide Next, Moves, Decoded, Laid, Faulty, Checked, Universe;
    forall q | Arrived(seen, work + [it], issues, q) ensures Arrived(seen, work, issues, q) {
      if Pending(work + [it], q) {
        var k :| 0 <= k < |work + [it]| && ((work + [it])[k].pc, (work + [it])[k].delta) == q;
        if k < |work| {
          assert (work[k].pc, work[k].delta) == q;
        }
      }
    }
    forall k | 0 <= k < |work| ensures GoodItem(b, lr, work[k], seen) {
      assert GoodItem(b, lr, (work + [it])[k], seen);
    }
  }

  lemma GoodItemGrows(b: Body, lr: bool, it: Item, seen: set<(int, int)>, seen': set<(int, int)>)
    requires GoodItem(b, lr, it, seen) && seen <= seen'
    ensures GoodItem(b, lr, it, seen')
  {
    hide Walk, Delta, Decoded;
  }

  /** The search is over: what it saw is everything. */
  lemma SearchComplete(b: Body, lr: bool, seen: set<(int, int)>, issues: set<Issue>, exits: nat, least: int)
    requires Search(b, lr, [], seen, issues, exits, least)
    ensures issues == {} && exits > 0 <==> Clean(b, lr)
    ensures issues == {} ==> forall w :: Walk(b, lr, w) ==> Understood(b, lr, w[|w| - 1]) && least <= After(b, w)
  {
    if issues == {} {
      assert ClosedUnder(b, lr, seen) by { SearchClosed(b, lr, seen, issues, exits, least); }
      hide Next, Moves, Laid, Search, StackStep;
      forall w | Walk(b, lr, w)
        ensures CleanWalk(b, lr, w) && least <= After(b, w)
        ensures ExitWalk(b, lr, w) ==> exits > 0
      {
        WalkChecked(b, lr, seen, issues, exits, least, w);
      }
      ExitsFound(b, lr, seen, issues, exits, least);
    } else {
      hide Next, Moves, Laid;
      assert Faulty(b, lr);
      assert !Clean(b, lr);
    }
  }

  lemma SearchClosed(b: Body, lr: bool, seen: set<(int, int)>, issues: set<Issue>, exits: nat, least: int)
    requires Search(b, lr, [], seen, issues, exits, least) && issues == {}
    ensures ClosedUnder(b, lr, seen) && (b.instrs[0].address, 0) in seen && seen <= Universe(b)
    ensures Laid(b) && forall s :: s in seen ==> Checked(b, lr, s, issues, exits, least)
  {
    hide Next, Moves, Laid, Checked, Universe, Decoded;
    forall s, t | s in seen && Decoded(b, s.0) && t in Next(b, lr, s.0)
      ensures (t, s.1 + Moves(b, s.0)) in seen
    {
      assert Arrived(seen, [], issues, (t, s.1 + Moves(b, s.0)));
    }
  }

  lemma WalkChecked(b: Body, lr: bool, seen: set<(int, int)>, issues: set<Issue>, exits: nat, least: int, w: seq<int>)
    requires Search(b, lr, [], seen, issues, exits, least) && issues == {}
    requires Walk(b, lr, w)
    ensures CleanWalk(b, lr, w) && least <= After(b, w)
    ensures ExitWalk(b, lr, w) ==> exits > 0
  {
    hide Search, Laid, Next, Decoded, Universe;
    SearchClosed(b, lr, seen, issues, exits, least);
    AllVisited(b, lr, seen, w);
    NoMovingCycle(b, lr, seen, w);
    assert Checked(b, lr, (w[|w| - 1], Delta(b, w)), issues, exits, least);
  }

  lemma ExitsFound(b: Body, lr: bool, seen: set<(int, int)>, issues: set<Issue>, exits: nat, least: int)
    requires Search(b, lr, [], seen, issues, exits, least) && issues == {}
    ensures Laid(b)
    ensures exits > 0 <==> exists w :: ExitWalk(b, lr, w)
  {
    hide Laid, Next, Decoded, Universe, StackStep;
    if exists w :: ExitWalk(b, lr, w) {
      var w :| ExitWalk(b, lr, w);
      WalkChecked(b, lr, seen, issues, exits, least, w);
    }
  }

  // ---- how many exits are looked at ----

  ghost predicate ExitAt(b: Body, lr: bool, pc: int) {
    Decoded(b, pc) && StackStep(InsAt(b, pc)).Some? && FlowAt(b, lr, pc).exits
  }

  /** The exits some walk reaches. */
  ghost function ExitsReached(b: Body, lr: bool): set<int> {
    set pc | pc in Starts(b) && exists w :: ExitWalk(b, lr, w) && w[|w| - 1] == pc
  }

  ghost function ExitPairs(b: Body, lr: bool, seen: set<(int, int)>): set<(int, int)> {
    set s | s in seen && ExitAt(b, lr, s.0)
  }

  ghost predicate Came(b: Body, lr: bool, s: (int, int)) {
    exists w :: Walk(b, lr, w) && w[|w| - 1] == s.0 && Delta(b, w) == s.1
  }

  /** Each pair looked at was walked to, and the exits among them have been counted. */
  ghost predicate Counted(b: Body, lr: bool, seen: set<(int, int)>, exits: nat) {
    exits == |ExitPairs(b, lr, seen)| && forall s :: s in seen ==> Came(b, lr, s)
  }

  lemma CountedNone(b: Body, lr: bool)
    ensures Counted(b, lr, {}, 0)
  {
    assert ExitPairs(b, lr, {}) == {};
  }

  lemma ItemCame(b: Body, lr: bool, it: Item, seen: set<(int, int)>)
    requires GoodItem(b, lr, it, seen)
    ensures Came(b, lr, (it.pc, it.delta))
  {
    hide Next, Delta, Distinct;
    var w, n := Pcs(it.path), |it.path| - 1;
    assert w[..n + 1] == w && it.path[n].1 == Delta(b, w[..n + 1]);
  }

  lemma CountedStep(b: Body, lr: bool, it: Item, seen: set<(int, int)>, before: nat, after: nat)
    requires Counted(b, lr, seen, before) && GoodItem(b, lr, it, seen) && (it.pc, it.delta) !in seen
    requires after == before + if ExitAt(b, lr, it.pc) then 1 else 0
    ensures Counted(b, lr, seen + {(it.pc, it.delta)}, after)
  {
    hide ExitAt, Came, GoodItem;
    ItemCame(b, lr, it, seen);
    var p := (it.pc, it.delta);
    assert ExitPairs(b, lr, seen + {p}) == ExitPairs(b, lr, seen) + if ExitAt(b, lr, p.0) then {p} else {};
  }

  lemma PairLeft(b: Body, lr: bool, seen: set<(int, int)>, issues: set<Issue>, exits: nat, least: int, s: (int, int))
    requires Search(b, lr, [], seen, issues, exits, least) && issues == {}
    requires Came(b, lr, s) && ExitAt(b, lr, s.0)
    ensures s.0 in ExitsReached(b, lr) && s.1 == LeftAt(b, s.0)
  {
    hide Search, Next, Moves, Starts;
    var w :| Walk(b, lr, w) && w[|w| - 1] == s.0 && Delta(b, w) == s.1;
    WalkChecked(b, lr, seen, issues, exits, least, w);
    DecodedStarts(b, s.0);
    hide Walk, Decoded, Delta;
    assert ExitWalk(b, lr, w);
  }

  lemma ExitSeen(b: Body, lr: bool, seen: set<(int, int)>, issues: set<Issue>, exits: nat, least: int, pc: int)
    requires Search(b, lr, [], seen, issues, exits, least) && issues == {} && pc in ExitsReached(b, lr)
    ensures ExitAt(b, lr, pc) && (pc, LeftAt(b, pc)) in seen
  {
    hide Next, Moves, Starts;
    var w :| ExitWalk(b, lr, w) && w[|w| - 1] == pc;
    SearchClosed(b, lr, seen, issues, exits, least);
    WalkChecked(b, lr, seen, issues, exits, least, w);
    hide Search, Laid, ClosedUnder, Delta;
    AllVisited(b, lr, seen, w);
  }

  /** In a clean body an exit is reached with one sp change only, so the exits counted are the exits reached. */
  lemma CountedEnds(b: Body, lr: bool, seen: set<(int, int)>, issues: set<Issue>, exits: nat, least: int)
    requires Search(b, lr, [], seen, issues, exits, least) && issues == {} && Counted(b, lr, seen, exits)
    ensures exits == |ExitsReached(b, lr)|
  {
    hide Search, Came, ExitAt, ExitsReached, LeftAt;
    var pairs, pcs := ExitPairs(b, lr, seen), ExitsReached(b, lr);
    forall s | s in pairs ensures s.0 in pcs && s.1 == LeftAt(b, s.0) {
      PairLeft(b, lr, seen, issues, exits, least, s);
    }
    forall pc | pc in pcs ensures (pc, LeftAt(b, pc)) in pairs {
      ExitSeen(b, lr, seen, issues, exits, least, pc);
    }
    SameCount(pairs, pcs, pc => LeftAt(b, pc));
  }

  /** The sp change on arrival that an exit at `pc` undoes. */
  ghost function LeftAt(b: Body, pc: int): int {
    if Decoded(b, pc) then -Moves(b, pc) else 0
  }

  lemma {:induction false} SameCount(pairs: set<(int, int)>, pcs: set<int>, f: int -> int)
    requires forall s :: s in pairs ==> s.0 in pcs && s.1 == f(s.0)
    requires forall pc :: pc in pcs ==> (pc, f(pc)) in pairs
    ensures |pairs| == |pcs|
    decreases pcs
  {
    Inhabited(pcs);
    if pcs == {} {
      assert pairs == {};
    } else {
      var pc :| pc in pcs;
      SameCount(pairs - {(pc, f(pc))}, pcs - {pc}, f);
    }
  }

  method AnalyzeFrame(b: Body, linkReturn: bool) returns (r: Report)
    ensures b.instrs == [] ==> r.frameBytes.None? && r.issues == {MissingBody}
    ensures b.instrs != [] ==> r.frameBytes == Some(-r.minimum) && (r.issues == {} <==> Clean(b, linkReturn))
    ensures b.instrs != [] ==> Attained(b, linkReturn, r.minimum)
    ensures b.instrs != [] && r.issues == {} ==> r.exits == |ExitsReached(b, linkReturn)|
    ensures b.instrs != [] && r.issues == {} ==> forall w :: Walk(b, linkReturn, w) ==> r.minimum <= After(b, w)
  {
    hide Next, Moves, Decoded, Laid, Faulty, Walk, After, Delta, Clean, Search, Universe, Pending, Counted,
        ExitsReached;
    if b.instrs == [] {
      return Report(None, 0, {MissingBody}, 0);
    }
    var lr := linkReturn;
    var entry := b.instrs[0].address;
    var issues := CheckLayout(b);
    var work := [Item(entry, 0, [(entry, 0)])];
    var seen: set<(int, int)> := {};
    var exits: nat, least := 0, 0;
    InitialSearch(b, lr, issues);
    CountedNone(b, lr);
    while work != []
      invariant Search(b, lr, work, seen, issues, exits, least)
      invariant Counted(b, lr, seen, exits)
      decreases |Universe(b) - seen|, |work|
    {
      var it := work[|work| - 1];
      ghost var w0, i0, e0, l0 := work[..|work| - 1], issues, exits, least;
      assert work == w0 + [it];
      work := work[..|work| - 1];
      if (it.pc, it.delta) in seen {
        SearchDrops(b, lr, it, work, seen, issues, exits, least);
        continue;
      }
      SearchItem(b, lr, it, w0, seen, issues, exits, least);
      ItemFaulty(b, lr, it, seen);
      NextOf(b, lr, it.pc);
      ghost var before := seen;
      seen := seen + {(it.pc, it.delta)};
      Shrinks(Universe(b), before, (it.pc, it.delta));
      var ins := InsAt(b, it.pc);
      if WritesLinkRegister(ins) {
        issues := Noted(issues, WritesLink(it.pc));
      }
      var step := StackStep(ins);
      if step.None? {
        issues := Noted(issues, DynamicStack(it.pc));
      } else {
        var after := it.delta + step.value;
        if after < least {
          least := after;
        }
        var flow := FlowAt(b, lr, it.pc);
        if flow.problem {
          issues := Noted(issues, Flow(it.pc));
        }
        if flow.exits {
          exits := exits + 1;
          if after != 0 {
            issues := Noted(issues, UnbalancedExit(it.pc, after));
          }
        }
        work, issues := Expand(b, lr, it, flow.next, after, work, issues, seen);
      }
      SearchAdvances(b, lr, it, w0, before, i0, e0, l0, work, issues, exits, least);
      CountedStep(b, lr, it, before, e0, exits);
    }
    if issues == {} {
      CountedEnds(b, lr, seen, issues, exits, least);
    }
    SearchComplete(b, lr, seen, issues, exits, least);
    SearchLeast(b, lr, seen, issues, exits, least);
    if exits == 0 {
      issues := Noted(issues, NoExit);
    }
    r := Report(Some(-least), least, issues, exits);
  }

  function Noted(issues: set<Issue>, i: Issue): (r: set<Issue>)
    ensures i in r && issues <= r && r != {}
  {
    assert i in issues + {i};
    issues + {i}
  }

  lemma SearchLeast(b: Body, lr: bool, seen: set<(int, int)>, issues: set<Issue>, exits: nat, least: int)
    requires Search(b, lr, [], seen, issues, exits, least)
    ensures least <= 0 && Attained(b, lr, least)
  {
  }

  /** What the search state says about the popped item. */
  lemma SearchItem(b: Body, lr: bool, it: Item, w0: seq<Item>, seen: set<(int, int)>, issues: set<Issue>, exits: nat,
      least: int)
    requires Search(b, lr, w0 + [it], seen, issues, exits, least)
    ensures GoodItem(b, lr, it, seen) && GoodItem(b, lr, it, seen + {(it.pc, it.delta)})
    ensures forall k :: 0 <= k < |w0| ==> GoodItem(b, lr, w0[k], seen + {(it.pc, it.delta)})
    ensures seen <= Universe(b) && least <= 0 && Attained(b, lr, least)
  {
    hide Checked, Walk, Delta, Decoded, Laid, Faulty, Arrived;
    var seen' := seen + {(it.pc, it.delta)};
    var work := w0 + [it];
    forall k | 0 <= k < |work| ensures GoodItem(b, lr, work[k], seen') && GoodItem(b, lr, work[k], seen) {
      GoodItemGrows(b, lr, work[k], seen, seen');
    }
    assert work[|w0|] == it;
    forall k | 0 <= k < |w0| ensures GoodItem(b, lr, w0[k], seen') {
      assert w0[k] == work[k];
    }
  }

  lemma Shrinks(u: set<(int, int)>, seen: set<(int, int)>, p: (int, int))
    requires p in u && p !in seen
    ensures |u - (seen + {p})| < |u - seen|
  {
    assert u - (seen + {p}) == (u - seen) - {p};
  }
}
