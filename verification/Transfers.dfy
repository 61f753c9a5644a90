/** The abstract state of the interval engine and the effect of one instruction on it. */
module Transfers {
  import opened Basics
  import opened Words
  import opened Sets
  import opened AbstractValues
  import opened Machine

  const STACK_WINDOW: int := 0x10_0000

  type Regs = s: seq<AVal> | |s| == 32 witness seq(32, _ => Top)

  datatype State = State(regs: Regs, mem: map<int, AVal>, phase: nat)

  /** Worklist key: continuations with different link, alternate link, stack pointer or phase stay apart. */
  datatype Loc = Loc(pc: int, ra: AVal, alt: AVal, sp: AVal, phase: nat)

  function LocOf(pc: int, st: State): Loc {
    Loc(pc, st.regs[1], st.regs[5], st.regs[SP], st.phase)
  }

  /** What a nested analysis is identified by. `Top` is the absent callback. */
  datatype Key = Key(address: int, callback: AVal)

  datatype Options = Options(
    stages: seq<int>, stopPcs: set<int>, stopCalls: set<int>, inlineCalls: bool, summaries: set<int>)

  const DEFAULTS: Options := Options([], {}, {}, false, {})

  function DefaultReg(r: nat, callback: AVal): AVal {
    if r == 0 then Const(0)
    else if r == 1 then Const(RETURN)
    else if r == SP then Const(STACK)
    else if Saved(r) then Const(RETURN - r)
    else if r == 11 then callback
    else Top
  }

  function DefaultEntry(callback: AVal): State {
    State(seq(32, r requires 0 <= r => DefaultReg(r, callback)), map[], 0)
  }

  function Merge(a: State, b: State): Option<State> {
    if a.regs[SP] != b.regs[SP] then None
    else Some(State(seq(32, r requires 0 <= r < 32 => Union(a.regs[r], b.regs[r])),
                    map k | k in a.mem && k in b.mem :: Union(a.mem[k], b.mem[k]),
                    a.phase))
  }

  predicate LeqState(a: State, b: State) {
    && (forall r :: 0 <= r < 32 ==> Leq(a.regs[r], b.regs[r]))
    && (forall k :: k in b.mem ==> k in a.mem && Leq(a.mem[k], b.mem[k]))
    && a.phase == b.phase
  }

  lemma MergeAbove(a: State, b: State)
    requires Merge(a, b).Some? && a.phase == b.phase
    ensures LeqState(a, Merge(a, b).value) && LeqState(b, Merge(a, b).value)
  {
    var m := Merge(a, b).value;
    forall r | 0 <= r < 32
      ensures Leq(a.regs[r], m.regs[r]) && Leq(b.regs[r], m.regs[r])
    {
      UnionAbove(a.regs[r], b.regs[r]);
    }
    forall k | k in m.mem
      ensures Leq(a.mem[k], m.mem[k]) && Leq(b.mem[k], m.mem[k])
    {
      UnionAbove(a.mem[k], b.mem[k]);
    }
  }

  lemma LeqStateTransitive(a: State, b: State, c: State)
    requires LeqState(a, b) && LeqState(b, c)
    ensures LeqState(a, c)
  {
    forall r | 0 <= r < 32 ensures Leq(a.regs[r], c.regs[r]) {
      assert Leq(a.regs[r], b.regs[r]) && Leq(b.regs[r], c.regs[r]);
    }
  }

  // ---- straight-line instructions ----

  function SetReg(regs: Regs, r: Reg, v: AVal): Regs {
    if r == 0 then regs else regs[r := v]
  }

  /** A two-operand result may reach sp only as one known value. */
  function SetResult(regs: Regs, rd: Reg, v: AVal): Option<Regs> {
    if rd == SP && (v.Top? || |v.xs| != 1) then None else Some(SetReg(regs, rd, v))
  }

  predicate InWindow(x: int) {
    STACK - STACK_WINDOW <= x <= STACK
  }

  predicate BelowStack(addresses: AVal, sp: int) {
    addresses.Vals? && exists x :: x in addresses.xs && STACK - STACK_WINDOW <= x < sp
  }

  /** A tracked stack word, or what is linked there. Facts are kept for whole words only. */
  function Lookup(p: Program, mem: map<int, AVal>, x: int, size: nat): AVal {
    if size == 4 && x in mem then mem[x]
    else
      var linked := Read(p.rom, x, size);
      if linked.Some? then Const(linked.value) else Top
  }

  function LoadValue(p: Program, mem: map<int, AVal>, addresses: AVal, size: nat): AVal {
    if addresses.Top? || addresses.xs == {} then Top
    else if exists x :: x in addresses.xs && Lookup(p, mem, x, size).Top? then Top
    else
      var all := set x, v | x in addresses.xs && v in Lookup(p, mem, x, size).xs :: v;
      if |addresses.xs| == 1 then Vals(all) else Limit(all)
  }

  function Extended(v: AVal, size: nat, signed: bool): AVal {
    if v.Top? then Top else Vals(set n | n in v.xs :: Extend(n, size, signed))
  }

  /** A known stack word replaces every fact that shares a byte with it; any other store leaves the facts. */
  function StoreValue(mem: map<int, AVal>, addresses: AVal, v: AVal): map<int, AVal> {
    if addresses.Top? || |addresses.xs| != 1 then mem
    else
      var x := Only(addresses.xs);
      if !InWindow(x) then mem
      else (map k | k in mem && (k + 4 <= x || x + 4 <= k) :: mem[k])[x := v]
  }

  datatype Data = Data(regs: Regs, mem: map<int, AVal>)

  predicate Plain(op: Op) {
    !op.Trap? && !op.Branch? && !op.BranchZero? && !IsJump(op)
  }

  function WithRegs(regs: Option<Regs>, mem: map<int, AVal>): Option<Data> {
    if regs.None? then None else Some(Data(regs.value, mem))
  }

  function Execute(p: Program, op: Op, regs: Regs, mem: map<int, AVal>, sp: int): Option<Data>
    requires Plain(op)
  {
    match op
    case Li(rd, value) => Some(Data(SetReg(regs, rd, Const(Word(value))), mem))
    case Mv(rd, rs) => Some(Data(SetReg(regs, rd, regs[rs]), mem))
    case Addi(rd, rs, imm) => WithRegs(SetResult(regs, rd, Arithmetic(regs[rs], Const(imm), Add)), mem)
    case Alu(op, rd, rs, rt) => WithRegs(SetResult(regs, rd, Arithmetic(regs[rs], regs[rt], op)), mem)
    case AluImm(op, rd, rs, imm) => WithRegs(SetResult(regs, rd, Arithmetic(regs[rs], Const(imm), op)), mem)
    case Andi(rd, rs, imm) =>
      if rd == SP then None
      else
        var v := if regs[rs].Top? && 0 <= imm <= 31
                 then Vals(set n | 0 <= n <= imm && And(n, imm) == n)
                 else Arithmetic(regs[rs], Const(imm), BitAnd);
        Some(Data(SetReg(regs, rd, v), mem))
    case Unmodelled(rd) => if rd == SP then None else Some(Data(SetReg(regs, rd, Top), mem))
    case Nop => Some(Data(regs, mem))
    case Lw(rd, rs, imm) =>
      var addresses := Arithmetic(regs[rs], Const(imm), Add);
      if BelowStack(addresses, sp) then None
      else Some(Data(SetReg(regs, rd, LoadValue(p, mem, addresses, 4)), mem))
    case LoadNarrow(size, signed, rd, rs, imm) =>
      var addresses := Arithmetic(regs[rs], Const(imm), Add);
      if BelowStack(addresses, sp) then None
      else Some(Data(SetReg(regs, rd, Extended(LoadValue(p, mem, addresses, size), size, signed)), mem))
    case Sw(src, rs, imm) =>
      var addresses := Arithmetic(regs[rs], Const(imm), Add);
      if BelowStack(addresses, sp) then None
      else Some(Data(regs, StoreValue(mem, addresses, regs[src])))
  }

  // ---- branches ----

  /** Values below 2^32 in magnitude, the only ones a comparison is refined on. */
  predicate Comparable(v: AVal) {
    v.Vals? && forall x :: x in v.xs ==> -WORD <= x < WORD
  }

  /** The registers on the taken or fall-through edge; `None` when no recorded value can take it. */
  function RefineBranch(cond: Cond, taken: bool, rs: Reg, rt: Reg, regs: Regs): Option<Regs> {
    var a, b := regs[rs], regs[rt];
    if Comparable(a) && Comparable(b) then
      var xs := set x | x in a.xs && exists y :: y in b.xs && Holds(cond, x, y) == taken;
      var ys := set y | y in b.xs && exists x :: x in a.xs && Holds(cond, x, y) == taken;
      if xs == {} then None else Some(regs[rs := Vals(xs)][rt := Vals(ys)])
    else if (cond.Bltu? || cond.Bgeu?) && a.Vals? && |a.xs| == 1 && b.Top? && taken == cond.Bgeu? then
      var limit := Only(a.xs);
      if 0 <= limit <= 31 then Some(regs[rt := Vals(UpTo(limit))]) else Some(regs)
    else Some(regs)
  }

  function RefineZero(zero: bool, rs: Reg, regs: Regs): Option<Regs> {
    var v := regs[rs];
    if v.Vals? && forall x :: x in v.xs ==> x >= -WORD then
      var kept := set x | x in v.xs && (x == 0) == zero;
      if kept == {} then None else Some(regs[rs := Vals(kept)])
    else Some(regs)
  }

  // ---- jumps ----

  datatype Jump = Refused
                | Jump(regs: Regs, targets: set<int>, phase: nat, calls: seq<Key>, edges: set<(int, int)>)

  /** The fixed part of one jump instruction. */
  datatype Site = Site(owner: int, rd: Reg, next: int)

  function IndexOf(q: seq<int>, x: int): (i: nat)
    requires x in q
    ensures i < |q| && q[i] == x
  {
    if q[0] == x then 0 else 1 + IndexOf(q[1..], x)
  }

  function Clobber(regs: Regs): Regs {
    seq(32, r requires 0 <= r < 32 => if CallerSaved(r) then Top else regs[r])
  }

  /** The function runs in the current activation: an alternate link, a tail jump, or an inlined call. */
  predicate Internal(p: Program, o: Options, s: Site, target: int)
    requires target in p.owner
  {
    p.owner[target] == s.owner || s.rd == 0 || s.rd == 5 || (o.inlineCalls && target !in o.summaries)
  }

  function CallKey(p: Program, target: int, regs: Regs): Key
    requires target in p.owner
  {
    Key(target, if p.owner[target] in p.once then regs[11] else Top)
  }

  function StageRefused(o: Options, target: int, phase: nat): bool {
    target in o.stages && phase != IndexOf(o.stages, target)
  }

  function JumpTo(p: Program, o: Options, s: Site, j: Jump, target: int): Jump {
    if j.Refused? || target !in p.owner then Refused
    else if target == s.owner && (s.rd == 0 || s.rd == 1 || s.rd == 5) then Refused
    else if p.owner[target] in p.once && (j.regs[10].Top? || j.regs[11].Top?) then Refused
    else if StageRefused(o, target, j.phase) then Refused
    else
      var f := p.owner[target];
      var edges := if target == f && f != s.owner && (s.rd == 0 || s.rd == 1 || s.rd == 5)
                   then j.edges + {(s.owner, f)} else j.edges;
      var phase := if target in o.stages then j.phase + 1 else j.phase;
      if target in o.stopCalls || f in p.exceptional then j.(phase := phase, edges := edges)
      else if Internal(p, o, s, target) then
        Jump(SetReg(j.regs, s.rd, Const(s.next)), j.targets + {target}, phase, j.calls, edges)
      else
        Jump(SetReg(Clobber(j.regs), s.rd, Const(s.next)), j.targets + {s.next}, phase,
             j.calls + [CallKey(p, target, j.regs)], edges)
  }

  /** The destinations in the order the engine visits them. */
  function JumpAll(p: Program, o: Options, s: Site, j: Jump, targets: seq<int>): Jump {
    if targets == [] then j else JumpTo(p, o, s, JumpAll(p, o, s, j, targets[..|targets| - 1]), targets[|targets| - 1])
  }

  function Destinations(op: Op, regs: Regs): AVal
    requires IsJump(op)
  {
    match op
    case Jal(_, target) => Const(target)
    case Jalr(_, rs, imm) =>
      if imm == 0 && regs[rs] == Const(RETURN) then regs[rs] else Arithmetic(regs[rs], Const(imm), AddEven)
    case JumpReg(_, rs) => regs[rs]
  }

  predicate ReturnRefused(o: Options, entry: State, st: State) {
    || st.regs[SP] != entry.regs[SP]
    || (exists r :: 0 <= r < 32 && Saved(r) && st.regs[r] != entry.regs[r])
    || (|o.stages| > 0 && st.phase == 2)
  }

  // ---- one worklist item ----

  datatype Succ = Succ(pc: int, st: State)

  datatype Outcome =
    | Rejected
    | Flows(depth: nat, succs: seq<Succ>, calls: seq<Key>, edges: set<(int, int)>, returning: bool)

  function EdgeTo(pc: int, regs: Option<Regs>, st: State): seq<Succ> {
    if regs.None? then [] else [Succ(pc, st.(regs := regs.value))]
  }

  function JumpOutcome(p: Program, o: Options, entry: State, st: State, depth: nat, s: Site, dests: AVal): Outcome {
    if dests.Top? then Rejected
    else
      var returning := RETURN in dests.xs;
      if returning && ReturnRefused(o, entry, st) then Rejected
      else
        var j := JumpAll(p, o, s, Jump(st.regs, {}, st.phase, [], {}), SortedSeq(dests.xs - {RETURN}));
        if j.Refused? then Rejected
        else
          var ts := SortedSeq(j.targets);
          Flows(depth, seq(|ts|, i requires 0 <= i < |ts| => Succ(ts[i], State(j.regs, st.mem, j.phase))),
                j.calls, j.edges, returning)
  }

  predicate DepthRefused(sp: AVal) {
    sp.Top? || |sp.xs| != 1 || Only(sp.xs) > STACK || STACK - Only(sp.xs) > STACK_WINDOW
  }

  function Transfer(p: Program, o: Options, entry: State, pc: int, st: State): Outcome {
    if pc in o.stopPcs then
      if |o.stages| > 0 && st.phase != |o.stages| then Rejected else Flows(0, [], [], {}, false)
    else if pc !in p.owner || pc !in p.instrs || DepthRefused(st.regs[SP]) then Rejected
    else
      var sp := Only(st.regs[SP].xs);
      var depth := STACK - sp;
      var ins := p.instrs[pc];
      var next := pc + ins.size;
      if ins.op.Trap? then Flows(depth, [], [], {}, false)
      else if ins.op.Branch? then
        var Branch(cond, rs, rt, target) := ins.op;
        var through := if target == next then [] else EdgeTo(next, RefineBranch(cond, false, rs, rt, st.regs), st);
        Flows(depth, through + EdgeTo(target, RefineBranch(cond, true, rs, rt, st.regs), st), [], {}, false)
      else if ins.op.BranchZero? then
        var BranchZero(onZero, rs, target) := ins.op;
        var through := if target == next then [] else EdgeTo(next, RefineZero(!onZero, rs, st.regs), st);
        Flows(depth, through + EdgeTo(target, RefineZero(onZero, rs, st.regs), st), [], {}, false)
      else if IsJump(ins.op) then
        JumpOutcome(p, o, entry, st, depth, Site(p.owner[pc], ins.op.rd, next), Destinations(ins.op, st.regs))
      else
        var d := Execute(p, ins.op, st.regs, st.mem, sp);
        if d.None? || d.value.regs[SP].Top? then Rejected
        else Flows(depth, [Succ(next, State(d.value.regs, d.value.mem, st.phase))], [], {}, false)
  }
}
