/**
 Soundness of the interval engine: along every in-scope run of the machine, from the entry of an accepted
 analysis until it returns, the live stack never exceeds the accepted maximum.

 The proof carries a stack of activations that explains the current configuration: the innermost activation
 is described by one of its recorded states, and every suspended caller by the state it will resume in.
 */
module StackBound {
  import opened Basics
  import opened Words
  import opened Sets
  import opened AbstractValues
  import opened Machine
  import opened Transfers
  import opened IntervalEngine
  import opened Refusals
  import opened StepCoverage
  import opened JumpCoverage

  /** The finished analysis of one root: its certificate and those of everything it called. */
  datatype Analysis = Analysis(p: Program, root: Cert, bounds: map<Key, nat>, certs: map<Key, Cert>)

  ghost predicate AllDisciplined(p: Program, c: Cert) {
    forall l :: l in c.states ==> Disciplined(p, c.options, l.pc, c.states[l])
  }

  /** The recorded states stay inside what the engine claims to cover; checkable on the finished analysis. */
  ghost predicate WithinClaim(a: Analysis) {
    && WellFormed(a.p)
    && AllDisciplined(a.p, a.root)
    && forall k :: k in a.certs ==> AllDisciplined(a.p, a.certs[k])
  }

  ghost predicate Accepted(a: Analysis) {
    && WithinClaim(a)
    && Certified(a.p, a.bounds, a.certs)
    && Closed(a.p, a.root, a.bounds) && WindowOnly(a.root.entry.mem)
  }

  /** The certificate of a separately analysed callee. */
  ghost predicate Nested(a: Analysis, c: Cert) {
    exists k :: k in a.certs && a.certs[k] == c
  }

  ghost predicate Member(a: Analysis, c: Cert) {
    c == a.root || Nested(a, c)
  }

  ghost predicate Usable(a: Analysis, c: Cert) {
    && Closed(a.p, c, a.bounds) && WindowOnly(c.entry.mem) && AllDisciplined(a.p, c)
    && c.options.stopPcs <= a.root.options.stopPcs && c.options.stopCalls <= a.root.options.stopCalls
  }

  lemma MemberUsable(a: Analysis, c: Cert)
    requires Accepted(a) && Member(a, c)
    ensures Usable(a, c)
  {
    hide Closed, Disciplined;
    if c != a.root {
      var k :| k in a.certs && a.certs[k] == c;
      assert CertFor(a.p, a.bounds, k, c);
    }
  }

  datatype Act = Act(cert: Cert, loc: Loc, entry: seq<int>)

  ghost predicate ActOK(a: Analysis, base: seq<int>, act: Act) {
    && Frame(base) && Frame(act.entry) && act.entry[0] == 0
    && Member(a, act.cert) && act.loc in act.cert.states
    && base[SP] - a.root.maximum <= act.entry[SP] - act.cert.maximum
    && act.entry[SP] <= base[SP]
  }

  ghost predicate TopDescribes(act: Act, c: Config)
    requires Frame(act.entry) && act.loc in act.cert.states && |c.regs| == 32
  {
    && c.pc == act.loc.pc
    && StateDescribes(act.entry, act.cert.states[act.loc], c.regs, c.mem)
    && c.regs[3] == act.entry[3] && c.regs[4] == act.entry[4]
  }

  /** The caller resumes at its recorded location with what the convention preserves. */
  ghost predicate Resumable(act: Act, callee: seq<int>)
    requires Frame(act.entry) && act.loc in act.cert.states && Frame(callee)
  {
    forall r :: 0 <= r < 32 ==>
      if CallerSaved(r) && r != 1 then act.cert.states[act.loc].regs[r].Top?
      else In(act.entry, act.cert.states[act.loc].regs[r], callee[r])
  }

  /** `x` is where a linking jump falls through to. */
  ghost predicate FollowsCall(p: Program, x: int) {
    exists pc :: pc in p.instrs && IsJump(p.instrs[pc].op) && p.instrs[pc].op.rd == 1 && x == pc + p.instrs[pc].size
  }

  ghost predicate Suspended(p: Program, act: Act, callee: Act, mem: Memory)
    requires Frame(act.entry) && act.loc in act.cert.states && Frame(callee.entry)
  {
    && callee.entry[1] == act.loc.pc && act.loc.pc % 2 == 0 && FollowsCall(p, act.loc.pc)
    && callee.entry[3] == act.entry[3] && callee.entry[4] == act.entry[4]
    && (exists cb :: callee.cert.entry == DefaultEntry(cb))
    && Resumable(act, callee.entry)
    && SlotsHold(act.entry, act.cert.states[act.loc].mem, mem)
  }

  /** The activation stack explains the configuration. */
  ghost predicate Describes(a: Analysis, base: seq<int>, stack: seq<Act>, c: Config) {
    && Valid(c)
    && |stack| >= 1 && stack[0].cert == a.root && stack[0].entry == base
    && (forall k :: 0 <= k < |stack| ==> ActOK(a, base, stack[k]))
    && (forall k :: 1 <= k < |stack| ==> Nested(a, stack[k].cert))
    && (forall k :: 0 <= k < |stack| - 1 ==> Suspended(a.p, stack[k], stack[k + 1], c.mem))
    && TopDescribes(stack[|stack| - 1], c)
  }

  /** A store misses every word of known content of suspended callers,
      and of its own frame unless the engine records it. */
  ghost predicate StoreInScope(a: Analysis, base: seq<int>, stack: seq<Act>, c: Config)
    requires Describes(a, base, stack, c)
  {
    c.pc in a.p.instrs && a.p.instrs[c.pc].op.Sw? ==>
      var op := a.p.instrs[c.pc].op;
      var address := Word(c.regs[op.rs] + op.imm);
      var top := stack[|stack| - 1];
      && StoreMisses(top.entry, top.cert.states[top.loc], op, address)
      && forall k :: 0 <= k < |stack| - 1
          ==> MissesFacts(stack[k].entry, stack[k].cert.states[stack[k].loc].mem, address)
  }

  /** The innermost activation at another recorded location. */
  function Continued(stack: seq<Act>, s: Succ): seq<Act>
    requires |stack| > 0
  {
    stack[..|stack| - 1] + [stack[|stack| - 1].(loc := LocOf(s.pc, s.st))]
  }

  /** The activation a call of the analysed `k` starts with these registers. */
  function Entering(a: Analysis, k: Key, regs: seq<int>): Act
    requires k in a.certs
  {
    Act(a.certs[k], LocOf(k.address, DefaultEntry(k.callback)), regs)
  }

  /** How one machine step moves the activation stack: along a recorded successor, into a recorded callee, or back. */
  ghost predicate Moves(a: Analysis, stack: seq<Act>, c: Config, d: Config, stack': seq<Act>)
    requires |stack| > 0 && stack[|stack| - 1].loc in stack[|stack| - 1].cert.states
  {
    var top := stack[|stack| - 1];
    var out := Transfer(a.p, top.cert.options, top.cert.entry, c.pc, top.cert.states[top.loc]);
    && out.Flows?
    && (|| (exists s :: s in out.succs && s.pc == d.pc && stack' == Continued(stack, s))
        || (exists s, k :: s in out.succs && k in out.calls && k in a.certs && k.address == d.pc
                           && stack' == Continued(stack, s) + [Entering(a, k, d.regs)])
        || (out.returning && |stack| > 1 && stack' == stack[..|stack| - 1]))
  }

  /** The run builds this activation stack by its first `i` steps. */
  ghost predicate Builds(a: Analysis, base: seq<int>, run: seq<Config>, i: nat, stack: seq<Act>)
    requires i < |run|
    decreases i, 0
  {
    if i == 0 then stack == [Act(a.root, LocOf(a.root.address, a.root.entry), base)]
    else BuiltFrom(a, base, run, i - 1, stack)
  }

  ghost predicate BuiltFrom(a: Analysis, base: seq<int>, run: seq<Config>, k: nat, stack: seq<Act>)
    requires k + 1 < |run|
    decreases k, 1
  {
    exists before :: Builds(a, base, run, k, before) && Describes(a, base, before, run[k])
        && Moves(a, before, run[k], run[k + 1], stack)
  }

  /** The scope of the claim along a run: valid memory, in the sense the engine relies on. */
  ghost predicate MemoryInScope(a: Analysis, base: seq<int>, run: seq<Config>) {
    forall i :: 0 <= i < |run| ==>
      && RomIntact(a.p, run[i].mem)
      && forall stack :: Builds(a, base, run, i, stack) && Describes(a, base, stack, run[i])
          ==> StoreInScope(a, base, stack, run[i])
  }

  /** The stack the bound speaks of fits in the address space. */
  ghost predicate StackMapped(a: Analysis, base: seq<int>) {
    Frame(base) && base[0] == 0 && base[1] % 2 == 0
    && a.root.maximum + STACK_WINDOW < base[SP] && base[SP] + STACK_WINDOW + 4 <= WORD
  }

  ghost predicate WithinBound(a: Analysis, base: seq<int>, c: Config)
    requires Frame(base) && |c.regs| == 32
  {
    base[SP] - a.root.maximum <= c.regs[SP] <= base[SP]
  }

  // ---- the explained configuration is within the bound ----

  lemma TopSettled(a: Analysis, base: seq<int>, stack: seq<Act>, c: Config) returns (out: Outcome)
    requires Accepted(a) && Describes(a, base, stack, c)
    ensures var top := stack[|stack| - 1];
            && Usable(a, top.cert)
            && out == Transfer(a.p, top.cert.options, top.cert.entry, c.pc, top.cert.states[top.loc])
            && Settled(out, top.cert.states, top.cert.maximum, a.bounds)
            && top.cert.states[top.loc].phase == top.loc.phase
            && Disciplined(a.p, top.cert.options, c.pc, top.cert.states[top.loc])
  {
    hide Transfer, Disciplined, StateDescribes;
    var top := stack[|stack| - 1];
    MemberUsable(a, top.cert);
    out := Transfer(a.p, top.cert.options, top.cert.entry, c.pc, top.cert.states[top.loc]);
  }

  /** The recorded stack pointer of a settled state, as the machine holds it. */
  lemma StackPointerKnown(f: seq<int>, sp: AVal, w: int)
    requires Frame(f) && Grounded(f) && !DepthRefused(sp) && In(f, sp, w)
    ensures w == f[SP] - (STACK - Only(sp.xs)) && 0 <= STACK - Only(sp.xs) <= STACK_WINDOW
  {
    var x := Only(sp.xs);
    assert Denotes(f, x, w);
    assert 0 <= f[SP] + x - STACK < WORD;
  }

  lemma TopDepth(a: Analysis, base: seq<int>, stack: seq<Act>, c: Config)
    requires Accepted(a) && StackMapped(a, base) && Describes(a, base, stack, c)
    requires c.pc !in a.root.options.stopPcs
    ensures WithinBound(a, base, c)
    ensures var top := stack[|stack| - 1];
            var out := Transfer(a.p, top.cert.options, top.cert.entry, c.pc, top.cert.states[top.loc]);
            out.Flows? && c.regs[SP] == top.entry[SP] - out.depth
  {
    hide Closed, Disciplined, JumpOutcome, Execute, RefineBranch, RefineZero;
    var top := stack[|stack| - 1];
    var out := TopSettled(a, base, stack, c);
    var st := top.cert.states[top.loc];
    assert ActOK(a, base, top);
    assert c.pc !in top.cert.options.stopPcs;
    assert !DepthRefused(st.regs[SP]);
    assert In(top.entry, st.regs[SP], c.regs[SP]);
    StackPointerKnown(top.entry, st.regs[SP], c.regs[SP]);
    DepthOfFlow(a.p, top.cert.options, top.cert.entry, c.pc, st);
  }

  lemma DepthOfFlow(p: Program, o: Options, entry: State, pc: int, st: State)
    requires pc !in o.stopPcs && Transfer(p, o, entry, pc, st).Flows?
    ensures pc in p.owner && !DepthRefused(st.regs[SP])
            && Transfer(p, o, entry, pc, st).depth == STACK - Only(st.regs[SP].xs)
  {
    hide Execute, RefineBranch, RefineZero, JumpAll;
  }

  // ---- one machine step ----

  /** The innermost activation moves along one recorded successor. */
  lemma Follow(a: Analysis, base: seq<int>, stack: seq<Act>, c: Config, d: Config, s: Succ) returns (stack': seq<Act>)
    requires Accepted(a) && Describes(a, base, stack, c) && Valid(d)
    requires Covered(stack[|stack| - 1].cert.states, s) && s.pc == d.pc
    requires StateDescribes(stack[|stack| - 1].entry, s.st, d.regs, d.mem)
    requires d.regs[3] == c.regs[3] && d.regs[4] == c.regs[4]
    requires forall k :: 0 <= k < |stack| - 1 ==>
               SlotsHold(stack[k].entry, stack[k].cert.states[stack[k].loc].mem, d.mem)
    ensures Describes(a, base, stack', d) && stack' == Continued(stack, s)
    ensures |stack'| == |stack|
    ensures if |stack| == 1 then stack'[0].loc.phase == s.st.phase else stack'[0].loc == stack[0].loc
  {
    hide Closed, Disciplined, StateDescribes, SlotsHold, Resumable, LeqState;
    var n := |stack| - 1;
    var top := stack[n];
    var l := LocOf(s.pc, s.st);
    var top' := Act(top.cert, l, top.entry);
    stack' := Continued(stack, s);
    assert ActOK(a, base, top);
    LeqStateDescribes(top.entry, s.st, top.cert.states[l], d.regs, d.mem);
    assert TopDescribes(top', d);
    forall k | 0 <= k < |stack'| ensures ActOK(a, base, stack'[k]) {
      assert ActOK(a, base, stack[k]);
    }
    forall k | 0 <= k < |stack'| - 1 ensures Suspended(a.p, stack'[k], stack'[k + 1], d.mem) {
      assert Suspended(a.p, stack[k], stack[k + 1], c.mem);
    }
  }

  /** Callers keep their tracked words through any instruction that is not a store. */
  lemma CallersKeepSlots(a: Analysis, base: seq<int>, stack: seq<Act>, c: Config, d: Config)
    requires Describes(a, base, stack, c)
    requires d.mem == c.mem
    ensures forall k :: 0 <= k < |stack| - 1 ==>
              SlotsHold(stack[k].entry, stack[k].cert.states[stack[k].loc].mem, d.mem)
  {
    hide SlotsHold, Resumable, StateDescribes;
    forall k | 0 <= k < |stack| - 1
      ensures SlotsHold(stack[k].entry, stack[k].cert.states[stack[k].loc].mem, d.mem)
    {
      assert Suspended(a.p, stack[k], stack[k + 1], c.mem);
    }
  }

  lemma CallersMissStore(a: Analysis, base: seq<int>, stack: seq<Act>, c: Config, address: int, w: int)
    requires Describes(a, base, stack, c) && 0 <= w < WORD
    requires forall k :: 0 <= k < |stack| - 1 ==>
                 MissesFacts(stack[k].entry, stack[k].cert.states[stack[k].loc].mem, address)
    ensures forall k :: 0 <= k < |stack| - 1 ==>
              SlotsHold(stack[k].entry, stack[k].cert.states[stack[k].loc].mem, StoreWord(c.mem, address, w))
  {
    hide Resumable, StateDescribes, StoreWord, MissesFacts, SlotsHold, LoadWord;
    forall k | 0 <= k < |stack| - 1
      ensures SlotsHold(stack[k].entry, stack[k].cert.states[stack[k].loc].mem, StoreWord(c.mem, address, w))
    {
      assert Suspended(a.p, stack[k], stack[k + 1], c.mem);
      MissedSlotsHold(stack[k].entry, stack[k].cert.states[stack[k].loc].mem, address, w, c.mem);
    }
  }

  lemma MovesAlong(a: Analysis, stack: seq<Act>, c: Config, d: Config, s: Succ)
    requires |stack| > 0 && stack[|stack| - 1].loc in stack[|stack| - 1].cert.states && s.pc == d.pc
    requires var top := stack[|stack| - 1];
             var out := Transfer(a.p, top.cert.options, top.cert.entry, c.pc, top.cert.states[top.loc]);
             out.Flows? && s in out.succs
    ensures Moves(a, stack, c, d, Continued(stack, s))
  {
    hide Transfer;
  }

  lemma MovesInto(a: Analysis, stack: seq<Act>, c: Config, d: Config, s: Succ, k: Key)
    requires |stack| > 0 && stack[|stack| - 1].loc in stack[|stack| - 1].cert.states && k in a.certs
             && k.address == d.pc
    requires var top := stack[|stack| - 1];
             var out := Transfer(a.p, top.cert.options, top.cert.entry, c.pc, top.cert.states[top.loc]);
             out.Flows? && s in out.succs && k in out.calls
    ensures Moves(a, stack, c, d, Continued(stack, s) + [Entering(a, k, d.regs)])
  {
    hide Transfer;
  }

  lemma PlainKeepsPlatform(p: Program, cut: Cut, c: Config, d: Config)
    requires WellFormed(p) && Valid(c) && Step(p, cut, c, d)
    ensures d.regs[3] == c.regs[3] && d.regs[4] == c.regs[4]
    ensures !p.instrs[c.pc].op.Sw? ==> d.mem == c.mem
  {
    assert !WritesPlatformRegister(p.instrs[c.pc].op);
  }

  lemma PlainSucc(p: Program, o: Options, entry: State, pc: int, st: State)
    requires Transfer(p, o, entry, pc, st).Flows? && pc !in o.stopPcs
    requires Plain(p.instrs[pc].op)
    ensures pc in p.owner && !DepthRefused(st.regs[SP])
    ensures var sp := Only(st.regs[SP].xs);
            var x := Execute(p, p.instrs[pc].op, st.regs, st.mem, sp);
            && x.Some?
            && Succ(pc + p.instrs[pc].size, State(x.value.regs, x.value.mem, st.phase)) in Transfer(p, o, entry, pc,
                st).succs
  {
    hide Execute, RefineBranch, RefineZero, JumpAll;
  }

  lemma AdvancePlain(a: Analysis, base: seq<int>, stack: seq<Act>, c: Config, d: Config) returns (stack': seq<Act>)
    requires Accepted(a) && StackMapped(a, base) && Describes(a, base, stack, c)
    requires Step(a.p, CutOf(a.root.options), c, d) && Plain(a.p.instrs[c.pc].op)
    requires RomIntact(a.p, c.mem) && StoreInScope(a, base, stack, c)
    ensures Describes(a, base, stack', d) && |stack'| == |stack| && Moves(a, stack, c, d, stack')
    ensures stack'[0].loc.phase == stack[0].loc.phase
  {
    hide Closed, Disciplined, Transfer, Execute, StateDescribes, SlotsHold, StoreMisses, Resumable, RomIntact,
        WellFormed,
         Moves, Continued;
    var cut := CutOf(a.root.options);
    var top := stack[|stack| - 1];
    var st := top.cert.states[top.loc];
    var op := a.p.instrs[c.pc].op;
    var out := TopSettled(a, base, stack, c);
    PlainSucc(a.p, top.cert.options, top.cert.entry, c.pc, st);
    var sp := Only(st.regs[SP].xs);
    var x := Execute(a.p, op, st.regs, st.mem, sp).value;
    var s := Succ(c.pc + a.p.instrs[c.pc].size, State(x.regs, x.mem, st.phase));
    assert Covered(top.cert.states, s);
    assert ActOK(a, base, top);
    StepKeepsValid(a.p, cut, c, d);
    PlainKeepsPlatform(a.p, cut, c, d);
    if op.Sw? {
      ExecuteStoreCovers(a.p, cut, top.cert.options, top.entry, st, sp, c, d);
      CallersMissStore(a, base, stack, c, Word(c.regs[op.rs] + op.imm), c.regs[op.src]);
    } else {
      ExecuteRegsCovers(a.p, cut, top.cert.options, top.entry, st, sp, c, d);
      CallersKeepSlots(a, base, stack, c, d);
    }
    stack' := Follow(a, base, stack, c, d, s);
    MovesAlong(a, stack, c, d, s);
  }

  lemma BranchSucc(p: Program, o: Options, entry: State, pc: int, st: State, taken: bool)
    requires WellFormed(p) && pc !in o.stopPcs && Transfer(p, o, entry, pc, st).Flows?
    requires p.instrs[pc].op.Branch?
    ensures var op := p.instrs[pc].op;
            var r := RefineBranch(op.cond, taken, op.rs, op.rt, st.regs);
            r.Some? ==> Succ(if taken then op.target else pc + p.instrs[pc].size, st.(regs := r.value))
                        in Transfer(p, o, entry, pc, st).succs
  {
    hide RefineBranch, RefineZero, JumpAll, Execute;
    assert Encodable(p.instrs[pc].op, pc + p.instrs[pc].size);
  }

  lemma BranchZeroSucc(p: Program, o: Options, entry: State, pc: int, st: State, zero: bool)
    requires WellFormed(p) && pc !in o.stopPcs && Transfer(p, o, entry, pc, st).Flows?
    requires p.instrs[pc].op.BranchZero?
    ensures var op := p.instrs[pc].op;
            var r := RefineZero(zero, op.rs, st.regs);
            r.Some? ==> Succ(if zero == op.onZero then op.target else pc + p.instrs[pc].size, st.(regs := r.value))
                        in Transfer(p, o, entry, pc, st).succs
  {
    hide RefineBranch, RefineZero, JumpAll, Execute;
    assert Encodable(p.instrs[pc].op, pc + p.instrs[pc].size);
    assert !p.instrs[pc].op.onZero == (if p.instrs[pc].op.onZero then false else true);
  }

  lemma AdvanceCompare(a: Analysis, base: seq<int>, stack: seq<Act>, c: Config, d: Config) returns (stack': seq<Act>)
    requires Accepted(a) && StackMapped(a, base) && Describes(a, base, stack, c)
    requires Step(a.p, CutOf(a.root.options), c, d) && a.p.instrs[c.pc].op.Branch?
    ensures Describes(a, base, stack', d) && |stack'| == |stack| && Moves(a, stack, c, d, stack')
    ensures stack'[0].loc.phase == stack[0].loc.phase
  {
    hide Closed, Transfer, SlotsHold, Resumable, WellFormed, RefineBranch, RegsDescribe, Moves, Continued;
    var top := stack[|stack| - 1];
    var st, op := top.cert.states[top.loc], a.p.instrs[c.pc].op;
    var out := TopSettled(a, base, stack, c);
    assert ActOK(a, base, top);
    CallersKeepSlots(a, base, stack, c, d);
    var taken := Holds(op.cond, c.regs[op.rs], c.regs[op.rt]);
    RefineBranchCovers(top.entry, op.cond, op.rs, op.rt, st.regs, c.regs);
    BranchSucc(a.p, top.cert.options, top.cert.entry, c.pc, st, taken);
    var r := RefineBranch(op.cond, taken, op.rs, op.rt, st.regs);
    stack' := Follow(a, base, stack, c, d, Succ(d.pc, st.(regs := r.value)));
    MovesAlong(a, stack, c, d, Succ(d.pc, st.(regs := r.value)));
  }

  lemma AdvanceZero(a: Analysis, base: seq<int>, stack: seq<Act>, c: Config, d: Config) returns (stack': seq<Act>)
    requires Accepted(a) && StackMapped(a, base) && Describes(a, base, stack, c)
    requires Step(a.p, CutOf(a.root.options), c, d) && a.p.instrs[c.pc].op.BranchZero?
    ensures Describes(a, base, stack', d) && |stack'| == |stack| && Moves(a, stack, c, d, stack')
    ensures stack'[0].loc.phase == stack[0].loc.phase
  {
    hide Closed, Transfer, SlotsHold, Resumable, WellFormed, RefineZero, RegsDescribe, Moves, Continued;
    var top := stack[|stack| - 1];
    var st, op := top.cert.states[top.loc], a.p.instrs[c.pc].op;
    var out := TopSettled(a, base, stack, c);
    assert ActOK(a, base, top);
    CallersKeepSlots(a, base, stack, c, d);
    var zero := c.regs[op.rs] == 0;
    BranchZeroSucc(a.p, top.cert.options, top.cert.entry, c.pc, st, zero);
    DepthOfFlow(a.p, top.cert.options, top.cert.entry, c.pc, st);
    NearStackAt(a.p, top.cert.options, c.pc, st);
    RefineZeroCovers(top.entry, op.rs, st.regs, c.regs);
    var r := RefineZero(zero, op.rs, st.regs);
    stack' := Follow(a, base, stack, c, d, Succ(d.pc, st.(regs := r.value)));
    MovesAlong(a, stack, c, d, Succ(d.pc, st.(regs := r.value)));
  }

  lemma AdvanceBranch(a: Analysis, base: seq<int>, stack: seq<Act>, c: Config, d: Config) returns (stack': seq<Act>)
    requires Accepted(a) && StackMapped(a, base) && Describes(a, base, stack, c)
    requires Step(a.p, CutOf(a.root.options), c, d)
    requires a.p.instrs[c.pc].op.Branch? || a.p.instrs[c.pc].op.BranchZero?
    ensures Describes(a, base, stack', d) && |stack'| == |stack| && Moves(a, stack, c, d, stack')
    ensures stack'[0].loc.phase == stack[0].loc.phase
  {
    hide Describes, StackMapped, Accepted, Moves, WellFormed;
    assert c.pc in a.p.instrs;
    if a.p.instrs[c.pc].op.Branch? {
      stack' := AdvanceCompare(a, base, stack, c, d);
    } else {
      stack' := AdvanceZero(a, base, stack, c, d);
    }
  }

  lemma NearStackAt(p: Program, o: Options, pc: int, st: State)
    requires pc in p.instrs && pc in p.owner && p.instrs[pc].op.BranchZero?
    requires Disciplined(p, o, pc, st)
    ensures NearStack(st.regs[p.instrs[pc].op.rs])
  {
  }

  // ---- jumps ----

  function SiteOf(p: Program, pc: int): Site
    requires pc in p.owner && pc in p.instrs && IsJump(p.instrs[pc].op)
  {
    Site(p.owner[pc], p.instrs[pc].op.rd, pc + p.instrs[pc].size)
  }

  /** The engine's walk over the destinations of the jump at `pc`. */
  function WalkOf(p: Program, o: Options, pc: int, st: State): Jump
    requires pc in p.owner && pc in p.instrs && IsJump(p.instrs[pc].op)
    requires Destinations(p.instrs[pc].op, st.regs).Vals?
  {
    JumpAll(p, o, SiteOf(p, pc), Jump(st.regs, {}, st.phase, [], {}),
            SortedSeq(Destinations(p.instrs[pc].op, st.regs).xs - {RETURN}))
  }

  lemma JumpFlows(p: Program, o: Options, entry: State, pc: int, st: State)
    requires pc !in o.stopPcs && Transfer(p, o, entry, pc, st).Flows?
    requires IsJump(p.instrs[pc].op)
    ensures pc in p.owner && Destinations(p.instrs[pc].op, st.regs).Vals?
    ensures var out, j := Transfer(p, o, entry, pc, st), WalkOf(p, o, pc, st);
            && j.Jump? && out.calls == j.calls
            && (forall t :: t in j.targets ==> Succ(t, State(j.regs, st.mem, j.phase)) in out.succs)
            && (Returning(Destinations(p.instrs[pc].op, st.regs)) ==> out.returning && !ReturnRefused(o, entry, st))
  {
    hide Execute, RefineBranch, RefineZero, JumpAll, Destinations, DepthRefused, ReturnRefused;
    var out, j := Transfer(p, o, entry, pc, st), WalkOf(p, o, pc, st);
    var ts := SortedSeq(j.targets);
    forall t | t in j.targets ensures Succ(t, State(j.regs, st.mem, j.phase)) in out.succs {
      assert t in ts;
      var i :| 0 <= i < |ts| && ts[i] == t;
      assert out.succs[i] == Succ(t, State(j.regs, st.mem, j.phase));
    }
  }

  lemma JumpDestination(p: Program, o: Options, pc: int, f: seq<int>, st: State, words: seq<int>) returns (x: int)
    requires WellFormed(p) && pc in p.instrs && pc in p.owner && IsJump(p.instrs[pc].op)
    requires Disciplined(p, o, pc, st)
    requires Frame(f) && Frame(words) && RegsDescribe(f, st.regs, words)
    requires Destinations(p.instrs[pc].op, st.regs).Vals?
    ensures Linking(p.instrs[pc].op.rd)
    ensures x in Destinations(p.instrs[pc].op, st.regs).xs
    ensures x == RETURN ==>
                words[1] == f[1] && JumpTarget(p.instrs[pc].op, words) == f[1] - f[1] % 2 && p.instrs[pc].op.rd == 0
    ensures 0 <= x < WORD && x % 2 == 0 ==> JumpTarget(p.instrs[pc].op, words) == x
  {
    hide Arithmetic;
    var op := p.instrs[pc].op;
    assert Encodable(op, pc + p.instrs[pc].size);
    match op {
      case Jal(_, target) => x := target;
      case JumpReg(_, rs) =>
        x :| x in st.regs[rs].xs && Denotes(f, x, words[rs]);
      case Jalr(_, rs, imm) =>
        if imm == 0 && st.regs[rs] == Const(RETURN) {
          x := RETURN;
          assert In(f, st.regs[rs], words[rs]);
          assert Denotes(f, RETURN, words[rs]);
        } else {
          JumpTargetCovers(f, st.regs[rs], imm, words[rs]);
          var target := JumpTarget(op, words);
          x :| x in Arithmetic(st.regs[rs], Const(imm), AddEven).xs && Denotes(f, x, target);
        }
    }
  }

  /** A tail jump, an alternate link or an inlined call stays in the innermost activation. */
  lemma AdvanceInternal(a: Analysis, base: seq<int>, stack: seq<Act>, c: Config, d: Config, j: Jump)
      returns (stack': seq<Act>)
    requires Accepted(a) && Describes(a, base, stack, c) && Valid(d)
    requires c.pc in a.p.instrs && IsJump(a.p.instrs[c.pc].op) && c.pc in a.p.owner
    requires var top := stack[|stack| - 1];
             && j.Jump? && RegsFrom(top.cert.states[top.loc].regs, j.regs, SiteOf(a.p, c.pc))
             && Linked(j.regs, SiteOf(a.p, c.pc))
             && Covered(top.cert.states, Succ(d.pc, State(j.regs, top.cert.states[top.loc].mem, j.phase)))
    requires d.regs == Write(c.regs, a.p.instrs[c.pc].op.rd, c.pc + a.p.instrs[c.pc].size) && d.mem == c.mem
    ensures Describes(a, base, stack', d) && |stack'| == |stack|
    ensures stack' == Continued(stack,
            Succ(d.pc, State(j.regs, stack[|stack| - 1].cert.states[stack[|stack| - 1].loc].mem, j.phase)))
    ensures if |stack| == 1 then stack'[0].loc.phase == j.phase else stack'[0].loc == stack[0].loc
  {
    hide Closed, Disciplined, SlotsHold, Resumable, RegsDescribe, RegsFrom, Linked, Covered, Continued;
    var top := stack[|stack| - 1];
    var st := top.cert.states[top.loc];
    assert ActOK(a, base, top);
    assert !WritesPlatformRegister(a.p.instrs[c.pc].op);
    LinkedDescribes(top.entry, st.regs, j.regs, SiteOf(a.p, c.pc), c.regs);
    CallersKeepSlots(a, base, stack, c, d);
    stack' := Follow(a, base, stack, c, d, Succ(d.pc, State(j.regs, st.mem, j.phase)));
  }

  /** A register file describes the default entry of the activation that starts with it. */
  lemma EntryDescribed(f: seq<int>, callback: AVal)
    requires Frame(f) && f[0] == 0 && In(f, callback, f[11])
    ensures RegsDescribe(f, DefaultEntry(callback).regs, f)
  {
    forall r | 0 <= r < 32 ensures In(f, DefaultEntry(callback).regs[r], f[r]) {
      assert DefaultEntry(callback).regs[r] == DefaultReg(r, callback);
      if r == 0 { assert Denotes(f, 0, f[0]); }
      else if r == 1 { assert Denotes(f, RETURN, f[1]); }
      else if r == SP { assert Denotes(f, STACK, f[SP]); }
      else if Saved(r) { assert Denotes(f, RETURN - r, f[r]); }
    }
  }

  lemma CalleeKnown(a: Analysis, k: Key, callee: Cert)
    requires Accepted(a) && k in a.bounds && callee == a.certs[k]
    ensures Nested(a, callee) && callee.address == k.address && callee.entry == DefaultEntry(k.callback)
    ensures callee.maximum == a.bounds[k]
    ensures Covered(callee.states, Succ(k.address, DefaultEntry(k.callback)))
  {
    hide Disciplined, Transfer, DefaultEntry, Covered;
    assert CertFor(a.p, a.bounds, k, callee);
  }

  /** What a caller's recorded resume state keeps, whatever the callee does within the convention. */
  lemma CallerResumable(f: seq<int>, before: Regs, j: Jump, st: State, s: Site, words: seq<int>, callee: seq<int>)
    requires Frame(f) && Frame(words) && Frame(callee) && 0 <= s.next < WORD
    requires s.rd == 1 && callee == Write(words, 1, s.next)
    requires RegsDescribe(f, before, words)
    requires j.Jump? && RegsFrom(before, j.regs, s) && Linked(j.regs, s) && Clobbered(j.regs, s)
    requires forall r :: 0 <= r < 32 ==> Leq(j.regs[r], st.regs[r])
    ensures forall r :: 0 <= r < 32 ==>
              if CallerSaved(r) && r != 1 then st.regs[r].Top? else In(f, st.regs[r], callee[r])
  {
    forall r | 0 <= r < 32
      ensures if CallerSaved(r) && r != 1 then st.regs[r].Top? else In(f, st.regs[r], callee[r])
    {
      assert Leq(j.regs[r], st.regs[r]);
      if r == 1 {
        ConstCovers(f, s.next);
        LeqCovers(f, j.regs[1], st.regs[1], s.next);
      } else if !CallerSaved(r) {
        assert j.regs[r] == before[r] && In(f, before[r], words[r]);
        LeqCovers(f, j.regs[r], st.regs[r], words[r]);
      }
    }
  }

  /** A call pushes an activation of the analysed callee and leaves the caller waiting at its fall-through. */
  lemma AdvanceCall(a: Analysis, base: seq<int>, stack: seq<Act>, c: Config, d: Config, j: Jump, depth: nat, k: Key)
    returns (stack': seq<Act>)
    requires Accepted(a) && StackMapped(a, base) && Describes(a, base, stack, c) && Valid(d)
    requires c.pc in a.p.instrs && IsJump(a.p.instrs[c.pc].op) && c.pc in a.p.owner
    requires var top, s := stack[|stack| - 1], SiteOf(a.p, c.pc);
             && j.Jump? && RegsFrom(top.cert.states[top.loc].regs, j.regs, s) && Linked(j.regs, s)
                 && Clobbered(j.regs, s)
             && Covered(top.cert.states, Succ(s.next, State(j.regs, top.cert.states[top.loc].mem, j.phase)))
             && s.rd == 1
    requires k.address == d.pc && CallCovered(a.bounds, stack[|stack| - 1].cert.maximum, depth, k)
    requires c.regs[SP] == stack[|stack| - 1].entry[SP] - depth
    requires In(d.regs, k.callback, d.regs[11])
    requires d.regs == Write(c.regs, 1, c.pc + a.p.instrs[c.pc].size) && d.mem == c.mem
    ensures Describes(a, base, stack', d) && |stack'| == |stack| + 1 && k in a.certs
    ensures var top, s := stack[|stack| - 1], SiteOf(a.p, c.pc);
            stack' == Continued(stack, Succ(s.next, State(j.regs, top.cert.states[top.loc].mem, j.phase)))
                + [Entering(a, k, d.regs)]
    ensures if |stack| == 1 then stack'[0].loc.phase == j.phase else stack'[0].loc == stack[0].loc
  {
    hide Closed, Disciplined, RegsDescribe, RegsFrom, Clobbered, Linked, DefaultEntry, Encodable, AllDisciplined, In;
    var n := |stack| - 1;
    var top, s := stack[n], SiteOf(a.p, c.pc);
    var st := top.cert.states[top.loc];
    var resume := Succ(s.next, State(j.regs, st.mem, j.phase));
    var l := LocOf(resume.pc, resume.st);
    var caller := Act(top.cert, l, top.entry);
    var callee := a.certs[k];
    assert k in a.certs.Keys;
    CalleeKnown(a, k, callee);
    var entry := DefaultEntry(k.callback);
    var inner := Act(callee, LocOf(k.address, entry), d.regs);
    assert ActOK(a, base, top);
    assert ActOK(a, base, caller);
    CallerResumable(top.entry, st.regs, j, top.cert.states[l], s, c.regs, d.regs);
    assert Resumable(caller, d.regs);
    assert SlotsHold(top.entry, top.cert.states[l].mem, d.mem) by {
      SlotsWeaken(top.entry, st.mem, top.cert.states[l].mem, d.mem);
    }
    assert s.next % 2 == 0;
    assert Suspended(a.p, caller, inner, d.mem);
    EntryTopDescribes(inner, k.callback, d);
    assert ActOK(a, base, inner);
    stack' := stack[..n] + [caller, inner];
    assert stack' == Continued(stack, resume) + [inner];
    forall i | 0 <= i < |stack'| ensures ActOK(a, base, stack'[i]) {
      if i < n { assert ActOK(a, base, stack[i]); }
    }
    hide ActOK, Resumable, SlotsHold;
    forall i | 0 <= i < |stack'| - 1 ensures Suspended(a.p, stack'[i], stack'[i + 1], d.mem) {
      if i < n { assert Suspended(a.p, stack[i], stack[i + 1], c.mem); }
    }
  }

  lemma SlotsWeaken(f: seq<int>, a: map<int, AVal>, b: map<int, AVal>, mem: Memory)
    requires Frame(f) && SlotsHold(f, a, mem)
    requires forall k :: k in b ==> k in a && Leq(a[k], b[k])
    ensures SlotsHold(f, b, mem)
  {
    forall k | k in b ensures InWindow(k) && In(f, b[k], LoadWord(mem, SlotAddress(f, k))) {
      LeqCovers(f, a[k], b[k], LoadWord(mem, SlotAddress(f, k)));
    }
  }

  lemma EntryTopDescribes(act: Act, callback: AVal, d: Config)
    requires Valid(d) && act.entry == d.regs && In(d.regs, callback, d.regs[11])
    requires act.loc == LocOf(d.pc, DefaultEntry(callback))
    requires Covered(act.cert.states, Succ(d.pc, DefaultEntry(callback)))
    ensures TopDescribes(act, d)
  {
    EntryDescribed(d.regs, callback);
    LeqStateDescribes(d.regs, DefaultEntry(callback), act.cert.states[act.loc], d.regs, d.mem);
  }

  lemma ReturnRestores(top: Act, callback: AVal, c: Config)
    requires Valid(c) && Frame(top.entry) && top.entry[0] == 0 && top.loc in top.cert.states
    requires TopDescribes(top, c) && top.cert.entry == DefaultEntry(callback)
    requires !ReturnRefused(top.cert.options, top.cert.entry, top.cert.states[top.loc])
    ensures forall r :: 0 <= r < 32 && !CallerSaved(r) ==> c.regs[r] == top.entry[r]
  {
    hide SlotsHold;
    var st := top.cert.states[top.loc];
    forall r | 0 <= r < 32 && !CallerSaved(r) ensures c.regs[r] == top.entry[r] {
      if r == SP || Saved(r) {
        assert st.regs[r] == DefaultEntry(callback).regs[r] == DefaultReg(r, callback);
        assert In(top.entry, st.regs[r], c.regs[r]);
      }
    }
  }

  /** Returning restores sp and the callee-saved registers, so the caller's resume state describes the machine. */
  lemma AdvanceReturn(a: Analysis, base: seq<int>, stack: seq<Act>, c: Config, d: Config) returns (stack': seq<Act>)
    requires Accepted(a) && Describes(a, base, stack, c) && Valid(d) && |stack| > 1
    requires var top := stack[|stack| - 1];
             && !ReturnRefused(top.cert.options, top.cert.entry, top.cert.states[top.loc])
             && c.regs[1] == top.entry[1] && d.pc == top.entry[1] - top.entry[1] % 2
    requires d.regs == c.regs && d.mem == c.mem
    ensures Describes(a, base, stack', d) && stack' == stack[..|stack| - 1]
    ensures stack'[0].loc == stack[0].loc
  {
    hide Closed, Disciplined, AllDisciplined, SlotsHold, WellFormed;
    var n := |stack| - 1;
    var top, caller := stack[n], stack[n - 1];
    stack' := stack[..n];
    assert Suspended(a.p, stack[n - 1], stack[n - 1 + 1], c.mem);
    assert ActOK(a, base, top) && ActOK(a, base, caller);
    var cb :| top.cert.entry == DefaultEntry(cb);
    ReturnRestores(top, cb, c);
    var st := caller.cert.states[caller.loc];
    forall r | 0 <= r < 32 ensures In(caller.entry, st.regs[r], d.regs[r]) {
      if !CallerSaved(r) || r == 1 {
        assert In(caller.entry, st.regs[r], top.entry[r]);
        assert d.regs[r] == top.entry[r];
      }
    }
    assert TopDescribes(caller, d);
    hide ActOK, Resumable;
    forall i | 0 <= i < |stack'| - 1 ensures Suspended(a.p, stack'[i], stack'[i + 1], d.mem) {
      assert Suspended(a.p, stack[i], stack[i + 1], c.mem);
    }
  }

  /** The destinations hold no stage, or nothing else. */
  ghost predicate StagesAlone(o: Options, xs: set<int>) {
    (forall t :: t in xs ==> t !in o.stages) || |xs| == 1
  }

  /**
   Stage calls are direct: a jump that may reach a stage reaches nothing else but a return, separately analysed
   callees neither call stages nor contain the cut, and no stage starts where a call falls through to.
   */
  ghost predicate DirectStages(a: Analysis) {
    && (forall l :: l in a.root.states && l.pc in a.p.instrs && IsJump(a.p.instrs[l.pc].op)
          ==> var dests := Destinations(a.p.instrs[l.pc].op, a.root.states[l].regs);
              dests.Vals? ==> StagesAlone(a.root.options, dests.xs - {RETURN}))
    && (forall k, l, t :: k in a.certs && l in a.certs[k].states && t in a.root.options.stages
          ==> !MayJumpTo(a.p, l.pc, a.certs[k].states[l], t))
    && (forall k, l :: k in a.certs && l in a.certs[k].states ==> l.pc !in a.root.options.stopPcs)
    && (forall t :: t in a.root.options.stages ==> !FollowsCall(a.p, t))
  }

  predicate MayJumpTo(p: Program, pc: int, st: State, t: int) {
    pc in p.instrs && IsJump(p.instrs[pc].op) &&
    Destinations(p.instrs[pc].op, st.regs).Vals? && t in Destinations(p.instrs[pc].op, st.regs).xs
  }

  /** How the root's phase follows a jump to `target`. */
  ghost predicate PhaseFollows(o: Options, before: nat, after: nat, target: int) {
    if target in o.stages then before < |o.stages| && o.stages[before] == target && after == before + 1
    else after == before
  }

  /** The recorded phase is right for every destination exactly when stages stand alone. */
  lemma AllFollow(p: Program, o: Options, pc: int, st: State)
    requires pc in p.owner && pc in p.instrs && IsJump(p.instrs[pc].op)
    requires Destinations(p.instrs[pc].op, st.regs).Vals? && WalkOf(p, o, pc, st).Jump?
    ensures var xs := Destinations(p.instrs[pc].op, st.regs).xs - {RETURN};
            (forall t :: t in xs ==> PhaseFollows(o, st.phase, WalkOf(p, o, pc, st).phase, t)) <==> StagesAlone(o, xs)
  {
    hide Destinations, JumpAll;
    var xs := Destinations(p.instrs[pc].op, st.regs).xs - {RETURN};
    var ts, start, s := SortedSeq(xs), Jump(st.regs, {}, st.phase, [], {}), SiteOf(p, pc);
    JumpAllPhase(p, o, s, start, ts);
    StagesInNone(o, ts);
    StagesInAll(o, ts);
    SortedLength(xs);
    if |xs| == 1 {
      assert ts == [ts[0]] && ts[0] in xs && xs == {ts[0]} by { var x := Only(xs); SortedOne(x); }
      if ts[0] in o.stages {
        JumpOnePhase(p, o, s, start, ts[0]);
      }
    }
  }

  lemma {:induction false} SortedLength(xs: set<int>)
    ensures |SortedSeq(xs)| == |xs|
  {
    var q := SortedSeq(xs);
    assert Distinct(q);
    DistinctLength(q, xs);
    MembersLength(xs, q);
  }

  lemma RootWalkPhase(a: Analysis, base: seq<int>, stack: seq<Act>, c: Config, j: Jump, x: int)
    requires Accepted(a) && DirectStages(a) && Describes(a, base, stack, c)
    requires |stack| == 1 && c.pc in a.p.instrs && c.pc in a.p.owner && IsJump(a.p.instrs[c.pc].op)
    requires var st := a.root.states[stack[0].loc];
             && Destinations(a.p.instrs[c.pc].op, st.regs).Vals? && j == WalkOf(a.p, a.root.options, c.pc, st)
                 && j.Jump?
             && x in Destinations(a.p.instrs[c.pc].op, st.regs).xs && x != RETURN
             && st.phase == stack[0].loc.phase
    ensures PhaseFollows(a.root.options, stack[0].loc.phase, j.phase, x)
  {
    hide Closed, Certified, AllDisciplined, WellFormed, JumpAll, Destinations, PhaseFollows, StagesAlone;
    AllFollow(a.p, a.root.options, c.pc, a.root.states[stack[0].loc]);
  }

  lemma SortedOne(x: int)
    ensures SortedSeq({x}) == [x]
  {
    assert {x} - {x} == {};
    assert SortedSeq({x} - {x}) == [];
  }

  lemma NestedAvoidsStages(a: Analysis, base: seq<int>, stack: seq<Act>, c: Config, x: int)
    requires DirectStages(a) && Describes(a, base, stack, c) && |stack| > 1
    requires MayJumpTo(a.p, c.pc, stack[|stack| - 1].cert.states[stack[|stack| - 1].loc], x)
    ensures x !in a.root.options.stages
  {
    var top := stack[|stack| - 1];
    assert Nested(a, top.cert);
    var k :| k in a.certs && a.certs[k] == top.cert;
    assert top.loc in a.certs[k].states;
  }

  /** A jump that is not a return goes on in the recorded successor, or enters a recorded callee. */
  lemma AdvanceWalk(a: Analysis, base: seq<int>, stack: seq<Act>, c: Config, d: Config, j: Jump, x: int)
    returns (stack': seq<Act>)
    requires c.pc in a.p.instrs && c.pc in a.p.owner && IsJump(a.p.instrs[c.pc].op) && |c.regs| == 32
    requires stack != [] && stack[|stack| - 1].loc in stack[|stack| - 1].cert.states
    requires var top, op := stack[|stack| - 1], a.p.instrs[c.pc].op;
             && Destinations(op, top.cert.states[top.loc].regs).Vals?
             && x in Destinations(op, top.cert.states[top.loc].regs).xs && x != RETURN
             && Linking(op.rd) && (0 <= x < WORD && x % 2 == 0 ==> JumpTarget(op, c.regs) == x)
             && j == WalkOf(a.p, top.cert.options, c.pc, top.cert.states[top.loc])
    requires Accepted(a) && StackMapped(a, base) && Describes(a, base, stack, c)
    requires Step(a.p, CutOf(a.root.options), c, d)
    ensures d.pc == x && stack' != [] && j.Jump?
    ensures if |stack| == 1 then stack'[0].loc.phase == j.phase else stack'[0].loc == stack[0].loc
    ensures Describes(a, base, stack', d) && Moves(a, stack, c, d, stack')
  {
    hide Closed, Transfer, Resumable, RegsFrom, Linked, Clobbered, Destinations, ReturnRefused, In,
         DefaultEntry, LeqState, SlotsHold, StateDescribes, JumpAll, AllDisciplined, Encodable, Denotes, Continued,
             Entering;
    var p, top := a.p, stack[|stack| - 1];
    var st, o := top.cert.states[top.loc], top.cert.options;
    var out := TopSettled(a, base, stack, c);
    assert ActOK(a, base, top);
    StepKeepsValid(p, CutOf(a.root.options), c, d);
    JumpFlows(p, o, top.cert.entry, c.pc, st);
    var s := SiteOf(p, c.pc);
    var ts := SortedSeq(Destinations(p.instrs[c.pc].op, st.regs).xs - {RETURN});
    JumpAllHandles(p, o, s, Jump(st.regs, {}, st.phase, [], {}), ts);
    assert Handled(p, o, s, st.regs, j, x);
    assert d.pc == x;
    assert !(x in o.stopCalls || p.owner[x] in p.exceptional);
    if Internal(p, o, s, x) {
      assert Covered(top.cert.states, Succ(x, State(j.regs, st.mem, j.phase)));
      stack' := AdvanceInternal(a, base, stack, c, d, j);
      MovesAlong(a, stack, c, d, Succ(x, State(j.regs, st.mem, j.phase)));
    } else {
      TopDepth(a, base, stack, c);
      assert RegsDescribe(top.entry, st.regs, c.regs) by { RegsOfState(top.entry, st, c.regs, c.mem); }
      var k := CallKey(p, x, st.regs);
      assert CallCovered(a.bounds, top.cert.maximum, out.depth, k);
      CallbackDescribed(p, o, c.pc, top.entry, st, c.regs, d.regs, x);
      assert Covered(top.cert.states, Succ(s.next, State(j.regs, st.mem, j.phase)));
      stack' := AdvanceCall(a, base, stack, c, d, j, out.depth, k);
      MovesInto(a, stack, c, d, Succ(s.next, State(j.regs, st.mem, j.phase)), k);
    }
  }

  lemma AdvanceJump(a: Analysis, base: seq<int>, stack: seq<Act>, c: Config, d: Config)
    returns (stack': seq<Act>, returned: bool)
    requires Accepted(a) && StackMapped(a, base) && Describes(a, base, stack, c)
    requires Step(a.p, CutOf(a.root.options), c, d) && IsJump(a.p.instrs[c.pc].op)
    ensures returned ==> |stack| == 1 && d.pc == base[1] && d.regs == c.regs
    ensures returned ==> stack[0].loc in a.root.states
    ensures returned ==> !ReturnRefused(a.root.options, a.root.entry, a.root.states[stack[0].loc])
    ensures !returned ==> Describes(a, base, stack', d) && Moves(a, stack, c, d, stack')
    ensures !returned && DirectStages(a) ==>
              PhaseFollows(a.root.options, stack[0].loc.phase, stack'[0].loc.phase, d.pc)
  {
    hide Closed, Transfer, Resumable, RegsFrom, Linked, Clobbered, Destinations, ReturnRefused, In,
         DefaultEntry, LeqState, SlotsHold, StateDescribes, JumpAll, AllDisciplined, Encodable, Denotes, Continued,
             Entering;
    var p, top := a.p, stack[|stack| - 1];
    var st, o := top.cert.states[top.loc], top.cert.options;
    var out := TopSettled(a, base, stack, c);
    assert ActOK(a, base, top);
    StepKeepsValid(p, CutOf(a.root.options), c, d);
    JumpFlows(p, o, top.cert.entry, c.pc, st);
    var j := WalkOf(p, o, c.pc, st);
    assert RegsDescribe(top.entry, st.regs, c.regs) by { RegsOfState(top.entry, st, c.regs, c.mem); }
    var x := JumpDestination(p, o, c.pc, top.entry, st, c.regs);
    returned, stack' := false, stack;
    if x == RETURN {
      if |stack| == 1 {
        returned := true;
      } else {
        stack' := AdvanceReturn(a, base, stack, c, d);
        assert Suspended(a.p, stack[|stack| - 2], stack[|stack| - 2 + 1], c.mem);
        assert FollowsCall(p, d.pc);
      }
    } else {
      if DirectStages(a) {
        if |stack| == 1 {
          RootWalkPhase(a, base, stack, c, j, x);
        } else {
          NestedAvoidsStages(a, base, stack, c, x);
        }
      }
      stack' := AdvanceWalk(a, base, stack, c, d, j, x);
    }
  }

  lemma RegsOfState(f: seq<int>, st: State, words: seq<int>, mem: Memory)
    requires Frame(f) && |words| == 32 && StateDescribes(f, st, words, mem)
    ensures RegsDescribe(f, st.regs, words)
  {
  }

  /** The callback argument means the same word to the callee as to the caller. */
  lemma CallbackDescribed(p: Program, o: Options, pc: int, f: seq<int>, st: State, words: seq<int>, callee: seq<int>,
      x: int)
    requires pc in p.instrs && pc in p.owner && IsJump(p.instrs[pc].op) && Disciplined(p, o, pc, st)
    requires Frame(f) && Frame(words) && Frame(callee) && RegsDescribe(f, st.regs, words)
    requires Destinations(p.instrs[pc].op, st.regs).Vals? && x in Destinations(p.instrs[pc].op, st.regs).xs
    requires x in p.owner && !Internal(p, o, SiteOf(p, pc), x)
    requires callee[11] == words[11]
    ensures In(callee, CallKey(p, x, st.regs).callback, callee[11])
  {
    hide Destinations;
    if p.owner[x] in p.once {
      var s := Site(p.owner[pc], p.instrs[pc].op.rd, 0);
      assert !Internal(p, o, s, x);
      assert CodeAddresses(st.regs[11]);
      assert In(f, st.regs[11], words[11]);
      if st.regs[11].Vals? {
        var v :| v in st.regs[11].xs && Denotes(f, v, words[11]);
        assert Denotes(callee, v, callee[11]);
      }
    }
  }

  // ---- whole runs ----

  /** The run starts at the analysed address in a configuration the analysis was seeded for. */
  ghost predicate Starts(a: Analysis, base: seq<int>, c: Config) {
    && Frame(base) && Valid(c)
    && c.pc == a.root.address
    && StateDescribes(base, a.root.entry, c.regs, c.mem)
    && c.regs[3] == base[3] && c.regs[4] == base[4]
  }

  /** A run of the machine from the analysed entry, with a mapped stack and an outside return address. */
  ghost predicate Begun(a: Analysis, base: seq<int>, run: seq<Config>) {
    && StackMapped(a, base) && base[1] !in a.p.instrs
    && Run(a.p, CutOf(a.root.options), run)
    && Starts(a, base, run[0])
  }

  /** Everything the soundness claim asks of a run. */
  ghost predicate InScope(a: Analysis, base: seq<int>, run: seq<Config>) {
    Begun(a, base, run) && MemoryInScope(a, base, run)
  }

  lemma InitiallyDescribed(a: Analysis, base: seq<int>, c: Config) returns (stack: seq<Act>)
    requires Accepted(a) && StackMapped(a, base) && Starts(a, base, c)
    ensures Describes(a, base, stack, c) && stack == [Act(a.root, LocOf(a.root.address, a.root.entry), base)]
    ensures stack[0].loc.phase == a.root.entry.phase
  {
    hide Certified, AllDisciplined, WellFormed, Settled, Transfer, StateDescribes;
    var l := LocOf(a.root.address, a.root.entry);
    assert Covered(a.root.states, Succ(a.root.address, a.root.entry));
    LeqStateDescribes(base, a.root.entry, a.root.states[l], c.regs, c.mem);
    stack := [Act(a.root, l, base)];
    assert ActOK(a, base, stack[0]);
  }

  lemma Advance(a: Analysis, base: seq<int>, stack: seq<Act>, c: Config, d: Config)
    returns (stack': seq<Act>, returned: bool)
    requires Accepted(a) && StackMapped(a, base) && Describes(a, base, stack, c)
    requires Step(a.p, CutOf(a.root.options), c, d)
    requires RomIntact(a.p, c.mem) && StoreInScope(a, base, stack, c)
    ensures returned ==> |stack| == 1 && d.pc == base[1] && d.regs == c.regs && IsJump(a.p.instrs[c.pc].op)
    ensures returned ==> stack[0].loc in a.root.states
    ensures returned ==> !ReturnRefused(a.root.options, a.root.entry, a.root.states[stack[0].loc])
    ensures !returned ==> Describes(a, base, stack', d) && Moves(a, stack, c, d, stack')
    ensures !returned && DirectStages(a) ==>
              if IsJump(a.p.instrs[c.pc].op)
                  then PhaseFollows(a.root.options, stack[0].loc.phase, stack'[0].loc.phase, d.pc)
              else stack'[0].loc.phase == stack[0].loc.phase
  {
    hide Accepted, Describes, StackMapped, StoreInScope, RomIntact, DirectStages, ReturnRefused, Moves;
    returned := false;
    var op := a.p.instrs[c.pc].op;
    if Plain(op) {
      stack' := AdvancePlain(a, base, stack, c, d);
    } else if IsJump(op) {
      stack', returned := AdvanceJump(a, base, stack, c, d);
    } else {
      stack' := AdvanceBranch(a, base, stack, c, d);
    }
  }

  /** Configuration `i` of an in-scope run is explained, or the root has returned and the run is over. */
  lemma {:induction false} Explained(a: Analysis, base: seq<int>, run: seq<Config>, i: nat)
    returns (stack: seq<Act>, returned: bool)
    requires Accepted(a) && InScope(a, base, run) && i < |run|
    ensures !returned ==> Describes(a, base, stack, run[i]) && Builds(a, base, run, i, stack)
    ensures returned ==> i == |run| - 1 && run[i].pc == base[1] && WithinBound(a, base, run[i])
  {
    hide Accepted, Describes, StoreInScope, RomIntact, StateDescribes, Step, Moves;
    if i == 0 {
      returned := false;
      stack := InitiallyDescribed(a, base, run[0]);
    } else {
      var k := i - 1;
      assert Step(a.p, CutOf(a.root.options), run[k], run[k + 1]);
      StepFromCode(a.p, CutOf(a.root.options), run[k], run[k + 1]);
      var before, over := Explained(a, base, run, k);
      assert !over;
      TopDepth(a, base, before, run[k]);
      stack, returned := Advance(a, base, before, run[k], run[k + 1]);
      if returned {
        if i < |run| - 1 {
          assert Step(a.p, CutOf(a.root.options), run[i], run[i + 1]);
          StepFromCode(a.p, CutOf(a.root.options), run[i], run[i + 1]);
          assert false;
        }
      }
    }
  }

  lemma StepFromCode(p: Program, cut: Cut, c: Config, d: Config)
    requires |c.regs| == 32 && Step(p, cut, c, d)
    ensures c.pc in p.instrs && c.pc !in cut.pcs
  {
  }

  /** The live stack depth is within the accepted maximum at every step, nested calls and tail jumps included. */
  lemma StackBounded(a: Analysis, base: seq<int>, run: seq<Config>)
    requires Accepted(a) && InScope(a, base, run)
    ensures forall i :: 0 <= i < |run| && run[i].pc !in a.root.options.stopPcs ==> WithinBound(a, base, run[i])
  {
    hide Accepted, Describes, StateDescribes, Step;
    forall i | 0 <= i < |run| && run[i].pc !in a.root.options.stopPcs
      ensures WithinBound(a, base, run[i])
    {
      var stack, returned := Explained(a, base, run, i);
      if !returned {
        TopDepth(a, base, stack, run[i]);
      }
    }
  }

  /** What the claim asks of a run from an ordinary function entry: the entry registers are the frame of reference. */
  lemma DefaultStart(a: Analysis, c: Config)
    requires a.root.entry == DefaultEntry(Top) && Valid(c) && c.pc == a.root.address
    ensures Starts(a, c.regs, c)
  {
    EntryDescribed(c.regs, Top);
  }

  /** Why an analysis on a fresh engine is refused. */
  ghost predicate RefusalExplained(p: Program, t: Task) {
    exists graph, why :: GraphGrew(p, t, {}, graph) && Explains(p, [], t, graph, why)
  }

  /**
   Analyses one function in default mode: an accepted bound holds for every in-scope run from its entry, and a
   refusal has a reason in the states and call-graph edges the function itself leads to.
   */
  method BoundFunction(p: Program, address: int) returns (r: Option<nat>, ghost a: Analysis)
    ensures r.Some? ==> a.p == p && a.root.address == address && a.root.options == DEFAULTS && a.root.maximum == r.value
                        && a.root.entry == DefaultEntry(Top) && Certified(p, a.bounds, a.certs)
                            && Closed(p, a.root, a.bounds)
    ensures r.Some? && WithinClaim(a) ==>
              forall base: seq<int>, run: seq<Config> :: Frame(base) && InScope(a, base, run) ==>
                forall i :: 0 <= i < |run| ==>
                  |run[i].regs| == 32 && base[SP] - r.value <= run[i].regs[SP] <= base[SP]
    ensures r.None? ==> RefusalExplained(p, TaskAsked(Key(address, Top), None, DEFAULTS))
  {
    hide WithinClaim, InScope, Certified, Closed, Transfer, Explains, GraphGrew;
    var e := new Engine(p);
    ghost var cert;
    ghost var why;
    r, cert, why := e.Analyze(Key(address, Top), None, DEFAULTS);
    a := Analysis(p, cert, e.cache, e.certs);
    assert r.None? ==> Explains(p, [], TaskAsked(Key(address, Top), None, DEFAULTS), e.callGraph, why);
    if r.Some? && WithinClaim(a) {
      forall base: seq<int>, run: seq<Config> | Frame(base) && InScope(a, base, run)
        ensures forall i :: 0 <= i < |run| ==>
                  |run[i].regs| == 32 && base[SP] - r.value <= run[i].regs[SP] <= base[SP]
      {
        RunValid(a, base, run);
        StackBounded(a, base, run);
      }
    }
  }

  lemma RunValid(a: Analysis, base: seq<int>, run: seq<Config>)
    requires InScope(a, base, run)
    ensures forall i :: 0 <= i < |run| ==> Valid(run[i])
  {
  }
}
