/**
 The rules of the interval engine one by one, in sets of integers. They pin what soundness leaves open: when a value
 is known, when a state is refused, and what each instruction records.
 */
module EngineRules {
  import opened Basics
  import opened Words
  import opened Sets
  import opened AbstractValues
  import opened Machine
  import opened Transfers
  import opened JumpRules
  import I = InstructionMeaning

  // ---- values ----

  /** The operations on unbounded integers. */
  lemma EvalMeans(op: AluOp, x: int, y: int)
    ensures var z := Eval(op, x, y);
            match op
            case Add => z == x + y
            case Sub => z == x - y
            case AddEven => z == (x + y) / 2 * 2
            case Sll => y >= 0 ==> z == x * Pow2(y)
            case Srl => y >= 0 ==> z == x % 0x1_0000_0000 / Pow2(y)
            case Slt =>
              var a, b := x % 0x1_0000_0000, y % 0x1_0000_0000;
              var sa := if a < 0x8000_0000 then a else a - 0x1_0000_0000;
              var sb := if b < 0x8000_0000 then b else b - 0x1_0000_0000;
              z == if sa < sb then 1 else 0
            case Sltu => z == if x % 0x1_0000_0000 < y % 0x1_0000_0000 then 1 else 0
            case BitAnd => forall i :: 0 <= i ==> I.Bit(z, i) == if I.Bit(x, i) == 1 && I.Bit(y, i) == 1 then 1 else 0
            case BitOr => forall i :: 0 <= i ==> I.Bit(z, i) == if I.Bit(x, i) == 1 || I.Bit(y, i) == 1 then 1 else 0
            case BitXor => forall i :: 0 <= i ==> I.Bit(z, i) == if I.Bit(x, i) != I.Bit(y, i) then 1 else 0
  {
    hide And, I.Bit, Pow2;
    if op.BitAnd? || op.BitOr? || op.BitXor? {
      forall i | 0 <= i
        ensures I.Bit(And(x, y), i) == I.Bit(x, i) * I.Bit(y, i)
        ensures I.Bit(x, i) == 0 || I.Bit(x, i) == 1
        ensures I.Bit(y, i) == 0 || I.Bit(y, i) == 1
        ensures I.Bit(x + y - And(x, y), i) == if I.Bit(x, i) == 1 || I.Bit(y, i) == 1 then 1 else 0
        ensures I.Bit(x + y - 2 * And(x, y), i) == if I.Bit(x, i) != I.Bit(y, i) then 1 else 0
      {
        I.AndBit(x, y, i);
        I.OrBit(x, y, i);
        I.BitOfExtremes(i);
      }
    }
  }

  /** One result: reduced to 32 bits when both operands are below 2^32 in magnitude. */
  ghost function ResultOf(op: AluOp, x: int, y: int): int {
    if -0x1_0000_0000 < x < 0x1_0000_0000 && -0x1_0000_0000 < y < 0x1_0000_0000 then Eval(op, x, y) % 0x1_0000_0000
    else Eval(op, x, y)
  }

  ghost function Results(a: set<int>, b: set<int>, op: AluOp): set<int> {
    set x, y | x in a && y in b :: ResultOf(op, x, y)
  }

  /** A result is unknown exactly for an unknown operand, an integer below -2^32, or more than 32 results. */
  lemma ArithmeticExact(a: AVal, b: AVal, op: AluOp)
    ensures if a.Top? || b.Top? || (exists x :: x in a.xs && x < -0x1_0000_0000)
               || (exists y :: y in b.xs && y < -0x1_0000_0000) || |Results(a.xs, b.xs, op)| > 32
            then Arithmetic(a, b, op) == Top
            else Arithmetic(a, b, op) == Vals(Results(a.xs, b.xs, op))
  {
    hide Eval;
    if a.Vals? && b.Vals? {
      var all := set x, y | x in a.xs && y in b.xs :: EvalMasked(op, x, y);
      assert forall x, y :: EvalMasked(op, x, y) == ResultOf(op, x, y);
      assert all == Results(a.xs, b.xs, op);
      if x :| x in a.xs + b.xs && x < -WORD {
        assert x in a.xs || x in b.xs;
      } else {
        assert forall x :: x in a.xs || x in b.xs ==> x in a.xs + b.xs;
      }
    }
  }

  lemma UnionExact(a: AVal, b: AVal)
    ensures if a.Top? || b.Top? || |a.xs + b.xs| > 32 then Union(a, b) == Top else Union(a, b) == Vals(a.xs + b.xs)
  {
  }

  // ---- states ----

  /** States at one location differ in the stack pointer or are joined register by register and fact by fact. */
  lemma MergeExact(a: State, b: State)
    ensures Merge(a, b).None? <==> a.regs[2] != b.regs[2]
    ensures a.regs[2] == b.regs[2] ==>
              var m := Merge(a, b).value;
              && m.phase == a.phase
              && (forall r :: 0 <= r < 32 ==> m.regs[r] == Union(a.regs[r], b.regs[r]))
              && forall k :: k in m.mem <==> k in a.mem && k in b.mem
    ensures a.regs[2] == b.regs[2] ==>
              forall k :: k in a.mem && k in b.mem ==> Merge(a, b).value.mem[k] == Union(a.mem[k], b.mem[k])
  {
  }

  /** Continuations share a location only with the same link, alternate link, stack pointer and phase. */
  lemma LocationsApart(pc: int, a: State, pc': int, b: State)
    ensures LocOf(pc, a) == LocOf(pc', b) <==>
            && pc == pc' && a.phase == b.phase
            && a.regs[1] == b.regs[1] && a.regs[5] == b.regs[5] && a.regs[2] == b.regs[2]
  {
  }

  /** An unseeded analysis starts with named entry values in x0, x1, sp and the callee-saved registers. */
  lemma EntryMeans(callback: AVal)
    ensures var s := DefaultEntry(callback);
            && s.mem == map[] && s.phase == 0
            && forall r :: 0 <= r < 32 ==>
                 s.regs[r] == if r == 0 then Vals({0})
                              else if r == 1 then Vals({-0x1_0000_0000_0000})
                              else if r == 2 then Vals({0x1_0000_0000_0000})
                              else if r in {8, 9, 18, 19, 20, 21, 22, 23, 24, 25, 26, 27}
                              then Vals({-0x1_0000_0000_0000 - r})
                              else if r == 11 then callback else Top
    ensures DEFAULTS == Options([], {}, {}, false, {})
  {
  }

  // ---- memory ----

  /** The section holds every byte from the address on. */
  ghost predicate Holder(rom: seq<Section>, a: int, size: nat, k: int) {
    0 <= k < |rom| && rom[k].start <= a && a + size <= rom[k].start + |rom[k].bytes|
  }

  lemma {:induction false} MatchesMeans(rom: seq<Section>, a: int, size: nat) returns (k: int, m: int)
    ensures |Matches(rom, a, size)| == 0 ==> forall i :: !Holder(rom, a, size, i)
    ensures |Matches(rom, a, size)| == 1 ==>
              && Holder(rom, a, size, k) && (forall i :: Holder(rom, a, size, i) ==> i == k)
              && Matches(rom, a, size)[0] == rom[k].bytes[a - rom[k].start..a - rom[k].start + size]
    ensures |Matches(rom, a, size)| > 1 ==> k != m && Holder(rom, a, size, k) && Holder(rom, a, size, m)
  {
    k, m := 0, 0;
    if rom != [] {
      var rest := rom[1..];
      var here := Holder(rom, a, size, 0);
      forall i ensures i >= 0 ==> (Holder(rest, a, size, i) <==> Holder(rom, a, size, i + 1)) {
      }
      k, m := MatchesMeans(rest, a, size);
      forall i | Holder(rom, a, size, i) && i != 0 ensures Holder(rest, a, size, i - 1) {
      }
      hide Holder;
      k, m := k + 1, m + 1;
      if here && |Matches(rest, a, size)| == 0 {
        k := 0;
      } else if here {
        m := 0;
      }
    }
  }

  /** Linked bytes are read where exactly one section holds them all, the lowest first. */
  lemma ReadMeans(rom: seq<Section>, a: int, size: nat) returns (k: int)
    ensures Read(rom, a, size).None? ==>
              forall i :: Holder(rom, a, size, i) ==> exists m :: m != i && Holder(rom, a, size, m)
    ensures Read(rom, a, size).Some? ==>
              && Holder(rom, a, size, k) && (forall i :: Holder(rom, a, size, i) ==> i == k)
              && Read(rom, a, size).value == ValueOf(rom[k].bytes[a - rom[k].start..a - rom[k].start + size])
  {
    var m;
    k, m := MatchesMeans(rom, a, size);
  }

  // ---- one instruction ----

  /** The engine is at a decoded instruction with one known stack pointer inside the window. */
  ghost predicate Standing(p: Program, o: Options, pc: int, st: State, sp: int) {
    && pc !in o.stopPcs && pc in p.owner && pc in p.instrs
    && st.regs[2] == Vals({sp}) && 0x1_0000_0000_0000 - 0x10_0000 <= sp <= 0x1_0000_0000_0000
  }

  /** A stop point ends the path, unless stages are left; anywhere else the engine must be standing. */
  lemma StopMeans(p: Program, o: Options, entry: State, pc: int, st: State)
    ensures pc in o.stopPcs ==>
              Transfer(p, o, entry, pc, st) ==
              if o.stages != [] && st.phase != |o.stages| then Rejected else Flows(0, [], [], {}, false)
    ensures pc !in o.stopPcs && (forall sp :: !Standing(p, o, pc, st, sp)) ==> Transfer(p, o, entry, pc, st).Rejected?
  {
    if pc !in o.stopPcs && pc in p.owner && pc in p.instrs && !DepthRefused(st.regs[SP]) {
      assert Standing(p, o, pc, st, Only(st.regs[SP].xs));
    }
  }

  /**
   One successor behind the instruction with `v` in register `rd`, unless that is sp and the value is unknown or,
   for computed results, not a single one.
   */
  ghost predicate Puts(out: Outcome, sp: int, next: int, st: State, rd: Reg, v: AVal, computed: bool)
    requires sp <= 0x1_0000_0000_0000
  {
    if rd == 2 && (v.Top? || (computed && |v.xs| != 1)) then out.Rejected?
    else
      && out.Flows? && |out.succs| == 1
      && out == Flows(0x1_0000_0000_0000 - sp, out.succs, [], {}, false)
      && out.succs[0].pc == next && out.succs[0].st.mem == st.mem && out.succs[0].st.phase == st.phase
      && forall r :: 0 <= r < 32 ==> out.succs[0].st.regs[r] == if r == rd && r != 0 then v else st.regs[r]
  }

  lemma StandingDepth(p: Program, o: Options, pc: int, st: State, sp: int)
    requires Standing(p, o, pc, st, sp)
    ensures !DepthRefused(st.regs[SP]) && Only(st.regs[SP].xs) == sp
  {
    assert Only({sp}) in {sp};
  }

  lemma PlainFlows(p: Program, o: Options, entry: State, pc: int, st: State, sp: int)
    requires Standing(p, o, pc, st, sp) && Plain(p.instrs[pc].op)
    ensures var d := Execute(p, p.instrs[pc].op, st.regs, st.mem, sp);
            Transfer(p, o, entry, pc, st) ==
            if d.None? || d.value.regs[2].Top? then Rejected
            else Flows(0x1_0000_0000_0000 - sp,
                       [Succ(pc + p.instrs[pc].size, State(d.value.regs, d.value.mem, st.phase))], [], {}, false)
  {
    StandingDepth(p, o, pc, st, sp);
    hide Execute, DepthRefused;
  }

  ghost function SubMasks(mask: nat): set<int> {
    set n | 0 <= n <= mask && And(n, mask) == n
  }

  /** Instructions on registers alone. */
  lemma PlainMeans(p: Program, o: Options, entry: State, pc: int, st: State, sp: int)
    requires Standing(p, o, pc, st, sp)
    ensures var out := Transfer(p, o, entry, pc, st);
            var next, regs := pc + p.instrs[pc].size, st.regs;
            match p.instrs[pc].op
            case Li(rd, value) => Puts(out, sp, next, st, rd, Vals({value % 0x1_0000_0000}), false)
            case Mv(rd, rs) => Puts(out, sp, next, st, rd, regs[rs], false)
            case Nop => Puts(out, sp, next, st, 0, Top, false)
            case Addi(rd, rs, imm) => Puts(out, sp, next, st, rd, Arithmetic(regs[rs], Vals({imm}), Add), true)
            case Alu(op, rd, rs, rt) => Puts(out, sp, next, st, rd, Arithmetic(regs[rs], regs[rt], op), true)
            case AluImm(op, rd, rs, imm) => Puts(out, sp, next, st, rd, Arithmetic(regs[rs], Vals({imm}), op), true)
            case Andi(rd, rs, imm) =>
              if rd == 2 then out.Rejected?
              else if regs[rs].Top? && 0 <= imm <= 31
              then Puts(out, sp, next, st, rd, Vals(SubMasks(imm)), false)
              else Puts(out, sp, next, st, rd, Arithmetic(regs[rs], Vals({imm}), BitAnd), false)
            case Unmodelled(rd) => Puts(out, sp, next, st, rd, Top, false)
            case Trap => out == Flows(0x1_0000_0000_0000 - sp, [], [], {}, false)
            case _ => true
  {
    if Plain(p.instrs[pc].op) {
      PlainFlows(p, o, entry, pc, st, sp);
      hide Transfer;
    }
    hide Arithmetic, LoadValue, Extended, StoreValue, RefineBranch, RefineZero, JumpOutcome, Destinations;
    if p.instrs[pc].op.Andi? {
      var Andi(rd, rs, imm) := p.instrs[pc].op;
      var d := Execute(p, p.instrs[pc].op, st.regs, st.mem, sp);
      if rd != 2 && rd != 0 && st.regs[rs].Top? && 0 <= imm <= 31 {
        assert d.value.regs[rd].xs == SubMasks(imm);
      }
    }
  }

  /** A recorded or linked word or part of one. */
  ghost function FactAt(p: Program, mem: map<int, AVal>, x: int, size: nat): AVal {
    if size == 4 && x in mem then mem[x]
    else if Read(p.rom, x, size).Some? then Vals({Read(p.rom, x, size).value}) else Top
  }

  ghost function AllFacts(p: Program, mem: map<int, AVal>, xs: set<int>, size: nat): set<int> {
    set x, v | x in xs && FactAt(p, mem, x, size).Vals? && v in FactAt(p, mem, x, size).xs :: v
  }

  /** What a load finds; unknown for an unknown address or fact, or for more than 32 values of several addresses. */
  ghost function Found(p: Program, mem: map<int, AVal>, at: AVal, size: nat): AVal {
    if at.Top? || at.xs == {} || (exists x :: x in at.xs && FactAt(p, mem, x, size).Top?) then Top
    else if |at.xs| > 1 && |AllFacts(p, mem, at.xs, size)| > 32 then Top
    else Vals(AllFacts(p, mem, at.xs, size))
  }

  lemma LoadExact(p: Program, mem: map<int, AVal>, at: AVal, size: nat)
    ensures LoadValue(p, mem, at, size) == Found(p, mem, at, size)
  {
    hide Read;
    if at.Vals? && at.xs != {} {
      assert forall x :: Lookup(p, mem, x, size) == FactAt(p, mem, x, size);
      if forall x :: x in at.xs ==> !Lookup(p, mem, x, size).Top? {
        var all := set x, v | x in at.xs && v in Lookup(p, mem, x, size).xs :: v;
        assert all == AllFacts(p, mem, at.xs, size);
        assert |at.xs| > 0;
      }
    }
  }

  /** Loads and stores are refused below the allocated stack; a load puts what it finds, sign-extended if told. */
  lemma LoadRule(p: Program, o: Options, entry: State, pc: int, st: State, sp: int)
    requires Standing(p, o, pc, st, sp)
    requires p.instrs[pc].op.Lw? || (p.instrs[pc].op.LoadNarrow? && 1 <= p.instrs[pc].op.size <= 2)
    ensures var out, op := Transfer(p, o, entry, pc, st), p.instrs[pc].op;
            var at := Arithmetic(st.regs[op.rs], Vals({op.imm}), Add);
            var found := Found(p, st.mem, at, if op.Lw? then 4 else op.size);
            if Beneath(at, sp) then out.Rejected?
            else if op.Lw? || found.Top? then Puts(out, sp, pc + p.instrs[pc].size, st, op.rd, found, false)
            else Puts(out, sp, pc + p.instrs[pc].size, st, op.rd,
                      Vals(AllNarrowed(found.xs, op.size, op.signed)), false)
  {
    var op := p.instrs[pc].op;
    var at := Arithmetic(st.regs[op.rs], Vals({op.imm}), Add);
    LoadExact(p, st.mem, at, if op.Lw? then 4 else op.size);
    PlainFlows(p, o, entry, pc, st, sp);
    hide Transfer, Arithmetic, LoadValue, Found;
    if op.LoadNarrow? {
      var found := Found(p, st.mem, at, op.size);
      if found.Vals? {
        ExtendedExact(found.xs, op.size, op.signed);
      }
      hide Extended;
    }
  }

  ghost function AllNarrowed(xs: set<int>, size: nat, signed: bool): set<int> {
    set n | n in xs :: Narrowed(n, size, signed)
  }

  lemma ExtendedExact(xs: set<int>, size: nat, signed: bool)
    requires 1 <= size <= 2
    ensures Extended(Vals(xs), size, signed) == Vals(AllNarrowed(xs, size, signed))
  {
    assert forall n :: Extend(n, size, signed) == Narrowed(n, size, signed);
    assert Extended(Vals(xs), size, signed).xs == AllNarrowed(xs, size, signed);
  }

  /** Some address lies in the window but under the stack pointer. */
  ghost predicate Beneath(at: AVal, sp: int) {
    at.Vals? && exists x :: x in at.xs && 0x1_0000_0000_0000 - 0x10_0000 <= x < sp
  }

  /** A byte or half with its sign bit carried up. */
  ghost function Narrowed(n: int, size: nat, signed: bool): int {
    if !signed then n
    else if size == 1 then if n >= 128 then (n - 256) % 0x1_0000_0000 else n
    else if n >= 32768 then (n - 65536) % 0x1_0000_0000 else n
  }

  /** A store to one window address replaces the facts of words sharing a byte with it; other stores leave them all. */
  lemma StoreRule(p: Program, o: Options, entry: State, pc: int, st: State, sp: int)
    requires Standing(p, o, pc, st, sp) && p.instrs[pc].op.Sw?
    ensures var out := Transfer(p, o, entry, pc, st);
            var Sw(src, rs, imm) := p.instrs[pc].op;
            var at := Arithmetic(st.regs[rs], Vals({imm}), Add);
            if Beneath(at, sp) then out.Rejected?
            else
              && out.Flows? && |out.succs| == 1
              && out == Flows(0x1_0000_0000_0000 - sp, out.succs, [], {}, false)
              && out.succs[0].pc == pc + p.instrs[pc].size
              && out.succs[0].st.regs == st.regs && out.succs[0].st.phase == st.phase
              && Stored(st.mem, at, st.regs[src], out.succs[0].st.mem)
  {
    PlainFlows(p, o, entry, pc, st, sp);
    hide Transfer, Arithmetic;
  }

  ghost predicate Stored(mem: map<int, AVal>, at: AVal, v: AVal, after: map<int, AVal>) {
    if at.Top? || |at.xs| != 1 then after == mem
    else
      var x := Only(at.xs);
      if x < 0x1_0000_0000_0000 - 0x10_0000 || x > 0x1_0000_0000_0000 then after == mem
      else
        && (forall k :: k in after <==> k == x || (k in mem && (k + 4 <= x || x + 4 <= k)))
        && after[x] == v && forall k :: k in after && k != x ==> after[k] == mem[k]
  }

  // ---- branches ----

  /** The comparison of two integers reduced to 32 bits, signed for `blt` and `bge`. */
  ghost predicate Compares(cond: Cond, x: int, y: int) {
    var a, b := x % 0x1_0000_0000, y % 0x1_0000_0000;
    var sa := if a < 0x8000_0000 then a else a - 0x1_0000_0000;
    var sb := if b < 0x8000_0000 then b else b - 0x1_0000_0000;
    match cond
    case Beq => a == b
    case Bne => a != b
    case Blt => sa < sb
    case Bge => sa >= sb
    case Bltu => a < b
    case Bgeu => a >= b
  }

  /** The integers are all comparable: at least -2^32 and below 2^32. */
  ghost predicate Small(v: AVal) {
    v.Vals? && forall x :: x in v.xs ==> -0x1_0000_0000 <= x < 0x1_0000_0000
  }

  ghost function LeftKept(cond: Cond, taken: bool, a: AVal, b: AVal): set<int>
    requires a.Vals? && b.Vals?
  {
    set x | x in a.xs && exists y :: y in b.xs && Compares(cond, x, y) == taken
  }

  ghost function RightKept(cond: Cond, taken: bool, a: AVal, b: AVal): set<int>
    requires a.Vals? && b.Vals?
  {
    set y | y in b.xs && exists x :: x in a.xs && Compares(cond, x, y) == taken
  }

  lemma HoldsMeans(cond: Cond)
    ensures forall x, y :: Holds(cond, x, y) == Compares(cond, x, y)
  {
  }

  /** Of comparable operands a branch edge keeps the integers that can take it; without any there is no edge. */
  lemma EdgeMeans(cond: Cond, taken: bool, rs: Reg, rt: Reg, regs: Regs)
    requires Small(regs[rs]) && Small(regs[rt])
    ensures var a, b := regs[rs], regs[rt];
            var out := RefineBranch(cond, taken, rs, rt, regs);
            if forall x, y :: x in a.xs && y in b.xs ==> Compares(cond, x, y) != taken then out.None?
            else
              && out.Some? && out.value[rt] == Vals(RightKept(cond, taken, a, b))
              && (rs != rt ==> out.value[rs] == Vals(LeftKept(cond, taken, a, b)))
              && forall r :: 0 <= r < 32 && r != rs && r != rt ==> out.value[r] == regs[r]
  {
    var a, b := regs[rs], regs[rt];
    HoldsMeans(cond);
    hide Holds, Compares;
    var xs := set x | x in a.xs && exists y :: y in b.xs && Holds(cond, x, y) == taken;
    var ys := set y | y in b.xs && exists x :: x in a.xs && Holds(cond, x, y) == taken;
    assert xs == LeftKept(cond, taken, a, b) && ys == RightKept(cond, taken, a, b);
    if x, y :| x in a.xs && y in b.xs && Compares(cond, x, y) == taken {
      assert x in xs;
    } else {
      assert xs == {};
    }
  }

  /** Otherwise only an unsigned comparison with one number up to 31 bounds an unknown right operand. */
  lemma EdgeLimits(cond: Cond, taken: bool, rs: Reg, rt: Reg, regs: Regs)
    requires !(Small(regs[rs]) && Small(regs[rt]))
    ensures var a, b := regs[rs], regs[rt];
            var out := RefineBranch(cond, taken, rs, rt, regs);
            && out.Some?
            && (forall r :: 0 <= r < 32 && r != rt ==> out.value[r] == regs[r])
            && var limited := a.Vals? && |a.xs| == 1 && 0 <= Only(a.xs) <= 31 && b.Top?
                              && ((cond.Bltu? && !taken) || (cond.Bgeu? && taken));
               if limited then out.value[rt].Vals? && forall n :: n in out.value[rt].xs <==> 0 <= n <= Only(a.xs)
               else out.value[rt] == regs[rt]
  {
    hide Holds;
  }

  lemma ZeroEdgeMeans(zero: bool, rs: Reg, regs: Regs)
    ensures var v, out := regs[rs], RefineZero(zero, rs, regs);
            if v.Top? || (exists x :: x in v.xs && x < -0x1_0000_0000) then out == Some(regs)
            else if forall x :: x in v.xs ==> (x == 0) != zero then out.None?
            else
              && out.Some? && out.value[rs].Vals?
              && (forall x :: x in out.value[rs].xs <==> x in v.xs && (x == 0) == zero)
              && forall r :: 0 <= r < 32 && r != rs ==> out.value[r] == regs[r]
  {
    var v := regs[rs];
    if v.Vals? && forall x :: x in v.xs ==> x >= -WORD {
      var kept := set x | x in v.xs && (x == 0) == zero;
      if x :| x in v.xs && (x == 0) == zero {
        assert x in kept;
      } else {
        assert kept == {};
      }
    }
  }

  /** A branch has an edge behind it, unless it targets that, and one to its target; both with what they keep. */
  lemma BranchMeans(p: Program, o: Options, entry: State, pc: int, st: State, sp: int)
    requires Standing(p, o, pc, st, sp) && (p.instrs[pc].op.Branch? || p.instrs[pc].op.BranchZero?)
    ensures var op, next := p.instrs[pc].op, pc + p.instrs[pc].size;
            var keeps := (taken: bool) => if op.Branch? then RefineBranch(op.cond, taken, op.rs, op.rt, st.regs)
                                          else RefineZero(taken == op.onZero, op.rs, st.regs);
            var behind := if op.target == next || keeps(false).None? then []
                          else [Succ(next, State(keeps(false).value, st.mem, st.phase))];
            var at := if keeps(true).None? then [] else [Succ(op.target, State(keeps(true).value, st.mem, st.phase))];
            Transfer(p, o, entry, pc, st) == Flows(0x1_0000_0000_0000 - sp, behind + at, [], {}, false)
  {
    StandingDepth(p, o, pc, st, sp);
    hide RefineBranch, RefineZero, Execute, JumpOutcome;
  }

  // ---- jumps ----

  /** Where a jump may go. */
  ghost function GoesTo(op: Op, regs: Regs): AVal
    requires IsJump(op)
  {
    if op.Jal? then Vals({op.target})
    else if op.JumpReg? || (op.imm == 0 && regs[op.rs] == Vals({-0x1_0000_0000_0000})) then regs[op.rs]
    else Arithmetic(regs[op.rs], Vals({op.imm}), AddEven)
  }

  /** A return leaves the entry's stack pointer and saved registers as they were, and not between hook and end. */
  ghost predicate ReturnsWell(o: Options, entry: State, st: State) {
    && st.regs[2] == entry.regs[2]
    && (forall r :: r in {8, 9, 18, 19, 20, 21, 22, 23, 24, 25, 26, 27} ==> st.regs[r] == entry.regs[r])
    && (o.stages == [] || st.phase != 2)
  }

  /**
   A jump is refused for an unknown destination, a bad return or a blocked destination, in ascending order;
   otherwise it returns if it can, and brings what its other destinations gather.
   */
  lemma JumpMeans(p: Program, o: Options, entry: State, pc: int, st: State, sp: int)
    requires Standing(p, o, pc, st, sp) && IsJump(p.instrs[pc].op)
    ensures var out, to := Transfer(p, o, entry, pc, st), GoesTo(p.instrs[pc].op, st.regs);
            var s := Site(p.owner[pc], p.instrs[pc].op.rd, pc + p.instrs[pc].size);
            if to.Top? then out.Rejected?
            else
              var ts := SortedSeq(to.xs - {-0x1_0000_0000_0000});
              var returning := -0x1_0000_0000_0000 in to.xs;
              if (returning && !ReturnsWell(o, entry, st))
                 || SomeBlocked(p, o, s, st.regs, st.phase, ts)
              then out.Rejected?
              else
                && out.Flows? && out.depth == 0x1_0000_0000_0000 - sp && out.returning == returning
                && Gives(p, o, s, st, ts, out)
  {
    JumpWalks(p, o, entry, pc, st, sp);
    ReturnMeans(o, entry, st);
    WalkOutcome(p, o, entry, st, 0x1_0000_0000_0000 - sp,
                Site(p.owner[pc], p.instrs[pc].op.rd, pc + p.instrs[pc].size), GoesTo(p.instrs[pc].op, st.regs));
    hide Transfer, JumpOutcome, GoesTo, ReturnsWell, ReturnRefused, SomeBlocked, Gives;
  }

  lemma ReturnMeans(o: Options, entry: State, st: State)
    ensures ReturnRefused(o, entry, st) <==> !ReturnsWell(o, entry, st)
  {
    assert forall r :: Saved(r) <==> r in {8, 9, 18, 19, 20, 21, 22, 23, 24, 25, 26, 27};
    if ReturnsWell(o, entry, st) {
      forall r | 0 <= r < 32 && Saved(r) ensures st.regs[r] == entry.regs[r] {
      }
    }
  }

  lemma JumpWalks(p: Program, o: Options, entry: State, pc: int, st: State, sp: int)
    requires Standing(p, o, pc, st, sp) && IsJump(p.instrs[pc].op)
    ensures Transfer(p, o, entry, pc, st) ==
            JumpOutcome(p, o, entry, st, 0x1_0000_0000_0000 - sp,
                        Site(p.owner[pc], p.instrs[pc].op.rd, pc + p.instrs[pc].size),
                        GoesTo(p.instrs[pc].op, st.regs))
  {
    StandingDepth(p, o, pc, st, sp);
    DestinationsMean(p.instrs[pc].op, st.regs);
    hide RefineBranch, RefineZero, Execute, Arithmetic, Destinations, GoesTo, DepthRefused, JumpOutcome;
  }

  lemma DestinationsMean(op: Op, regs: Regs)
    requires IsJump(op)
    ensures Destinations(op, regs) == GoesTo(op, regs)
  {
    hide Arithmetic;
  }

  lemma WalkOutcome(p: Program, o: Options, entry: State, st: State, depth: nat, s: Site, to: AVal)
    ensures var out := JumpOutcome(p, o, entry, st, depth, s, to);
            if to.Top? then out.Rejected?
            else
              var ts := SortedSeq(to.xs - {RETURN});
              var returning := RETURN in to.xs;
              if (returning && ReturnRefused(o, entry, st))
                 || SomeBlocked(p, o, s, st.regs, st.phase, ts)
              then out.Rejected?
              else out.Flows? && out.depth == depth && out.returning == returning && Gives(p, o, s, st, ts, out)
  {
    if to.Vals? {
      var ts := SortedSeq(to.xs - {RETURN});
      WholeWalk(p, o, s, st.regs, st.phase, ts);
      hide JumpAll, SomeBlocked, ReturnRefused, Gives, Gathered;
      var j := JumpAll(p, o, s, Jump(st.regs, {}, st.phase, [], {}), ts);
      var out := JumpOutcome(p, o, entry, st, depth, s, to);
      if out.Flows? {
        GivesAll(p, o, s, st, ts, j, depth, RETURN in to.xs, out.succs);
      }
    }
  }

  ghost function Addresses(succs: seq<Succ>): set<int> {
    set i | 0 <= i < |succs| :: succs[i].pc
  }

  /** One successor for each address continued at, with the registers and the phase behind all destinations. */
  ghost predicate Gives(p: Program, o: Options, s: Site, st: State, ts: seq<int>, out: Outcome)
    requires out.Flows?
  {
    && Targets(p, o, s, ts, |ts|, Addresses(out.succs))
    && (forall i :: 0 <= i < |out.succs| ==> Behind(p, o, s, st, ts, out.succs[i].st))
    && Callees(p, o, s, st.regs, ts, |ts|, out.calls)
    && Edges(p, s, ts, |ts|, out.edges)
  }

  ghost predicate Behind(p: Program, o: Options, s: Site, st: State, ts: seq<int>, next: State) {
    && next.mem == st.mem && next.phase == st.phase + StagesAmong(o, ts, |ts|)
    && Registers(p, o, s, st.regs, ts, |ts|, next.regs)
  }

  lemma GivesAll(p: Program, o: Options, s: Site, st: State, ts: seq<int>, j: Jump, depth: nat, returning: bool,
      succs: seq<Succ>)
    requires Gathered(p, o, s, st.regs, st.phase, ts, |ts|, j)
    requires |succs| == |SortedSeq(j.targets)|
    requires forall i :: 0 <= i < |succs| ==> succs[i] == Succ(SortedSeq(j.targets)[i], State(j.regs, st.mem, j.phase))
    ensures Gives(p, o, s, st, ts, Flows(depth, succs, j.calls, j.edges, returning))
  {
    hide Targets, Callees, Edges, Registers, StagesAmong;
    var q := SortedSeq(j.targets);
    forall x ensures x in Addresses(succs) <==> x in j.targets {
      if x in j.targets {
        assert x in q;
        var i :| 0 <= i < |q| && q[i] == x;
        assert succs[i].pc == x;
      }
    }
    assert Addresses(succs) == j.targets;
  }
}
