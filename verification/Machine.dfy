/**
 The linked program as the interval engine reads it, and the 32-bit machine that executes it.
 Decoding, ELF extents and symbol names are inputs: `owner` gives the start of the function that covers an
 address, `once` and `exceptional` the starts of the functions the engine recognises by name.
 */
module Machine {
  import opened Basics
  import opened Words
  import opened AbstractValues

  datatype Cond = Beq | Bne | Blt | Bge | Bltu | Bgeu

  datatype Op =
    | Li(rd: Reg, value: int)
    | Mv(rd: Reg, rs: Reg)
    | Addi(rd: Reg, rs: Reg, imm: int)
    | Alu(op: AluOp, rd: Reg, rs: Reg, rt: Reg)
    | AluImm(op: AluOp, rd: Reg, rs: Reg, imm: int)
    | Andi(rd: Reg, rs: Reg, imm: int)
    | Unmodelled(rd: Reg)
    | Nop
    | Lw(rd: Reg, rs: Reg, imm: int)
    | LoadNarrow(size: nat, signed: bool, rd: Reg, rs: Reg, imm: int)
    | Sw(src: Reg, rs: Reg, imm: int)
    | Branch(cond: Cond, rs: Reg, rt: Reg, target: int)
    | BranchZero(onZero: bool, rs: Reg, target: int)
    | Jal(rd: Reg, target: int)
    | Jalr(rd: Reg, rs: Reg, imm: int)
    | JumpReg(rd: Reg, rs: Reg)
    | Trap

  datatype Ins = Ins(op: Op, size: nat)

  /** A linked read-only section with its bytes. */
  datatype Section = Section(start: int, bytes: Bytes)

  predicate Contains(s: Section, a: int, size: nat) {
    s.start <= a && a + size <= s.start + |s.bytes|
  }

  /** The bytes at `a` in every section that contains all of them. */
  function Matches(rom: seq<Section>, a: int, size: nat): seq<Bytes> {
    if rom == [] then []
    else
      (if Contains(rom[0], a, size) then [rom[0].bytes[a - rom[0].start..a - rom[0].start + size]] else []) +
      Matches(rom[1..], a, size)
  }

  /** What is linked at `a`, when exactly one section contains it. */
  function Read(rom: seq<Section>, a: int, size: nat): Option<int> {
    var q := Matches(rom, a, size);
    if |q| == 1 then Some(ValueOf(q[0])) else None
  }

  lemma {:induction false} MatchesInside(rom: seq<Section>, a: int, size: nat)
    ensures forall q :: q in Matches(rom, a, size) ==>
              exists s :: s in rom && Contains(s, a, size) && q == s.bytes[a - s.start..a - s.start + size]
  {
    if rom != [] {
      MatchesInside(rom[1..], a, size);
      assert rom[0] in rom && forall s :: s in rom[1..] ==> s in rom;
    }
  }

  datatype Program = Program(
    instrs: map<int, Ins>,
    owner: map<int, int>,
    once: set<int>,
    exceptional: set<int>,
    rom: seq<Section>)

  predicate WritesPlatformRegister(op: Op) {
    match op
    case Nop => false
    case Sw(_, _, _) => false
    case Branch(_, _, _, _) => false
    case BranchZero(_, _, _) => false
    case Trap => false
    case _ => op.rd == 3 || op.rd == 4
  }

  predicate Encodable(op: Op, next: int) {
    match op
    case Addi(_, _, imm) => -WORD < imm < WORD
    case Andi(_, _, imm) => -WORD < imm < WORD
    case Alu(op, _, _, _) => op in {Add, Sub, BitAnd, BitOr, BitXor, Slt, Sltu}
    case AluImm(op, _, _, imm) =>
      if op == Sll || op == Srl then 0 <= imm < 32 else op in {BitOr, BitXor, Slt, Sltu} && -WORD < imm < WORD
    case Lw(_, _, imm) => -WORD < imm < WORD
    case LoadNarrow(size, _, _, _, imm) => (size == 1 || size == 2) && -WORD < imm < WORD
    case Sw(_, _, imm) => -WORD < imm < WORD
    case Jalr(_, _, imm) => -WORD < imm < WORD
    case Branch(_, _, _, target) => target != next
    case BranchZero(_, _, target) => target != next
    case Jal(_, target) => 0 <= target < WORD
    case _ => true
  }

  /**
   What the engine relies on about its input: 32-bit even code addresses, encodable operands, branches that
   do not target their own fall-through, and code that leaves gp and tp alone, as the RISC-V psABI demands.
   */
  ghost predicate WellFormed(p: Program) {
    && (forall pc :: pc in p.instrs ==>
          var ins := p.instrs[pc];
          && 0 <= pc && pc % 2 == 0 && (ins.size == 2 || ins.size == 4) && pc + ins.size < WORD
          && Encodable(ins.op, pc + ins.size) && !WritesPlatformRegister(ins.op))
    && (forall a :: a in p.owner ==> 0 <= a < WORD && a % 2 == 0)
    && (forall s :: s in p.rom ==> 0 <= s.start && s.start + |s.bytes| <= WORD)
  }

  // ---- the machine ----

  datatype Config = Config(pc: int, regs: seq<int>, mem: Memory)

  ghost predicate Valid(c: Config) {
    Frame(c.regs) && c.regs[0] == 0
  }

  function Write(regs: seq<int>, rd: Reg, w: int): seq<int>
    requires |regs| == 32
  {
    if rd == 0 then regs else regs[rd := w]
  }

  predicate Holds(cond: Cond, a: int, b: int) {
    match cond
    case Beq => Word(a) == Word(b)
    case Bne => Word(a) != Word(b)
    case Blt => Signed(a) < Signed(b)
    case Bge => Signed(a) >= Signed(b)
    case Bltu => Word(a) < Word(b)
    case Bgeu => Word(a) >= Word(b)
  }

  /** Where the analysed interval ends: execution past these points is outside the claim. */
  datatype Cut = Cut(pcs: set<int>, calls: set<int>)

  predicate IsJump(op: Op) {
    op.Jal? || op.Jalr? || op.JumpReg?
  }

  function JumpTarget(op: Op, regs: seq<int>): int
    requires IsJump(op) && |regs| == 32
  {
    match op
    case Jal(_, target) => target
    case Jalr(_, rs, imm) => var w := Word(regs[rs] + imm); w - w % 2
    case JumpReg(_, rs) => regs[rs] - regs[rs] % 2
  }

  predicate Leaves(p: Program, cut: Cut, target: int) {
    target in cut.calls || (target in p.owner && p.owner[target] in p.exceptional)
  }

  /** One instruction. A trap, a cut point and an exceptional function have no successor. */
  ghost predicate Step(p: Program, cut: Cut, c: Config, d: Config)
    requires |c.regs| == 32
  {
    c.pc in p.instrs && c.pc !in cut.pcs &&
    var ins := p.instrs[c.pc];
    var next := c.pc + ins.size;
    match ins.op
    case Li(rd, value) => d == Config(next, Write(c.regs, rd, Word(value)), c.mem)
    case Mv(rd, rs) => d == Config(next, Write(c.regs, rd, c.regs[rs]), c.mem)
    case Addi(rd, rs, imm) => d == Config(next, Write(c.regs, rd, Word(c.regs[rs] + imm)), c.mem)
    case Alu(op, rd, rs, rt) => d == Config(next, Write(c.regs, rd, Word(Eval(op, c.regs[rs], c.regs[rt]))), c.mem)
    case AluImm(op, rd, rs, imm) => d == Config(next, Write(c.regs, rd, Word(Eval(op, c.regs[rs], imm))), c.mem)
    case Andi(rd, rs, imm) => d == Config(next, Write(c.regs, rd, And(c.regs[rs], Word(imm))), c.mem)
    case Unmodelled(rd) => exists w :: 0 <= w < WORD && d == Config(next, Write(c.regs, rd, w), c.mem)
    case Nop => d == Config(next, c.regs, c.mem)
    case Lw(rd, rs, imm) => d == Config(next, Write(c.regs, rd, LoadWord(c.mem, Word(c.regs[rs] + imm))), c.mem)
    case LoadNarrow(size, signed, rd, rs, imm) =>
      var v := LoadBytes(c.mem, Word(c.regs[rs] + imm), size);
      d == Config(next, Write(c.regs, rd, Extend(v, size, signed)), c.mem)
    case Sw(src, rs, imm) =>
      Frame(c.regs) && d == Config(next, c.regs, StoreWord(c.mem, Word(c.regs[rs] + imm), c.regs[src]))
    case Branch(cond, rs, rt, target) =>
      d == Config(if Holds(cond, c.regs[rs], c.regs[rt]) then target else next, c.regs, c.mem)
    case BranchZero(onZero, rs, target) =>
      d == Config(if (c.regs[rs] == 0) == onZero then target else next, c.regs, c.mem)
    case Trap => false
    case _ =>
      var target := JumpTarget(ins.op, c.regs);
      !Leaves(p, cut, target) && d == Config(target, Write(c.regs, ins.op.rd, next), c.mem)
  }

  ghost predicate Run(p: Program, cut: Cut, run: seq<Config>) {
    && |run| > 0
    && (forall i :: 0 <= i < |run| ==> Valid(run[i]))
    && (forall i :: 0 <= i < |run| - 1 ==> Step(p, cut, run[i], run[i + 1]))
  }

  /** The machine keeps its register file well formed, so only a run's first configuration is constrained. */
  lemma StepKeepsValid(p: Program, cut: Cut, c: Config, d: Config)
    requires WellFormed(p) && Valid(c) && Step(p, cut, c, d)
    ensures Valid(d)
  {
    var ins := p.instrs[c.pc];
    if ins.op.Andi? {
      AndBounded(c.regs[ins.op.rs], Word(ins.op.imm));
    }
  }
}
