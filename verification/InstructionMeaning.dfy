/**
 What each machine instruction does, said in plain arithmetic on 32-bit words and their bits. The machine and the
 engine compute with the same operators; here the operators are tied to the instruction set they stand for.
 */
module InstructionMeaning {
  import opened Words
  import opened AbstractValues
  import opened Machine

  /** Bit `i` of an unbounded two's-complement integer. */
  function Bit(n: int, i: nat): int
    decreases i
  {
    if i == 0 then n % 2 else Bit(n / 2, i - 1)
  }

  /** The instruction at the machine's program counter, which is not a cut point. */
  ghost predicate At(p: Program, cut: Cut, c: Config) {
    Valid(c) && c.pc in p.instrs && c.pc !in cut.pcs
  }

  /** The next configuration: `w` in register `rd` unless that is x0, and nothing else but the program counter. */
  ghost predicate Sets(p: Program, c: Config, d: Config, rd: Reg, w: int)
    requires Valid(c) && c.pc in p.instrs
  {
    && d.pc == c.pc + p.instrs[c.pc].size && d.mem == c.mem && |d.regs| == 32
    && forall r :: 0 <= r < 32 ==> d.regs[r] == if r == rd && r != 0 then w else c.regs[r]
  }

  lemma WriteSets(p: Program, c: Config, d: Config, rd: Reg, w: int)
    requires Valid(c) && c.pc in p.instrs
    ensures Sets(p, c, d, rd, w) <==> d == Config(c.pc + p.instrs[c.pc].size, Write(c.regs, rd, w), c.mem)
  {
    if Sets(p, c, d, rd, w) {
      assert d.regs == Write(c.regs, rd, w);
    }
  }

  // ---- branches ----

  /** A branch is taken exactly when its words compare as the condition says: equal, signed, or unsigned. */
  lemma BranchMeaning(p: Program, cut: Cut, c: Config, d: Config)
    requires At(p, cut, c) && p.instrs[c.pc].op.Branch?
    ensures var Branch(cond, rs, rt, target) := p.instrs[c.pc].op;
            var a, b := c.regs[rs], c.regs[rt];
            var sa := if a < 0x8000_0000 then a else a - 0x1_0000_0000;
            var sb := if b < 0x8000_0000 then b else b - 0x1_0000_0000;
            var goes := match cond
                        case Beq => a == b
                        case Bne => a != b
                        case Blt => sa < sb
                        case Bge => sa >= sb
                        case Bltu => a < b
                        case Bgeu => a >= b;
            Step(p, cut, c, d) <==>
            && d.pc == (if goes then target else c.pc + p.instrs[c.pc].size)
            && d.regs == c.regs && d.mem == c.mem
  {
  }

  lemma BranchZeroMeaning(p: Program, cut: Cut, c: Config, d: Config)
    requires At(p, cut, c) && p.instrs[c.pc].op.BranchZero?
    ensures var BranchZero(onZero, rs, target) := p.instrs[c.pc].op;
            var goes := if onZero then c.regs[rs] == 0 else c.regs[rs] != 0;
            Step(p, cut, c, d) <==>
            && d.pc == (if goes then target else c.pc + p.instrs[c.pc].size)
            && d.regs == c.regs && d.mem == c.mem
  {
  }

  // ---- arithmetic ----

  lemma {:induction false} AndBit(x: int, y: int, i: nat)
    ensures Bit(And(x, y), i) == Bit(x, i) * Bit(y, i)
    decreases i
  {
    BitOfExtremes(i);
    if x != 0 && x != -1 {
      var low, high := (x % 2) * (y % 2), And(x / 2, y / 2);
      assert low == 0 || low == 1;
      assert And(x, y) % 2 == low && And(x, y) / 2 == high;
      if i > 0 {
        AndBit(x / 2, y / 2, i - 1);
      }
    }
  }

  lemma {:induction false} BitOfExtremes(i: nat)
    ensures Bit(0, i) == 0 && Bit(-1, i) == 1
    ensures forall n :: Bit(n, i) == 0 || Bit(n, i) == 1
    decreases i
  {
    if i > 0 {
      BitOfExtremes(i - 1);
    }
  }

  /** The bits of a number above its lowest are those of its half. */
  lemma Halved(n: int, low: int, high: int, i: nat)
    requires n == low + 2 * high && (low == 0 || low == 1)
    ensures Bit(n, i) == if i == 0 then low else Bit(high, i - 1)
  {
  }

  lemma {:induction false} OrBit(x: int, y: int, i: nat)
    ensures Bit(x + y - And(x, y), i) == if Bit(x, i) == 1 || Bit(y, i) == 1 then 1 else 0
    ensures Bit(x + y - 2 * And(x, y), i) == if Bit(x, i) != Bit(y, i) then 1 else 0
    decreases i
  {
    BitOfExtremes(i);
    if x == 0 {
    } else if x == -1 {
      BitOfComplement(y, i);
    } else {
      var b, c, h, k := x % 2, y % 2, x / 2, y / 2;
      var a := And(h, k);
      assert And(x, y) == (if b == 1 then c else 0) + 2 * a;
      hide And, Bit;
      Halved(x, b, h, i);
      Halved(y, c, k, i);
      Halved(x + y - And(x, y), if b == 1 || c == 1 then 1 else 0, h + k - a, i);
      Halved(x + y - 2 * And(x, y), if b != c then 1 else 0, h + k - 2 * a, i);
      if i > 0 {
        OrBit(h, k, i - 1);
      }
    }
  }

  lemma {:induction false} BitOfComplement(y: int, i: nat)
    ensures Bit(-1 - y, i) == 1 - Bit(y, i)
    decreases i
  {
    if i > 0 {
      assert (-1 - y) / 2 == -1 - y / 2;
      BitOfComplement(y / 2, i - 1);
    }
  }

  /** Only the low 32 bits of an integer are bits of its word. */
  lemma {:induction false} WordBit(n: int, i: nat, k: nat)
    requires i < k
    ensures Bit(n % Pow2(k), i) == Bit(n, i)
    decreases i
  {
    HalfMod(n, Pow2(k - 1));
    if i > 0 {
      WordBit(n / 2, i - 1, k - 1);
    }
  }

  /** `w` is the result of a two-operand instruction on a word and a word or signed immediate. */
  ghost predicate Computes(op: AluOp, a: int, b: int, w: int) {
    var y := b % 0x1_0000_0000;
    && 0 <= w < 0x1_0000_0000
    && match op
       case Add => w == (a + y) % 0x1_0000_0000
       case Sub => w == (a - y) % 0x1_0000_0000
       case BitAnd => forall i :: 0 <= i < 32 ==> Bit(w, i) == if Bit(a, i) == 1 && Bit(y, i) == 1 then 1 else 0
       case BitOr => forall i :: 0 <= i < 32 ==> Bit(w, i) == if Bit(a, i) == 1 || Bit(y, i) == 1 then 1 else 0
       case BitXor => forall i :: 0 <= i < 32 ==> Bit(w, i) == if Bit(a, i) != Bit(y, i) then 1 else 0
       case Sll => 0 <= b ==> w == a * Pow2(b) % 0x1_0000_0000
       case Srl => 0 <= b ==> w == a / Pow2(b)
       case Slt =>
         var sa := if a < 0x8000_0000 then a else a - 0x1_0000_0000;
         var sy := if y < 0x8000_0000 then y else y - 0x1_0000_0000;
         w == if sa < sy then 1 else 0
       case Sltu => w == if a < y then 1 else 0
       case AddEven => w == (a + y) % 0x1_0000_0000 - (a + y) % 0x1_0000_0000 % 2
  }

  lemma SumMeaning(op: AluOp, a: int, b: int)
    requires 0 <= a < WORD && (op.Add? || op.Sub? || op.AddEven?)
    ensures Computes(op, a, b, Word(Eval(op, a, b)))
  {
    hide And, Bit, Pow2;
    if op.Sub? {
      SubModulo(a, b);
    } else {
      AddModulo(b, a);
      EvenModulo(a + b);
      EvenOfWord(a + b);
    }
  }

  lemma ShiftMeaning(op: AluOp, a: int, b: int)
    requires 0 <= a < WORD && (op.Sll? || op.Srl?)
    ensures Computes(op, a, b, Word(Eval(op, a, b)))
  {
    hide And, Bit, Pow2;
    if op.Srl? && 0 <= b {
      DivideShrinks(a, Pow2(b));
      hide Eval;
      var q := a / Pow2(b);
      assert Word(q) == q && Word(a) == a;
    }
  }

  lemma OrderMeaning(op: AluOp, a: int, b: int)
    requires 0 <= a < WORD && (op.Slt? || op.Sltu?)
    ensures Computes(op, a, b, Word(Eval(op, a, b)))
  {
    hide And, Bit, Pow2;
  }

  lemma ResultMeaning(op: AluOp, a: int, b: int)
    requires 0 <= a < WORD
    ensures Computes(op, a, b, Word(Eval(op, a, b)))
  {
    hide And, Bit, Pow2, Eval, Computes;
    match op
    case Add => SumMeaning(op, a, b);
    case Sub => SumMeaning(op, a, b);
    case AddEven => SumMeaning(op, a, b);
    case Sll => ShiftMeaning(op, a, b);
    case Srl => ShiftMeaning(op, a, b);
    case Slt => OrderMeaning(op, a, b);
    case Sltu => OrderMeaning(op, a, b);
    case _ => BitsMeaning(op, a, b);
  }

  lemma BitsMeaning(op: AluOp, a: int, b: int)
    requires op.BitAnd? || op.BitOr? || op.BitXor?
    ensures Computes(op, a, b, Word(Eval(op, a, b)))
  {
    BitsOf(op, a, b);
    hide And, Bit, Eval, Pow2;
  }

  lemma SubModulo(a: int, b: int)
    ensures Word(a - b) == Word(a - Word(b))
  {
    var q := b / WORD;
    assert b == WORD * q + Word(b);
    var r := (a - b) / WORD;
    DivModUnique(a - Word(b), WORD, r + q, Word(a - b));
  }

  lemma EvenOfWord(n: int)
    ensures Word(n) % 2 == n % 2
  {
    var q := n / WORD;
    assert n == 2 * (0x8000_0000 * q + Word(n) / 2) + Word(n) % 2;
    DivModUnique(n, 2, 0x8000_0000 * q + Word(n) / 2, Word(n) % 2);
  }

  lemma {:induction false} DivideShrinks(a: nat, p: nat)
    requires p > 0
    ensures 0 <= a / p <= a
  {
    if a < p {
      DivModUnique(a, p, 0, a);
    } else {
      DivideShrinks(a - p, p);
      DivModUnique(a, p, (a - p) / p + 1, (a - p) % p);
    }
  }

  lemma BitsOf(op: AluOp, a: int, b: int)
    requires op.BitAnd? || op.BitOr? || op.BitXor?
    ensures var w, y := Word(Eval(op, a, b)), b % 0x1_0000_0000;
            forall i :: 0 <= i < 32 ==>
              Bit(w, i) == if match op
                              case BitAnd => Bit(a, i) == 1 && Bit(y, i) == 1
                              case BitOr => Bit(a, i) == 1 || Bit(y, i) == 1
                              case _ => Bit(a, i) != Bit(y, i)
                           then 1 else 0
  {
    Pow2Of32();
    var w, y := Word(Eval(op, a, b)), b % 0x1_0000_0000;
    forall i | 0 <= i < 32
      ensures Bit(w, i) == Bit(Eval(op, a, b), i) && Bit(y, i) == Bit(b, i)
      ensures Bit(And(a, b), i) == Bit(a, i) * Bit(b, i) && (Bit(a, i) == 0 || Bit(a, i) == 1)
      ensures Bit(a + b - And(a, b), i) == if Bit(a, i) == 1 || Bit(b, i) == 1 then 1 else 0
      ensures Bit(a + b - 2 * And(a, b), i) == if Bit(a, i) != Bit(b, i) then 1 else 0
      ensures Bit(b, i) == 0 || Bit(b, i) == 1
    {
      WordBit(Eval(op, a, b), i, 32);
      WordBit(b, i, 32);
      AndBit(a, b, i);
      OrBit(a, b, i);
      BitOfExtremes(i);
    }
  }

  /** Arithmetic instructions put the computed word into their register. */
  lemma AluMeaning(p: Program, cut: Cut, c: Config, d: Config)
    requires At(p, cut, c) && Step(p, cut, c, d) && Encodable(p.instrs[c.pc].op, c.pc + p.instrs[c.pc].size)
    ensures match p.instrs[c.pc].op
            case Li(rd, value) => Sets(p, c, d, rd, value % 0x1_0000_0000)
            case Mv(rd, rs) => Sets(p, c, d, rd, c.regs[rs])
            case Nop => Sets(p, c, d, 0, 0)
            case Addi(rd, rs, imm) => Sets(p, c, d, rd, (c.regs[rs] + imm) % 0x1_0000_0000)
            case Alu(op, rd, rs, rt) => exists w :: Computes(op, c.regs[rs], c.regs[rt], w) && Sets(p, c, d, rd, w)
            case AluImm(op, rd, rs, imm) => exists w :: Computes(op, c.regs[rs], imm, w) && Sets(p, c, d, rd, w)
            case Andi(rd, rs, imm) => exists w :: Computes(BitAnd, c.regs[rs], imm, w) && Sets(p, c, d, rd, w)
            case Unmodelled(rd) => exists w :: 0 <= w < 0x1_0000_0000 && Sets(p, c, d, rd, w)
            case _ => true
  {
    hide Computes, Eval, And, Sets;
    match p.instrs[c.pc].op
    case Li(rd, value) => WriteSets(p, c, d, rd, Word(value));
    case Mv(rd, rs) => WriteSets(p, c, d, rd, c.regs[rs]);
    case Nop => WriteSets(p, c, d, 0, 0);
    case Addi(rd, rs, imm) => WriteSets(p, c, d, rd, Word(c.regs[rs] + imm));
    case Alu(op, rd, rs, rt) =>
      ResultMeaning(op, c.regs[rs], c.regs[rt]);
      WriteSets(p, c, d, rd, Word(Eval(op, c.regs[rs], c.regs[rt])));
    case AluImm(op, rd, rs, imm) =>
      ResultMeaning(op, c.regs[rs], imm);
      WriteSets(p, c, d, rd, Word(Eval(op, c.regs[rs], imm)));
    case Andi(rd, rs, imm) =>
      AndiResult(c.regs[rs], imm);
      WriteSets(p, c, d, rd, And(c.regs[rs], Word(imm)));
    case Unmodelled(rd) =>
      var w :| 0 <= w < WORD && d == Config(c.pc + p.instrs[c.pc].size, Write(c.regs, rd, w), c.mem);
      WriteSets(p, c, d, rd, w);
    case _ =>
  }

  lemma AndiResult(w: int, imm: int)
    requires 0 <= w < WORD
    ensures Computes(BitAnd, w, imm, And(w, Word(imm)))
  {
    ResultMeaning(BitAnd, w, imm);
    AndWordMask(w, imm);
    hide And, Computes;
  }

  // ---- memory ----

  /** Loads read little-endian bytes at wrapping addresses; narrow ones are extended as told. */
  lemma LoadMeaning(p: Program, cut: Cut, c: Config, d: Config)
    requires At(p, cut, c) && Step(p, cut, c, d) && Encodable(p.instrs[c.pc].op, c.pc + p.instrs[c.pc].size)
    requires p.instrs[c.pc].op.Lw? || p.instrs[c.pc].op.LoadNarrow?
    ensures var op := p.instrs[c.pc].op;
            var byte := i => ByteAt(c.mem, (c.regs[op.rs] + op.imm + i) % 0x1_0000_0000) as int;
            var half := byte(0) + 256 * byte(1);
            Sets(p, c, d, op.rd,
                 if op.Lw? then half + 65536 * (byte(2) + 256 * byte(3))
                 else if op.size == 1 then if op.signed && byte(0) >= 128 then byte(0) + 0xFFFF_FF00 else byte(0)
                 else if op.signed && half >= 32768 then half + 0xFFFF_0000 else half)
  {
    var op := p.instrs[c.pc].op;
    var a := c.regs[op.rs] + op.imm;
    LaneOf(a, 0); LaneOf(a, 1); LaneOf(a, 2); LaneOf(a, 3);
    hide Sets, Lane;
    var w := if op.Lw? then LoadWord(c.mem, Word(a))
             else Extend(LoadBytes(c.mem, Word(a), op.size), op.size, op.signed);
    WriteSets(p, c, d, op.rd, w);
  }

  lemma LaneOf(a: int, i: int)
    ensures Lane(Word(a), i) == (a + i) % 0x1_0000_0000
  {
    AddModulo(a, i);
  }

  /** A store changes four bytes, little-endian at wrapping addresses, and nothing else. */
  lemma StoreMeaning(p: Program, cut: Cut, c: Config, d: Config)
    requires At(p, cut, c) && Step(p, cut, c, d) && p.instrs[c.pc].op.Sw?
    ensures var Sw(src, rs, imm) := p.instrs[c.pc].op;
            var w, a := c.regs[src], c.regs[rs] + imm;
            var b0, b1 := a % 0x1_0000_0000, (a + 1) % 0x1_0000_0000;
            var b2, b3 := (a + 2) % 0x1_0000_0000, (a + 3) % 0x1_0000_0000;
            && d.pc == c.pc + p.instrs[c.pc].size && d.regs == c.regs
            && ByteAt(d.mem, b0) == w % 256 && ByteAt(d.mem, b1) == w / 256 % 256
            && ByteAt(d.mem, b2) == w / 65536 % 256 && ByteAt(d.mem, b3) == w / 16777216
            && forall x :: x != b0 && x != b1 && x != b2 && x != b3 ==> ByteAt(d.mem, x) == ByteAt(c.mem, x)
  {
    var Sw(src, rs, imm) := p.instrs[c.pc].op;
    var a := c.regs[rs] + imm;
    LaneOf(a, 0); LaneOf(a, 1); LaneOf(a, 2); LaneOf(a, 3);
    LanesDistinct(Word(a), 0, 1); LanesDistinct(Word(a), 0, 2); LanesDistinct(Word(a), 0, 3);
    LanesDistinct(Word(a), 1, 2); LanesDistinct(Word(a), 1, 3); LanesDistinct(Word(a), 2, 3);
    hide Lane;
  }

  // ---- jumps ----

  /** A jump goes to its target or to the computed address with the low bit cleared, and links unless it is to x0. */
  lemma JumpMeaning(p: Program, cut: Cut, c: Config, d: Config)
    requires At(p, cut, c)
    requires p.instrs[c.pc].op.Jal? || p.instrs[c.pc].op.Jalr? || p.instrs[c.pc].op.JumpReg?
    ensures var op := p.instrs[c.pc].op;
            var x := match op
                     case Jal(_, target) => target
                     case Jalr(_, rs, imm) => (c.regs[rs] + imm) % 0x1_0000_0000
                     case _ => c.regs[op.rs];
            var target := if op.Jal? then x else x - x % 2;
            Step(p, cut, c, d) <==>
            && !(target in cut.calls) && !(target in p.owner && p.owner[target] in p.exceptional)
            && d.pc == target && d.mem == c.mem && |d.regs| == 32
            && forall r :: 0 <= r < 32 ==>
                 d.regs[r] == if r == op.rd && r != 0 then c.pc + p.instrs[c.pc].size else c.regs[r]
  {
    var op := p.instrs[c.pc].op;
    if |d.regs| == 32 && forall r :: 0 <= r < 32 ==>
         d.regs[r] == if r == op.rd && r != 0 then c.pc + p.instrs[c.pc].size else c.regs[r] {
      assert d.regs == Write(c.regs, op.rd, c.pc + p.instrs[c.pc].size);
    }
  }
}
