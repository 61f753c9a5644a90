/**
 The interval engine's value domain: at most 32 integers, or `Top`.

 An integer stands for a 32-bit word relative to the register file `f` an activation was entered with:
 a word stands for itself, `STACK + d` for the entry stack pointer plus `d`, `RETURN` for the entry link
 register and `RETURN - r` for the entry value of callee-saved register `r`. Every other integer stands for
 no word at all, so a set never claims more than the engine's own arithmetic justifies.
 */
module AbstractValues {
  import opened Words

  const STACK: int := 0x1_0000_0000_0000
  const RETURN: int := -0x1_0000_0000_0000
  const SET_LIMIT: nat := 32

  type Reg = r: nat | r < 32

  const SP: Reg := 2

  /** x8, x9, x18..x27. */
  predicate Saved(r: int) {
    r == 8 || r == 9 || 18 <= r < 28
  }

  /** x1, x5..x7, x10..x17, x28..x31. */
  predicate CallerSaved(r: int) {
    r == 1 || 5 <= r < 8 || 10 <= r < 18 || 28 <= r < 32
  }

  datatype AVal = Top | Vals(xs: set<int>)

  function Const(n: int): AVal {
    Vals({n})
  }

  function Limit(xs: set<int>): AVal {
    if |xs| <= SET_LIMIT then Vals(xs) else Top
  }

  function Union(a: AVal, b: AVal): AVal {
    if a.Top? || b.Top? then Top else Limit(a.xs + b.xs)
  }

  datatype AluOp = Add | Sub | BitAnd | BitOr | BitXor | Sll | Srl | Slt | Sltu | AddEven

  /** The operation on unbounded integers, as the engine's lambdas compute it. */
  function Eval(op: AluOp, x: int, y: int): int {
    match op
    case Add => x + y
    case Sub => x - y
    case BitAnd => And(x, y)
    case BitOr => x + y - And(x, y)
    case BitXor => x + y - 2 * And(x, y)
    case Sll => if y < 0 then 0 else x * Pow2(y)
    case Srl => if y < 0 then 0 else Word(x) / Pow2(y)
    case Slt => if Signed(x) < Signed(y) then 1 else 0
    case Sltu => if Word(x) < Word(y) then 1 else 0
    case AddEven => (x + y) - (x + y) % 2
  }

  /** Results are masked to 32 bits only when both operands are words. */
  function EvalMasked(op: AluOp, x: int, y: int): int {
    if Abs(x) >= WORD || Abs(y) >= WORD then Eval(op, x, y) else Word(Eval(op, x, y))
  }

  function Arithmetic(a: AVal, b: AVal, op: AluOp): AVal {
    if a.Top? || b.Top? then Top
    else if exists x :: x in a.xs + b.xs && x < -WORD then Top
    else Limit(set x, y | x in a.xs && y in b.xs :: EvalMasked(op, x, y))
  }

  // ---- what a value stands for ----

  ghost predicate Frame(f: seq<int>) {
    |f| == 32 && forall r :: 0 <= r < 32 ==> 0 <= f[r] < WORD
  }

  ghost predicate Denotes(f: seq<int>, x: int, w: int)
    requires Frame(f)
  {
    if 0 <= x < WORD then w == x
    else if x >= WORD then w == Word(f[SP] + x - STACK)
    else if x == RETURN then w == f[1]
    else Saved(RETURN - x) && w == f[RETURN - x]
  }

  /** The word `w` is one the value allows. */
  ghost predicate In(f: seq<int>, v: AVal, w: int)
    requires Frame(f)
  {
    v.Top? || exists x :: x in v.xs && Denotes(f, x, w)
  }

  predicate Leq(a: AVal, b: AVal) {
    b.Top? || (a.Vals? && a.xs <= b.xs)
  }

  /** Stack addresses are the integers the engine keeps unmasked. */
  ghost predicate NoStackAddress(v: AVal) {
    v.Vals? ==> forall x :: x in v.xs ==> x < WORD
  }

  /** Adding the immediate to a stack address gives a stack address. */
  ghost predicate StaysStackAddress(v: AVal, imm: int) {
    v.Vals? ==> forall x :: x in v.xs && x >= WORD ==> x + imm >= WORD
  }

  lemma LeqCovers(f: seq<int>, a: AVal, b: AVal, w: int)
    requires Frame(f) && Leq(a, b) && In(f, a, w)
    ensures In(f, b, w)
  {
    if b.Vals? {
      var x :| x in a.xs && Denotes(f, x, w);
      assert x in b.xs;
    }
  }

  lemma UnionAbove(a: AVal, b: AVal)
    ensures Leq(a, Union(a, b)) && Leq(b, Union(a, b))
  {
  }

  lemma ConstCovers(f: seq<int>, w: int)
    requires Frame(f) && 0 <= w < WORD
    ensures In(f, Const(w), w)
  {
    assert Denotes(f, w, w);
  }

  /** Every concrete result of two words outside the stack is in the abstract result. */
  lemma ArithmeticCovers(f: seq<int>, a: AVal, b: AVal, op: AluOp, wa: int, wb: int)
    requires Frame(f)
    requires NoStackAddress(a) && NoStackAddress(b)
    requires In(f, a, wa) && In(f, b, wb)
    ensures In(f, Arithmetic(a, b, op), Word(Eval(op, wa, wb)))
  {
    if Arithmetic(a, b, op).Vals? {
      var x :| x in a.xs && Denotes(f, x, wa);
      var y :| y in b.xs && Denotes(f, y, wb);
      assert x in a.xs + b.xs && y in a.xs + b.xs;
      assert x == wa && y == wb;
      var z := EvalMasked(op, x, y);
      assert z in Arithmetic(a, b, op).xs;
      assert Denotes(f, z, z);
    }
  }

  /** An immediate add follows words modulo 2^32 and stack addresses exactly. */
  lemma AddImmediateCovers(f: seq<int>, a: AVal, imm: int, w: int)
    requires Frame(f) && -WORD < imm < WORD
    requires StaysStackAddress(a, imm)
    requires In(f, a, w)
    ensures In(f, Arithmetic(a, Const(imm), Add), Word(w + imm))
  {
    var r := Arithmetic(a, Const(imm), Add);
    if r.Vals? {
      var x :| x in a.xs && Denotes(f, x, w);
      assert x in a.xs + {imm};
      var z := EvalMasked(Add, x, imm);
      assert z in r.xs;
      if x >= WORD {
        AddModulo(f[SP] + x - STACK, imm);
        assert f[SP] + x - STACK + imm == f[SP] + z - STACK;
      }
      assert Denotes(f, z, Word(w + imm));
    }
  }

  lemma AddModulo(n: int, imm: int)
    ensures Word(Word(n) + imm) == Word(n + imm)
  {
    var q := n / WORD;
    assert n == WORD * q + Word(n);
    var m := Word(n) + imm;
    DivModUnique(n + imm, WORD, q + m / WORD, m % WORD);
  }

  lemma MaskCovers(f: seq<int>, a: AVal, mask: int, w: int)
    requires Frame(f) && -WORD < mask < WORD && 0 <= w < WORD
    requires NoStackAddress(a) && In(f, a, w)
    ensures In(f, Arithmetic(a, Const(mask), BitAnd), And(w, Word(mask)))
  {
    var r := Arithmetic(a, Const(mask), BitAnd);
    if r.Vals? {
      var x :| x in a.xs && Denotes(f, x, w);
      assert x in a.xs + {mask};
      var z := EvalMasked(BitAnd, x, mask);
      assert z in r.xs;
      AndWordMask(w, mask);
      assert Denotes(f, z, z);
    }
  }

  /** An unknown operand under a mask of at most 31 can only give a sub-mask. */
  lemma SmallMaskCovers(f: seq<int>, mask: nat, w: int)
    requires Frame(f) && mask < 32 && 0 <= w < WORD
    ensures In(f, Vals(set n | 0 <= n <= mask && And(n, mask) == n), And(w, Word(mask)))
  {
    AndBounded(w, mask);
    var z := And(w, mask);
    assert Word(mask) == mask;
    assert Denotes(f, z, z);
  }

  /** An operand that is unknown makes the result unknown, whatever the other one is. */
  lemma AluCovers(f: seq<int>, a: AVal, b: AVal, op: AluOp, wa: int, wb: int)
    requires Frame(f)
    requires a.Vals? && b.Vals? ==> NoStackAddress(a) && NoStackAddress(b)
    requires In(f, a, wa) && In(f, b, wb)
    ensures In(f, Arithmetic(a, b, op), Word(Eval(op, wa, wb)))
  {
    if a.Vals? && b.Vals? {
      ArithmeticCovers(f, a, b, op, wa, wb);
    }
  }

  /** A signed immediate is an integer of the engine, not a word, until the result is masked. */
  lemma AluImmediateCovers(f: seq<int>, a: AVal, op: AluOp, imm: int, w: int)
    requires Frame(f) && -WORD < imm < WORD
    requires NoStackAddress(a) && In(f, a, w)
    ensures In(f, Arithmetic(a, Const(imm), op), Word(Eval(op, w, imm)))
  {
    var r := Arithmetic(a, Const(imm), op);
    if r.Vals? {
      var x :| x in a.xs && Denotes(f, x, w);
      assert x in a.xs + {imm};
      var z := EvalMasked(op, x, imm);
      assert z in r.xs;
      hide Eval;
      assert Denotes(f, z, z);
    }
  }

  lemma EvenModulo(n: int)
    ensures Word(n - n % 2) == Word(n) - Word(n) % 2
  {
    var q := n / WORD;
    var w := Word(n);
    assert n == 2 * (0x8000_0000 * q + w / 2) + w % 2;
    DivModUnique(n, 2, 0x8000_0000 * q + w / 2, w % 2);
    DivModUnique(n - n % 2, WORD, q, w - w % 2);
  }

  /** The computed destination of an indirect jump: the sum with its low bit cleared. */
  lemma JumpTargetCovers(f: seq<int>, a: AVal, imm: int, w: int)
    requires Frame(f) && -WORD < imm < WORD
    requires NoStackAddress(a) && In(f, a, w)
    ensures In(f, Arithmetic(a, Const(imm), AddEven), Word(w + imm) - Word(w + imm) % 2)
  {
    var r := Arithmetic(a, Const(imm), AddEven);
    if r.Vals? {
      var x :| x in a.xs && Denotes(f, x, w);
      assert x in a.xs + {imm};
      var z := EvalMasked(AddEven, x, imm);
      assert z in r.xs;
      assert z == Word(w + imm - (w + imm) % 2);
      EvenModulo(w + imm);
      hide Word;
      assert Denotes(f, z, z);
    }
  }
}
