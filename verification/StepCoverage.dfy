/**
 Every single-instruction effect of the machine is covered by the engine's transfer, provided stack addresses
 are only moved and offset by immediates and stores hit tracked stack words only where the engine sees it.
 */
module StepCoverage {
  import opened Basics
  import opened Words
  import opened Sets
  import opened AbstractValues
  import opened Machine
  import opened Transfers

  ghost predicate RegsDescribe(f: seq<int>, regs: Regs, words: seq<int>)
    requires Frame(f) && |words| == 32
  {
    forall r :: 0 <= r < 32 ==> In(f, regs[r], words[r])
  }

  /** Where the activation with entry registers `f` keeps the stack word recorded under `k`. */
  function SlotAddress(f: seq<int>, k: int): int
    requires |f| == 32
  {
    f[SP] + k - STACK
  }

  ghost predicate SlotsHold(f: seq<int>, facts: map<int, AVal>, mem: Memory)
    requires Frame(f)
  {
    forall k :: k in facts ==> InWindow(k) && In(f, facts[k], LoadWord(mem, SlotAddress(f, k)))
  }

  ghost predicate StateDescribes(f: seq<int>, st: State, words: seq<int>, mem: Memory)
    requires Frame(f) && |words| == 32
  {
    RegsDescribe(f, st.regs, words) && SlotsHold(f, st.mem, mem)
  }

  /** Linked read-only data keeps its value. */
  ghost predicate RomIntact(p: Program, mem: Memory) {
    forall a, size :: size in {1, 2, 4} && Read(p.rom, a, size).Some? ==>
                        LoadBytes(mem, a, size) == Read(p.rom, a, size).value
  }

  /** The stack window of the activation lies inside the address space, away from address zero. */
  ghost predicate Grounded(f: seq<int>) {
    |f| == 32 && STACK_WINDOW < f[SP] && f[SP] + STACK_WINDOW + 4 <= WORD
  }

  lemma LeqStateDescribes(f: seq<int>, a: State, b: State, words: seq<int>, mem: Memory)
    requires Frame(f) && |words| == 32
    requires LeqState(a, b) && StateDescribes(f, a, words, mem)
    ensures StateDescribes(f, b, words, mem)
  {
    forall r | 0 <= r < 32 ensures In(f, b.regs[r], words[r]) {
      LeqCovers(f, a.regs[r], b.regs[r], words[r]);
    }
    forall k | k in b.mem ensures InWindow(k) && In(f, b.mem[k], LoadWord(mem, SlotAddress(f, k))) {
      LeqCovers(f, a.mem[k], b.mem[k], LoadWord(mem, SlotAddress(f, k)));
    }
  }

  lemma SetRegCovers(f: seq<int>, regs: Regs, words: seq<int>, rd: Reg, v: AVal, w: int)
    requires Frame(f) && |words| == 32
    requires RegsDescribe(f, regs, words) && In(f, v, w)
    ensures RegsDescribe(f, SetReg(regs, rd, v), Write(words, rd, w))
  {
  }

  lemma LoadWordWraps(m: Memory, n: int)
    ensures LoadWord(m, Word(n)) == LoadWord(m, n)
  {
    forall i | 0 <= i < 4 ensures Lane(Word(n), i) == Lane(n, i) {
      AddModulo(n, i);
    }
  }

  lemma LoadCovers(p: Program, f: seq<int>, facts: map<int, AVal>, addresses: AVal, size: nat, a: int, mem: Memory)
    requires WellFormed(p) && Frame(f) && 0 <= a < WORD && size in {1, 2, 4}
    requires SlotsHold(f, facts, mem) && RomIntact(p, mem)
    requires In(f, addresses, a)
    ensures In(f, LoadValue(p, facts, addresses, size), LoadBytes(mem, a, size))
  {
    hide LoadWord, Read;
    var value := LoadValue(p, facts, addresses, size);
    if value.Vals? {
      var x :| x in addresses.xs && Denotes(f, x, a);
      var v := Lookup(p, facts, x, size);
      assert v.Vals?;
      if size == 4 && x in facts {
        LoadWordWraps(mem, SlotAddress(f, x));
        var y :| y in v.xs && Denotes(f, y, LoadWord(mem, a));
        assert y in value.xs;
      } else {
        var y := Read(p.rom, x, size).value;
        ReadInside(p, x, size);
        assert a == x;
        assert y in v.xs && y in value.xs;
        assert Denotes(f, y, LoadBytes(mem, a, size));
      }
    }
  }

  lemma ReadInside(p: Program, a: int, size: nat)
    requires WellFormed(p) && size in {1, 2, 4} && Read(p.rom, a, size).Some?
    ensures 0 <= a < WORD
  {
    MatchesInside(p.rom, a, size);
    var q := Matches(p.rom, a, size);
    assert q[0] in q;
  }

  /** A memory that holds the bytes of every section has the read-only data intact. */
  lemma LinkedIsIntact(p: Program, mem: Memory)
    requires WellFormed(p)
    requires forall s, i :: s in p.rom && 0 <= i < |s.bytes| ==> ByteAt(mem, s.start + i) == s.bytes[i]
    ensures RomIntact(p, mem)
  {
    hide LoadBytes, ByteAt;
    forall a, size | size in {1, 2, 4} && Read(p.rom, a, size).Some?
      ensures LoadBytes(mem, a, size) == Read(p.rom, a, size).value
    {
      MatchesInside(p.rom, a, size);
      var q := Matches(p.rom, a, size);
      assert q[0] in q;
      var s :| s in p.rom && Contains(s, a, size) && q[0] == s.bytes[a - s.start..a - s.start + size];
      SectionBytes(s, mem, a, size);
    }
  }

  lemma SectionBytes(s: Section, mem: Memory, a: int, size: nat)
    requires size in {1, 2, 4} && Contains(s, a, size) && 0 <= s.start && s.start + |s.bytes| <= WORD
    requires forall i :: 0 <= i < |s.bytes| ==> ByteAt(mem, s.start + i) == s.bytes[i]
    ensures LoadBytes(mem, a, size) == ValueOf(s.bytes[a - s.start..a - s.start + size])
  {
    hide ByteAt;
    var q := s.bytes[a - s.start..a - s.start + size];
    forall i | 0 <= i < size ensures Lane(a, i) == a + i && ByteAt(mem, a + i) == q[i] {
      assert ByteAt(mem, s.start + (a - s.start + i)) == s.bytes[a - s.start + i];
    }
    ValueOfFew(q);
  }

  lemma ValueOfFew(q: Bytes)
    requires |q| in {1, 2, 4}
    ensures |q| == 1 ==> ValueOf(q) == q[0]
    ensures |q| == 2 ==> ValueOf(q) == q[0] as int + 0x100 * (q[1] as int)
    ensures |q| == 4 ==> ValueOf(q) == q[0] as int + 0x100 * (q[1] as int) + 0x1_0000 * (q[2] as int)
                                       + 0x100_0000 * (q[3] as int)
  {
    assert |q| == 1 ==> q[1..] == [];
    if |q| >= 2 {
      assert q[1..][1..] == q[2..];
      assert ValueOf(q) == q[0] as int + 256 * (q[1] as int + 256 * ValueOf(q[2..]));
      assert |q| == 2 ==> q[2..] == [];
    }
    if |q| == 4 {
      assert q[2..][1..] == q[3..] && q[3..][1..] == [];
      assert ValueOf(q[2..]) == q[2] as int + 256 * (q[3] as int);
    }
  }

  /** What is linked in one or two bytes is a number of that size. */
  lemma NarrowRange(p: Program, facts: map<int, AVal>, addresses: AVal, size: nat)
    requires size == 1 || size == 2
    ensures var v := LoadValue(p, facts, addresses, size);
            v.Vals? ==> forall x :: x in v.xs ==> 0 <= x < 0x1_0000
  {
    var v := LoadValue(p, facts, addresses, size);
    if v.Vals? {
      forall x | x in v.xs ensures 0 <= x < 0x1_0000 {
        var a :| a in addresses.xs && x in Lookup(p, facts, a, size).xs;
        MatchesInside(p.rom, a, size);
        var q := Matches(p.rom, a, size);
        assert q[0] in q;
        ValueOfFew(q[0]);
      }
    }
  }

  /** Extension commutes with the choice among recorded values. */
  lemma ExtendedCovers(f: seq<int>, v: AVal, size: nat, signed: bool, w: int)
    requires Frame(f) && 0 <= w < WORD && (size == 1 || size == 2)
    requires In(f, v, w) && (v.Vals? ==> forall x :: x in v.xs ==> 0 <= x < 0x1_0000)
    ensures In(f, Extended(v, size, signed), Extend(w, size, signed))
  {
    if v.Vals? {
      var x :| x in v.xs && Denotes(f, x, w);
      var y := Extend(w, size, signed);
      assert x == w && y in Extended(v, size, signed).xs;
      assert Denotes(f, y, y);
    }
  }

  lemma SlotsApart(f: seq<int>, j: int, k: int)
    requires Grounded(f) && InWindow(j) && InWindow(k)
    requires j + 4 <= k || k + 4 <= j
    ensures Apart(SlotAddress(f, j), SlotAddress(f, k))
  {
    var a, b := SlotAddress(f, j), SlotAddress(f, k);
    forall i, l | 0 <= i < 4 && 0 <= l < 4 ensures Lane(a, i) != Lane(b, l) {
      assert 0 <= a + i < WORD && 0 <= b + l < WORD;
    }
  }

  /** The address set names one stack word, so the engine records the store. */
  predicate KnownSlot(addresses: AVal) {
    addresses.Vals? && |addresses.xs| == 1 && InWindow(Only(addresses.xs))
  }

  /** The store shares no byte with a slot of known content; a slot of unknown content cannot be falsified. */
  ghost predicate MissesFacts(f: seq<int>, facts: map<int, AVal>, a: int)
    requires |f| == 32
  {
    forall k :: k in facts && facts[k].Vals? ==> Apart(a, SlotAddress(f, k))
  }

  lemma MissedSlotsHold(f: seq<int>, facts: map<int, AVal>, a: int, w: int, mem: Memory)
    requires Frame(f) && 0 <= w < WORD && SlotsHold(f, facts, mem) && MissesFacts(f, facts, a)
    ensures SlotsHold(f, facts, StoreWord(mem, a, w))
  {
    hide Apart, StoreWord, LoadWord, Denotes;
    forall k | k in facts ensures In(f, facts[k], LoadWord(StoreWord(mem, a, w), SlotAddress(f, k))) {
      if facts[k].Vals? {
        LoadAfterStoreApart(mem, a, w, SlotAddress(f, k));
      }
    }
  }

  lemma StoreCovers(f: seq<int>, facts: map<int, AVal>, addresses: AVal, a: int, v: AVal, w: int, mem: Memory)
    requires Frame(f) && Grounded(f) && 0 <= a < WORD && 0 <= w < WORD
    requires SlotsHold(f, facts, mem) && In(f, addresses, a) && In(f, v, w)
    requires KnownSlot(addresses) || MissesFacts(f, facts, a)
    ensures SlotsHold(f, StoreValue(facts, addresses, v), StoreWord(mem, a, w))
  {
    if KnownSlot(addresses) {
      var x := Only(addresses.xs);
      assert Denotes(f, x, a);
      assert a == SlotAddress(f, x);
      hide SlotsHold, StoreWord, In, Denotes;
      KnownSlotHolds(f, facts, x, v, w, mem);
    } else {
      hide SlotsHold, StoreWord, In, Denotes;
      MissedSlotsHold(f, facts, a, w, mem);
    }
  }

  lemma KnownSlotHolds(f: seq<int>, facts: map<int, AVal>, x: int, v: AVal, w: int, mem: Memory)
    requires Frame(f) && Grounded(f) && InWindow(x) && 0 <= w < WORD
    requires SlotsHold(f, facts, mem) && In(f, v, w)
    ensures SlotsHold(f, StoreValue(facts, Const(x), v), StoreWord(mem, SlotAddress(f, x), w))
  {
    hide Apart, StoreWord, LoadWord, Denotes;
    var a := SlotAddress(f, x);
    var after, facts' := StoreWord(mem, a, w), StoreValue(facts, Const(x), v);
    assert Only({x}) == x;
    forall k | k in facts' ensures InWindow(k) && In(f, facts'[k], LoadWord(after, SlotAddress(f, k))) {
      if k == x {
        LoadAfterStore(mem, a, w);
      } else {
        SlotsApart(f, x, k);
        LoadAfterStoreApart(mem, a, w, SlotAddress(f, k));
      }
    }
  }

  // ---- straight-line instructions ----

  predicate Linking(rd: int) {
    rd == 0 || rd == 1 || rd == 5
  }

  predicate Returning(dests: AVal) {
    dests.Vals? && RETURN in dests.xs
  }

  /** Tested stack addresses stay inside the mapped window, where no address is zero. */
  ghost predicate NearStack(v: AVal) {
    v.Vals? ==> forall x :: x in v.xs && x >= WORD ==> STACK - STACK_WINDOW <= x <= STACK + STACK_WINDOW
  }

  ghost predicate CodeAddresses(v: AVal) {
    v.Vals? ==> forall x :: x in v.xs ==> 0 <= x < WORD
  }

  /** A callback handed to a separately analysed one-time initialiser is a code address. */
  ghost predicate CallbacksAreCode(p: Program, o: Options, s: Site, dests: AVal, callback: AVal) {
    (dests.Vals? && exists t :: t in dests.xs && t in p.owner && p.owner[t] in p.once && !Internal(p, o, s, t))
    ==> CodeAddresses(callback)
  }

  /** How far the claim reaches at one recorded state; every clause can be read off the finished analysis. */
  ghost predicate Disciplined(p: Program, o: Options, pc: int, st: State) {
    pc in p.instrs && pc in p.owner ==>
      var op := p.instrs[pc].op;
      match op
      case Addi(_, rs, imm) => StaysStackAddress(st.regs[rs], imm)
      case Lw(_, rs, imm) => StaysStackAddress(st.regs[rs], imm)
      case LoadNarrow(_, _, _, rs, imm) => StaysStackAddress(st.regs[rs], imm)
      case Sw(_, rs, imm) => StaysStackAddress(st.regs[rs], imm)
      case Alu(_, _, rs, rt) =>
        st.regs[rs].Vals? && st.regs[rt].Vals? ==> NoStackAddress(st.regs[rs]) && NoStackAddress(st.regs[rt])
      case AluImm(_, _, rs, _) => NoStackAddress(st.regs[rs])
      case Andi(_, rs, _) => NoStackAddress(st.regs[rs])
      case BranchZero(_, rs, _) => NearStack(st.regs[rs])
      case Jal(rd, _) => Linking(rd)
          && CallbacksAreCode(p, o, Site(p.owner[pc], rd, 0), Destinations(op, st.regs), st.regs[11])
      case Jalr(rd, rs, imm) =>
        && Linking(rd) && CallbacksAreCode(p, o, Site(p.owner[pc], rd, 0), Destinations(op, st.regs), st.regs[11])
        && NoStackAddress(st.regs[rs])
        && (Returning(Destinations(op, st.regs)) ==> rd == 0 && rs == 1 && imm == 0 && st.regs[1] == Const(RETURN))
      case JumpReg(rd, rs) =>
        && Linking(rd) && CallbacksAreCode(p, o, Site(p.owner[pc], rd, 0), Destinations(op, st.regs), st.regs[11])
        && (Returning(Destinations(op, st.regs)) ==> rd == 0 && rs == 1)
      case _ => true
  }

  lemma AddImmediateAddress(f: seq<int>, regs: Regs, words: seq<int>, rs: Reg, imm: int)
    requires Frame(f) && |words| == 32 && RegsDescribe(f, regs, words)
    requires -WORD < imm < WORD && StaysStackAddress(regs[rs], imm)
    ensures In(f, Arithmetic(regs[rs], Const(imm), Add), Word(words[rs] + imm))
  {
    AddImmediateCovers(f, regs[rs], imm, words[rs]);
  }

  /** The engine records the store, or it falsifies nothing recorded. */
  ghost predicate StoreMisses(f: seq<int>, st: State, op: Op, a: int)
    requires Frame(f) && op.Sw?
  {
    || KnownSlot(Arithmetic(st.regs[op.rs], Const(op.imm), Add))
    || MissesFacts(f, st.mem, a)
  }

  /** The recorded value of a load, from the recorded value of its base register. */
  lemma LoadedCovers(p: Program, f: seq<int>, st: State, words: seq<int>, rs: Reg, imm: int, size: nat, mem: Memory)
    requires WellFormed(p) && Frame(f) && Frame(words) && size in {1, 2, 4}
    requires StateDescribes(f, st, words, mem) && RomIntact(p, mem)
    requires -WORD < imm < WORD && StaysStackAddress(st.regs[rs], imm)
    ensures In(f, LoadValue(p, st.mem, Arithmetic(st.regs[rs], Const(imm), Add), size),
               LoadBytes(mem, Word(words[rs] + imm), size))
  {
    hide WellFormed, RomIntact, Arithmetic, StaysStackAddress;
    AddImmediateAddress(f, st.regs, words, rs, imm);
    LoadCovers(p, f, st.mem, Arithmetic(st.regs[rs], Const(imm), Add), size, Word(words[rs] + imm), mem);
  }

  lemma ExecuteLoadCovers(p: Program, cut: Cut, o: Options, f: seq<int>, st: State, sp: int, c: Config, d: Config)
    requires WellFormed(p) && Frame(f) && Valid(c) && Step(p, cut, c, d)
    requires c.pc in p.owner && Plain(p.instrs[c.pc].op) && !p.instrs[c.pc].op.Sw?
    requires p.instrs[c.pc].op.Lw? || p.instrs[c.pc].op.LoadNarrow?
    requires Disciplined(p, o, c.pc, st)
    requires StateDescribes(f, st, c.regs, c.mem) && RomIntact(p, c.mem)
    requires Execute(p, p.instrs[c.pc].op, st.regs, st.mem, sp).Some?
    ensures StateDescribes(f, State(Execute(p, p.instrs[c.pc].op, st.regs, st.mem, sp).value.regs,
                                    Execute(p, p.instrs[c.pc].op, st.regs, st.mem, sp).value.mem, st.phase), d.regs,
                                        d.mem)
    ensures d.pc == c.pc + p.instrs[c.pc].size
  {
    hide SlotsHold, LoadValue, Arithmetic, RomIntact, LoadBytes, Extended, Extend;
    var ins := p.instrs[c.pc];
    var regs, words := st.regs, c.regs;
    assert Encodable(ins.op, c.pc + ins.size);
    if ins.op.Lw? {
      var Lw(rd, rs, imm) := ins.op;
      LoadedCovers(p, f, st, words, rs, imm, 4, c.mem);
      SetRegCovers(f, regs, words, rd, LoadValue(p, st.mem, Arithmetic(regs[rs], Const(imm), Add), 4),
                   LoadBytes(c.mem, Word(words[rs] + imm), 4));
    } else {
      var LoadNarrow(size, signed, rd, rs, imm) := ins.op;
      LoadedCovers(p, f, st, words, rs, imm, size, c.mem);
      var addresses := Arithmetic(regs[rs], Const(imm), Add);
      var v, w := LoadValue(p, st.mem, addresses, size), LoadBytes(c.mem, Word(words[rs] + imm), size);
      NarrowRange(p, st.mem, addresses, size);
      ExtendedCovers(f, v, size, signed, w);
      SetRegCovers(f, regs, words, rd, Extended(v, size, signed), Extend(w, size, signed));
    }
  }

  lemma ExecuteRegsCovers(p: Program, cut: Cut, o: Options, f: seq<int>, st: State, sp: int, c: Config, d: Config)
    requires WellFormed(p) && Frame(f) && Valid(c) && Step(p, cut, c, d)
    requires c.pc in p.owner && Plain(p.instrs[c.pc].op) && !p.instrs[c.pc].op.Sw?
    requires Disciplined(p, o, c.pc, st)
    requires StateDescribes(f, st, c.regs, c.mem) && RomIntact(p, c.mem)
    requires Execute(p, p.instrs[c.pc].op, st.regs, st.mem, sp).Some?
    ensures StateDescribes(f, State(Execute(p, p.instrs[c.pc].op, st.regs, st.mem, sp).value.regs,
                                    Execute(p, p.instrs[c.pc].op, st.regs, st.mem, sp).value.mem, st.phase), d.regs,
                                        d.mem)
    ensures d.pc == c.pc + p.instrs[c.pc].size
  {
    hide SlotsHold, LoadValue, Arithmetic;
    var ins := p.instrs[c.pc];
    var regs, words := st.regs, c.regs;
    assert Encodable(ins.op, c.pc + ins.size);
    if ins.op.Lw? || ins.op.LoadNarrow? {
      ExecuteLoadCovers(p, cut, o, f, st, sp, c, d);
      return;
    }
    match ins.op {
      case Li(rd, value) =>
        ConstCovers(f, Word(value));
        SetRegCovers(f, regs, words, rd, Const(Word(value)), Word(value));
      case Mv(rd, rs) =>
        SetRegCovers(f, regs, words, rd, regs[rs], words[rs]);
      case Addi(rd, rs, imm) =>
        AddImmediateAddress(f, regs, words, rs, imm);
        SetRegCovers(f, regs, words, rd, Arithmetic(regs[rs], Const(imm), Add), Word(words[rs] + imm));
      case Alu(op, rd, rs, rt) =>
        AluCovers(f, regs[rs], regs[rt], op, words[rs], words[rt]);
        SetRegCovers(f, regs, words, rd, Arithmetic(regs[rs], regs[rt], op), Word(Eval(op, words[rs], words[rt])));
      case AluImm(op, rd, rs, imm) =>
        AluImmediateCovers(f, regs[rs], op, imm, words[rs]);
        SetRegCovers(f, regs, words, rd, Arithmetic(regs[rs], Const(imm), op), Word(Eval(op, words[rs], imm)));
      case Andi(rd, rs, imm) =>
        var w := And(words[rs], Word(imm));
        if regs[rs].Top? && 0 <= imm <= 31 {
          SmallMaskCovers(f, imm, words[rs]);
          SetRegCovers(f, regs, words, rd, Vals(set n | 0 <= n <= imm && And(n, imm) == n), w);
        } else {
          MaskCovers(f, regs[rs], imm, words[rs]);
          SetRegCovers(f, regs, words, rd, Arithmetic(regs[rs], Const(imm), BitAnd), w);
        }
      case Unmodelled(rd) =>
        var w :| 0 <= w < WORD && d == Config(c.pc + ins.size, Write(words, rd, w), c.mem);
        SetRegCovers(f, regs, words, rd, Top, w);
      case Nop =>
    }
  }

  lemma ExecuteStoreCovers(p: Program, cut: Cut, o: Options, f: seq<int>, st: State, sp: int, c: Config, d: Config)
    requires WellFormed(p) && Frame(f) && Grounded(f) && Valid(c) && Step(p, cut, c, d)
    requires c.pc in p.owner && p.instrs[c.pc].op.Sw?
    requires Disciplined(p, o, c.pc, st)
    requires StateDescribes(f, st, c.regs, c.mem)
    requires StoreMisses(f, st, p.instrs[c.pc].op, Word(c.regs[p.instrs[c.pc].op.rs] + p.instrs[c.pc].op.imm))
    requires Execute(p, p.instrs[c.pc].op, st.regs, st.mem, sp).Some?
    ensures StateDescribes(f, State(Execute(p, p.instrs[c.pc].op, st.regs, st.mem, sp).value.regs,
                                    Execute(p, p.instrs[c.pc].op, st.regs, st.mem, sp).value.mem, st.phase), d.regs,
                                        d.mem)
    ensures d.pc == c.pc + p.instrs[c.pc].size
  {
    hide SlotsHold, StoreValue, Arithmetic, StoreWord;
    var ins := p.instrs[c.pc];
    var Sw(src, rs, imm) := ins.op;
    assert Encodable(ins.op, c.pc + ins.size);
    AddImmediateAddress(f, st.regs, c.regs, rs, imm);
    StoreCovers(f, st.mem, Arithmetic(st.regs[rs], Const(imm), Add), Word(c.regs[rs] + imm),
                st.regs[src], c.regs[src], c.mem);
  }

  // ---- branches ----

  /** A value pair that takes the edge is never filtered away. */
  lemma RefineBranchCovers(f: seq<int>, cond: Cond, rs: Reg, rt: Reg, regs: Regs, words: seq<int>)
    requires Frame(f) && Frame(words) && RegsDescribe(f, regs, words)
    ensures var r := RefineBranch(cond, Holds(cond, words[rs], words[rt]), rs, rt, regs);
            r.Some? && RegsDescribe(f, r.value, words)
  {
    var taken := Holds(cond, words[rs], words[rt]);
    var a, b := regs[rs], regs[rt];
    if Comparable(a) && Comparable(b) {
      var x :| x in a.xs && Denotes(f, x, words[rs]);
      var y :| y in b.xs && Denotes(f, y, words[rt]);
      assert x == words[rs] && y == words[rt];
      var xs := set x | x in a.xs && exists y :: y in b.xs && Holds(cond, x, y) == taken;
      var ys := set y | y in b.xs && exists x :: x in a.xs && Holds(cond, x, y) == taken;
      assert x in xs && y in ys;
      assert In(f, Vals(xs), words[rs]) && In(f, Vals(ys), words[rt]);
    } else if (cond.Bltu? || cond.Bgeu?) && a.Vals? && |a.xs| == 1 && b.Top? && taken == cond.Bgeu? {
      var limit := Only(a.xs);
      if 0 <= limit <= 31 {
        assert Denotes(f, limit, words[rs]);
        assert words[rt] <= limit;
        assert words[rt] in UpTo(limit) && Denotes(f, words[rt], words[rt]);
        assert In(f, Vals(UpTo(limit)), words[rt]);
      }
    }
  }

  lemma RefineZeroCovers(f: seq<int>, rs: Reg, regs: Regs, words: seq<int>)
    requires Frame(f) && Grounded(f) && Frame(words) && RegsDescribe(f, regs, words)
    requires NearStack(regs[rs])
    ensures var r := RefineZero(words[rs] == 0, rs, regs);
            r.Some? && RegsDescribe(f, r.value, words)
  {
    var v, zero := regs[rs], words[rs] == 0;
    if v.Vals? && forall x :: x in v.xs ==> x >= -WORD {
      var x :| x in v.xs && Denotes(f, x, words[rs]);
      if x >= WORD {
        assert 0 < f[SP] + x - STACK < WORD;
      }
      var kept := set x | x in v.xs && (x == 0) == zero;
      assert x in kept;
      assert In(f, Vals(kept), words[rs]);
    }
  }
}
