/** 32-bit words, byte-addressed memory and the integer operators the interval engine relies on. */
module Words {
  import opened Basics

  const WORD: int := 0x1_0000_0000

  /** `n & 0xffffffff` of an unbounded integer. */
  function Word(n: int): (w: int)
    ensures 0 <= w < WORD
  {
    n % WORD
  }

  function Signed(n: int): int {
    if Word(n) < 0x8000_0000 then Word(n) else Word(n) - WORD
  }

  function Abs(n: int): nat {
    if n < 0 then -n else n
  }

  /** Bitwise and of unbounded two's-complement integers. */
  function And(x: int, y: int): int
    decreases Abs(x)
  {
    if x == 0 then 0
    else if x == -1 then y
    else (x % 2) * (y % 2) + 2 * And(x / 2, y / 2)
  }

  function Pow2(n: nat): (p: nat)
    ensures p > 0
  {
    if n == 0 then 1 else 2 * Pow2(n - 1)
  }

  /** A non-negative left operand bounds the result, and masking twice is masking once. */
  lemma {:induction false} AndBounded(x: nat, y: int)
    ensures 0 <= And(x, y) <= x
    ensures And(And(x, y), y) == And(x, y)
    ensures 0 <= y ==> And(x, y) <= y
  {
    if x != 0 {
      AndBounded(x / 2, y / 2);
      var b := (x % 2) * (y % 2);
      var r := And(x, y);
      assert b == 0 || (b == 1 && x % 2 == 1 && y % 2 == 1);
      assert r % 2 == b && r / 2 == And(x / 2, y / 2);
      if r != 0 {
        assert And(r, y) == (r % 2) * (y % 2) + 2 * And(r / 2, y / 2);
      }
    }
  }

  /** Only the low `k` bits of the mask matter to an operand below `2^k`. */
  lemma {:induction false} AndLowBits(x: nat, y: int, k: nat)
    requires x < Pow2(k)
    ensures And(x, y) == And(x, y % Pow2(k))
  {
    if x != 0 {
      var p := Pow2(k - 1);
      HalfMod(y, p);
      AndLowBits(x / 2, y / 2, k - 1);
    }
  }

  lemma HalfMod(y: int, p: nat)
    requires p > 0
    ensures (y % (2 * p)) % 2 == y % 2
    ensures (y % (2 * p)) / 2 == (y / 2) % p
  {
    var q, r := y / (2 * p), y % (2 * p);
    assert y == 2 * p * q + r;
    assert y == 2 * (p * q) + r;
    assert y / 2 == p * q + r / 2;
    assert 0 <= r / 2 < p;
    DivModUnique(y / 2, p, q, r / 2);
  }

  lemma DivModUnique(a: int, p: nat, q: int, r: int)
    requires p > 0 && 0 <= r < p && a == p * q + r
    ensures a / p == q && a % p == r
  {
    var d := a / p - q;
    assert p * (a / p) == p * q + p * d;
    assert p * d + a % p == r;
  }

  lemma Pow2Of32()
    ensures Pow2(32) == WORD
  {
    assert Pow2(8) == 256;
    assert Pow2(16) == 256 * Pow2(8);
    assert Pow2(24) == 256 * Pow2(16);
    assert Pow2(32) == 256 * Pow2(24);
  }

  /** A sign-extended mask acts on a word exactly as its 32-bit encoding does. */
  lemma AndWordMask(w: int, mask: int)
    requires 0 <= w < WORD
    ensures Word(And(w, mask)) == And(w, Word(mask))
  {
    Pow2Of32();
    AndLowBits(w, mask, 32);
    AndBounded(w, mask);
  }

  // ---- memory ----

  /** Bytes that were never written read as zero. */
  type Memory = map<int, Byte>

  function ByteAt(m: Memory, a: int): Byte {
    if a in m then m[a] else 0
  }

  /** The address of byte `i` of the word at `a`; addresses wrap. */
  function Lane(a: int, i: int): (b: int)
    ensures 0 <= b < WORD
  {
    Word(a + i)
  }

  function LoadWord(m: Memory, a: int): (w: int)
    ensures 0 <= w < WORD
  {
    ByteAt(m, Lane(a, 0)) + 0x100 * ByteAt(m, Lane(a, 1))
    + 0x1_0000 * ByteAt(m, Lane(a, 2)) + 0x100_0000 * ByteAt(m, Lane(a, 3))
  }

  /** The unsigned number of one, two or four bytes at `a`. */
  function LoadBytes(m: Memory, a: int, size: nat): (w: int)
    ensures 0 <= w < WORD
    ensures size == 1 ==> w < 0x100
    ensures size == 2 ==> w < 0x1_0000
    ensures size == 4 ==> w == LoadWord(m, a)
  {
    if size == 1 then ByteAt(m, Lane(a, 0))
    else if size == 2 then ByteAt(m, Lane(a, 0)) + 0x100 * ByteAt(m, Lane(a, 1))
    else LoadWord(m, a)
  }

  /** Sign extension of a narrow number to a word; zero extension otherwise. */
  function Extend(v: int, size: nat, signed: bool): int {
    var half := if size == 1 then 0x80 else 0x8000;
    if signed && v >= half then Word(v - 2 * half) else v
  }

  function StoreWord(m: Memory, a: int, w: int): Memory
    requires 0 <= w < WORD
  {
    m[Lane(a, 0) := w % 0x100][Lane(a, 1) := w / 0x100 % 0x100]
     [Lane(a, 2) := w / 0x1_0000 % 0x100][Lane(a, 3) := w / 0x100_0000]
  }

  /** No byte of the word at `a` is a byte of the word at `b`. */
  ghost predicate Apart(a: int, b: int) {
    forall i, j :: 0 <= i < 4 && 0 <= j < 4 ==> Lane(a, i) != Lane(b, j)
  }

  lemma LanesDistinct(a: int, i: int, j: int)
    requires 0 <= i < j < 4
    ensures Lane(a, i) != Lane(a, j)
  {
    var q := (a + i) / WORD;
    assert a + i == WORD * q + Lane(a, i);
    if Lane(a, i) + (j - i) < WORD {
      DivModUnique(a + j, WORD, q, Lane(a, i) + (j - i));
    } else {
      DivModUnique(a + j, WORD, q + 1, Lane(a, i) + (j - i) - WORD);
    }
  }

  lemma BytesOfWord(w: int)
    requires 0 <= w < WORD
    ensures w == w % 0x100 + 0x100 * (w / 0x100 % 0x100) + 0x1_0000 * (w / 0x1_0000 % 0x100)
            + 0x100_0000 * (w / 0x100_0000)
  {
    var h, q := w / 0x100, w / 0x1_0000;
    DivModUnique(w, 0x1_0000, h / 0x100, h % 0x100 * 0x100 + w % 0x100);
    DivModUnique(w, 0x100_0000, q / 0x100, q % 0x100 * 0x1_0000 + w % 0x1_0000);
  }

  lemma LoadAfterStore(m: Memory, a: int, w: int)
    requires 0 <= w < WORD
    ensures LoadWord(StoreWord(m, a, w), a) == w
  {
    LanesDistinct(a, 0, 1); LanesDistinct(a, 0, 2); LanesDistinct(a, 0, 3);
    LanesDistinct(a, 1, 2); LanesDistinct(a, 1, 3); LanesDistinct(a, 2, 3);
    BytesOfWord(w);
  }

  lemma LoadAfterStoreApart(m: Memory, a: int, w: int, b: int)
    requires 0 <= w < WORD
    requires Apart(a, b)
    ensures LoadWord(StoreWord(m, a, w), b) == LoadWord(m, b)
  {
    var n := StoreWord(m, a, w);
    forall j | 0 <= j < 4
      ensures ByteAt(n, Lane(b, j)) == ByteAt(m, Lane(b, j))
    {
      assert Lane(a, 0) != Lane(b, j) && Lane(a, 1) != Lane(b, j);
      assert Lane(a, 2) != Lane(b, j) && Lane(a, 3) != Lane(b, j);
    }
  }
}
