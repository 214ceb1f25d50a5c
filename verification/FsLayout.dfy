/** Blocks of bytes as fs.c reads them: as bitmap blocks (eight bits a byte, lowest first) and
    as indirect blocks (256 little-endian 32-bit words). */
module FsLayout {
  const BSIZE: nat := 1024
  const BPB: nat := BSIZE * 8
  const NDIRECT: nat := 12
  const NINDIRECT: nat := BSIZE / 4
  const MAXFILE: nat := NDIRECT + NINDIRECT
  const UINT: nat := 0x1_0000_0000

  type byte = x: int | 0 <= x < 256
  type Block = b: seq<byte> | |b| == BSIZE witness seq(BSIZE, i => 0)

  function Zero(): Block { seq(BSIZE, i => 0) }

  // ---- bits ----

  predicate ByteBit(v: nat, k: nat) {
    if k == 0 then v % 2 == 1 else ByteBit(v / 2, k - 1)
  }

  /** v with bit k set (v | 1 << k) or cleared (v & ~(1 << k)). */
  function WithByteBit(v: nat, k: nat, on: bool): nat
    decreases k
  {
    if k == 0 then v - v % 2 + (if on then 1 else 0) else v % 2 + 2 * WithByteBit(v / 2, k - 1, on)
  }

  function Pow2(n: nat): (p: nat)
    ensures p > 0
  {
    if n == 0 then 1 else 2 * Pow2(n - 1)
  }

  lemma {:induction false} WithByteBitRange(v: nat, k: nat, on: bool, n: nat)
    ensures v < Pow2(n) && k < n ==> WithByteBit(v, k, on) < Pow2(n)
    ensures Pow2(8) == 256
    decreases k
  {
    assert Pow2(8) == 256 by {
      assert Pow2(2) == 4;
      assert Pow2(5) == 32;
    }
    if v < Pow2(n) && 0 < k < n {
      WithByteBitRange(v / 2, k - 1, on, n - 1);
    }
  }

  lemma {:induction false} ByteBitWith(v: nat, k: nat, on: bool, j: nat)
    ensures ByteBit(WithByteBit(v, k, on), j) == if j == k then on else ByteBit(v, j)
    decreases k
  {
    if k > 0 && j > 0 {
      ByteBitWith(v / 2, k - 1, on, j - 1);
      assert WithByteBit(v, k, on) / 2 == WithByteBit(v / 2, k - 1, on);
    } else if j > 0 {
      assert WithByteBit(v, k, on) / 2 == v / 2;
    }
  }

  lemma {:induction false} ByteBitArith(v: nat, k: nat)
    ensures ByteBit(v, k) <==> v / Pow2(k) % 2 == 1
    decreases k
  {
    if k > 0 {
      ByteBitArith(v / 2, k - 1);
      DivTwice(v, Pow2(k - 1));
    }
  }

  lemma DivTwice(v: nat, d: nat)
    requires d > 0
    ensures v / (2 * d) == v / 2 / d
  {
    var q := v / 2 / d;
    assert v / 2 == q * d + v / 2 % d;
    assert v == (2 * d) * q + (2 * (v / 2 % d) + v % 2);
    QuotientIs(v, 2 * d, q, 2 * (v / 2 % d) + v % 2);
  }

  lemma QuotientIs(v: nat, d: nat, q: nat, r: nat)
    requires r < d && v == d * q + r
    ensures v / d == q
  {
    var q' := v / d;
    assert v == d * q' + v % d;
    Multiples(d, q, q');
    Multiples(d, q', q);
  }

  lemma Multiples(d: nat, a: nat, b: nat)
    ensures a < b ==> d * a + d <= d * b
  {
    if a < b {
      var k := b - a - 1;
      assert d * b == d * (a + 1 + k) == d * a + d + d * k;
    }
  }

  predicate Bit(b: Block, i: nat)
    requires i < BPB
  {
    ByteBit(b[i / 8], i % 8)
  }

  function WithBit(b: Block, i: nat, on: bool): Block
    requires i < BPB
  {
    WithByteBitRange(b[i / 8], i % 8, on, 8);
    b[i / 8 := WithByteBit(b[i / 8], i % 8, on)]
  }

  /** Bit i of a block is bit i % 8 of byte i / 8, the lowest first. */
  lemma BitAt(b: Block, i: nat)
    requires i < BPB
    ensures Bit(b, i) <==> b[i / 8] / Pow2(i % 8) % 2 == 1
  {
    ByteBitArith(b[i / 8], i % 8);
  }

  /** Setting or clearing a bit changes that bit only. */
  lemma BitWithBit(b: Block, i: nat, on: bool, j: nat)
    requires i < BPB && j < BPB
    ensures Bit(WithBit(b, i, on), j) == if j == i then on else Bit(b, j)
  {
    if j / 8 == i / 8 {
      ByteBitWith(b[i / 8], i % 8, on, j % 8);
      assert j % 8 == i % 8 ==> j == i;
    }
  }

  // ---- words ----

  function Word(b: Block, j: nat): nat
    requires j < NINDIRECT
  {
    var b0: nat, b1: nat, b2: nat, b3: nat := b[4 * j], b[4 * j + 1], b[4 * j + 2], b[4 * j + 3];
    b0 + 0x100 * b1 + 0x1_0000 * b2 + 0x100_0000 * b3
  }

  function WithWord(b: Block, j: nat, v: nat): Block
    requires j < NINDIRECT && v < UINT
  {
    b[4 * j := v % 0x100][4 * j + 1 := v / 0x100 % 0x100][4 * j + 2 := v / 0x1_0000 % 0x100][4 * j + 3 := v / 0x100_0000]
  }

  /** Storing a word changes that word only. */
  lemma WordWithWord(b: Block, j: nat, v: nat, k: nat)
    requires j < NINDIRECT && k < NINDIRECT && v < UINT
    ensures Word(WithWord(b, j, v), k) == if k == j then v else Word(b, k)
  {
    if k == j {
      Bytes4(v);
    }
  }

  /** A word is stored in four bytes, the lowest eight bits first. */
  lemma LittleEndian(b: Block, j: nat, v: nat, k: nat)
    requires j < NINDIRECT && v < UINT && k < 4
    ensures WithWord(b, j, v)[4 * j + k] == v / Pow2(8 * k) % 0x100
    ensures forall x :: 0 <= x < BSIZE && !(4 * j <= x < 4 * j + 4) ==> WithWord(b, j, v)[x] == b[x]
  {
    assert Pow2(8) == 0x100 by { WithByteBitRange(0, 0, true, 0); }
    assert Pow2(16) == 0x1_0000 by { Pow2Add(8, 8); }
    assert Pow2(24) == 0x100_0000 by { Pow2Add(8, 16); }
    assert v / 0x100_0000 < 0x100;
  }

  lemma {:induction false} Pow2Add(m: nat, n: nat)
    ensures Pow2(m + n) == Pow2(m) * Pow2(n)
  {
    if m > 0 {
      Pow2Add(m - 1, n);
      assert Pow2(m) * Pow2(n) == 2 * (Pow2(m - 1) * Pow2(n));
    }
  }

  lemma Bytes4(v: nat)
    ensures v % 0x100 + 0x100 * (v / 0x100 % 0x100) + 0x1_0000 * (v / 0x1_0000 % 0x100) + 0x100_0000 * (v / 0x100_0000) == v
  {
    assert v / 0x1_0000 == v / 0x100 / 0x100;
    assert v / 0x100_0000 == v / 0x1_0000 / 0x100;
  }
}
