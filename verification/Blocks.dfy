/** Disk blocks as the kernel sees them: BSIZE bytes, also read as an array of
    little-endian 32-bit words (`(uint*)bp->data`) and, in the free map, as an
    array of bits. */
module Blocks {

  const BSIZE := 1024
  const WORDS := 256           // BSIZE / sizeof(uint)
  const BPB := 8192            // BSIZE * 8
  const UINT_LIMIT := 0x1_0000_0000

  type byte = x: int | 0 <= x < 256
  type uint = x: int | 0 <= x < 0x1_0000_0000
  type Block = b: seq<byte> | |b| == 1024 witness seq(1024, i => 0)

  function ZeroBlock(): Block {
    seq(1024, i => 0)
  }

  /** The n block numbers from lo on. */
  function BlockRange(lo: nat, n: nat): (r: set<nat>)
    ensures |r| == n
    ensures forall x :: x in r <==> lo <= x < lo + n
  {
    if n == 0 then {} else BlockRange(lo, n - 1) + {lo + n - 1}
  }

  // ---- words ------------------------------------------------------------

  function Word(b: Block, j: nat): uint
    requires j < WORDS
  {
    var b0: int, b1: int, b2: int, b3: int := b[4 * j], b[4 * j + 1], b[4 * j + 2], b[4 * j + 3];
    b0 + 0x100 * b1 + 0x1_0000 * b2 + 0x100_0000 * b3
  }

  function PutWord(b: Block, j: nat, v: uint): Block
    requires j < WORDS
  {
    b[4 * j := v % 0x100]
     [4 * j + 1 := v / 0x100 % 0x100]
     [4 * j + 2 := v / 0x1_0000 % 0x100]
     [4 * j + 3 := v / 0x100_0000]
  }

  lemma WordOfPutWord(b: Block, j: nat, v: uint, k: nat)
    requires j < WORDS && k < WORDS
    ensures Word(PutWord(b, j, v), k) == if k == j then v else Word(b, k)
  {
    if k == j {
      BytesOfWord(v);
    }
  }

  lemma BytesOfWord(v: uint)
    ensures v == v % 0x100 + 0x100 * (v / 0x100 % 0x100) + 0x1_0000 * (v / 0x1_0000 % 0x100)
                 + 0x100_0000 * (v / 0x100_0000)
  {
  }

  lemma WordOfZero(j: nat)
    requires j < WORDS
    ensures Word(ZeroBlock(), j) == 0
  {
  }

  // ---- bits ---------------------------------------------------------------

  /** 1 << k */
  function Pow2(k: nat): (r: nat)
    ensures r >= 1
  {
    if k == 0 then 1 else 2 * Pow2(k - 1)
  }

  /** (x & (1 << k)) != 0 */
  predicate BitOf(x: nat, k: nat) {
    x / Pow2(k) % 2 == 1
  }

  /** x | (1 << k) */
  function SetBitOf(x: nat, k: nat): nat {
    if BitOf(x, k) then x else x + Pow2(k)
  }

  /** x & ~(1 << k) */
  function ClearBitOf(x: nat, k: nat): (r: int) {
    if BitOf(x, k) then x - Pow2(k) else x
  }

  lemma {:induction false} BitOfHalf(x: nat, k: nat)
    requires k > 0
    ensures BitOf(x, k) == BitOf(x / 2, k - 1)
  {
    DivDiv(x, Pow2(k - 1));
  }

  lemma DivDiv(x: nat, d: nat)
    requires d > 0
    ensures x / (2 * d) == x / 2 / d
  {
    var q := x / 2 / d;
    assert q * d <= x / 2 < q * d + d;
    assert q * (2 * d) <= x < q * (2 * d) + 2 * d;
    DivUnique(x, 2 * d, q);
  }

  lemma DivUnique(x: nat, d: nat, q: nat)
    requires d > 0 && q * d <= x < q * d + d
    ensures x / d == q
  {
    var p := x / d;
    assert x == p * d + x % d;
    assert (q - p) * d == q * d - p * d;
    var a := q - p;
    assert 0 - d < a * d < d;
    MulAtLeast(d, a);
    MulAtLeast(d, -a);
  }

  lemma MulAtLeast(d: nat, a: int)
    ensures a >= 1 ==> a * d >= d
    ensures -a * d == -(a * d)
  {
  }

  lemma BitZero(x: nat)
    ensures BitOf(x, 0) <==> x % 2 == 1
    ensures SetBitOf(x, 0) == x / 2 * 2 + 1
    ensures ClearBitOf(x, 0) == x / 2 * 2
  {
  }

  lemma SetBitHalf(x: nat, k: nat)
    requires k > 0
    ensures SetBitOf(x, k) == 2 * SetBitOf(x / 2, k - 1) + x % 2
  {
    BitOfHalf(x, k);
    hide BitOf;
  }

  lemma ClearBitHalf(x: nat, k: nat)
    requires k > 0
    ensures ClearBitOf(x, k) == 2 * ClearBitOf(x / 2, k - 1) + x % 2
  {
    BitOfHalf(x, k);
    hide BitOf;
  }

  /** Setting bit k sets bit k and no other. */
  lemma {:induction false} SetBitOfBits(x: nat, k: nat, j: nat)
    ensures BitOf(SetBitOf(x, k), j) == (j == k || BitOf(x, j))
  {
    hide BitOf; hide SetBitOf; hide Pow2;
    BitZero(x);
    BitZero(SetBitOf(x, k));
    if k > 0 { SetBitHalf(x, k); }
    if j > 0 {
      BitOfHalf(x, j);
      BitOfHalf(SetBitOf(x, k), j);
      if k > 0 { SetBitOfBits(x / 2, k - 1, j - 1); }
    }
  }

  /** Clearing bit k clears bit k and no other. */
  lemma {:induction false} ClearBitOfBits(x: nat, k: nat, j: nat)
    ensures ClearBitOf(x, k) >= 0
    ensures BitOf(ClearBitOf(x, k), j) == (j != k && BitOf(x, j))
  {
    hide BitOf; hide ClearBitOf; hide Pow2;
    BitZero(x);
    if k > 0 {
      ClearBitHalf(x, k);
      ClearBitOfBits(x / 2, k - 1, if j > 0 then j - 1 else 0);
    }
    BitZero(ClearBitOf(x, k));
    if j > 0 {
      BitOfHalf(x, j);
      BitOfHalf(ClearBitOf(x, k), j);
    }
  }

  lemma PowStep(m: nat)
    requires m > 0
    ensures Pow2(m) == 2 * Pow2(m - 1)
  {
  }

  lemma {:induction false} SetBitOfBound(x: nat, k: nat, m: nat)
    requires x < Pow2(m) && k < m
    ensures SetBitOf(x, k) < Pow2(m)
  {
    hide BitOf; hide SetBitOf; hide Pow2;
    PowStep(m);
    if k > 0 {
      SetBitHalf(x, k);
      SetBitOfBound(x / 2, k - 1, m - 1);
    } else {
      BitZero(x);
    }
  }

  /** Bit i of a block, as in `bp->data[i/8] & (1 << (i % 8))`. */
  predicate Bit(b: Block, i: nat)
    requires i < BPB
  {
    BitOf(b[i / 8], i % 8)
  }

  function SetBit(b: Block, i: nat): Block
    requires i < BPB
  {
    SetBitOfBound(b[i / 8], i % 8, 8);
    assert Pow2(8) == 256;
    b[i / 8 := SetBitOf(b[i / 8], i % 8)]
  }

  function ClearBit(b: Block, i: nat): Block
    requires i < BPB
  {
    ClearBitOfBits(b[i / 8], i % 8, 0);
    b[i / 8 := ClearBitOf(b[i / 8], i % 8)]
  }

  lemma BitOfSetBit(b: Block, i: nat, j: nat)
    requires i < BPB && j < BPB
    ensures Bit(SetBit(b, i), j) == (i == j || Bit(b, j))
  {
    SetBitOfBits(b[i / 8], i % 8, j % 8);
  }

  lemma BitOfClearBit(b: Block, i: nat, j: nat)
    requires i < BPB && j < BPB
    ensures Bit(ClearBit(b, i), j) == (i != j && Bit(b, j))
  {
    ClearBitOfBits(b[i / 8], i % 8, j % 8);
  }
}
