/**
 Numbers as register bits and back, so that the proof about the CRC passes between integers and bit vectors
 one bit at a time.
 */
module ByteBits {

  function Bit(n: nat): bv32 {
    if n % 2 == 1 then 1 else 0
  }

  /** A register with bit `b` below the bits of `x`. */
  function Below(b: bv32, x: bv32): bv32 {
    b | (x << 1)
  }

  /** The low `k` bits of a number, as a register. */
  function ToWord(n: nat, k: nat): bv32
    decreases k
  {
    if k == 0 then 0 else Below(Bit(n), ToWord(n / 2, k - 1))
  }

  /** The low `k` bits of a register, as a number. */
  function ToNumber(w: bv32, k: nat): nat
    decreases k
  {
    if k == 0 then 0 else (if w & 1 == 1 then 1 else 0) + 2 * ToNumber(w >> 1, k - 1)
  }

  /** The register whose low `k` bits are set. */
  function Mask(k: nat): bv32 {
    if k == 0 then 0 else Below(1, Mask(k - 1))
  }

  lemma MaskValues()
    ensures Mask(0) == 0 && Mask(1) == 1 && Mask(2) == 3 && Mask(3) == 7 && Mask(4) == 0xf
    ensures Mask(5) == 0x1f && Mask(6) == 0x3f && Mask(7) == 0x7f && Mask(8) == 0xff
  {
    assert Mask(1) == 1 && Mask(2) == 3;
    assert Mask(3) == 7 && Mask(4) == 0xf;
    assert Mask(5) == 0x1f && Mask(6) == 0x3f;
  }

  lemma MaskIsSmall(k: nat)
    requires k <= 7
    ensures Mask(k) <= 0x7f
  {
    MaskValues();
    assert k == 0 || k == 1 || k == 2 || k == 3 || k == 4 || k == 5 || k == 6 || k == 7;
  }

  lemma OneBit(w: bv32)
    ensures w & 1 == 0 || w & 1 == 1
  {
  }

  lemma BelowMasks(w: bv32, m: bv32)
    requires m <= 0x7f
    ensures Below(w & 1, (w >> 1) & m) == w & Below(1, m)
  {
  }

  lemma BelowGrows(b: bv32, x: bv32, m: bv32)
    requires x <= m <= 0x7f && b <= 1
    ensures Below(b, x) <= Below(1, m)
  {
  }

  lemma BelowSplits(b: bv32, x: bv32)
    requires x <= 0x7f && b <= 1
    ensures Below(b, x) & 1 == b && Below(b, x) >> 1 == x
  {
  }

  lemma NumberStep(w: bv32, k: nat)
    requires k > 0
    ensures ToNumber(w, k) / 2 == ToNumber(w >> 1, k - 1) && Bit(ToNumber(w, k)) == w & 1
  {
    OneBit(w);
  }

  lemma {:induction false} WordOfNumber(w: bv32, k: nat)
    requires k <= 8
    ensures ToWord(ToNumber(w, k), k) == w & Mask(k)
    decreases k
  {
    if k > 0 {
      NumberStep(w, k);
      WordOfNumber(w >> 1, k - 1);
      MaskIsSmall(k - 1);
      BelowMasks(w, Mask(k - 1));
    }
  }

  lemma {:induction false} ToWordIsSmall(n: nat, k: nat)
    requires k <= 8
    ensures ToWord(n, k) <= Mask(k)
    decreases k
  {
    if k > 0 {
      ToWordIsSmall(n / 2, k - 1);
      MaskIsSmall(k - 1);
      BelowGrows(Bit(n), ToWord(n / 2, k - 1), Mask(k - 1));
    }
  }

  /** A number below 2^k, said without powers. */
  predicate HasBits(n: nat, k: nat)
    decreases k
  {
    if k == 0 then n == 0 else HasBits(n / 2, k - 1)
  }

  lemma {:induction false} NumberOfWord(n: nat, k: nat)
    requires k <= 8 && HasBits(n, k)
    ensures ToNumber(ToWord(n, k), k) == n
  {
    if k > 0 {
      var x := ToWord(n / 2, k - 1);
      NumberOfWord(n / 2, k - 1);
      ToWordIsSmall(n / 2, k - 1);
      MaskIsSmall(k - 1);
      BelowSplits(Bit(n), x);
    }
  }

  lemma ByteHasBits(n: nat)
    requires n < 256
    ensures HasBits(n, 8)
  {
    var n2 := n / 2 / 2;
    var n4 := n2 / 2 / 2;
    var n6 := n4 / 2 / 2;
    assert HasBits(n, 8) == HasBits(n2, 6) && HasBits(n2, 6) == HasBits(n4, 4);
    assert HasBits(n4, 4) == HasBits(n6, 2) && HasBits(n6, 2) == HasBits(n6 / 2 / 2, 0);
  }

  /** Distinct bytes are distinct registers. */
  lemma WordInjective(a: nat, b: nat)
    requires a < 256 && b < 256 && ToWord(a, 8) == ToWord(b, 8)
    ensures a == b
  {
    ByteHasBits(a);
    ByteHasBits(b);
    NumberOfWord(a, 8);
    NumberOfWord(b, 8);
  }

  lemma WordIsSmall(n: nat)
    ensures ToWord(n, 8) <= 0xff
  {
    ToWordIsSmall(n, 8);
    MaskValues();
  }

  lemma {:induction false} NumberIsSmall(w: bv32, k: nat)
    ensures HasBits(ToNumber(w, k), k)
    decreases k
  {
    if k > 0 {
      NumberIsSmall(w >> 1, k - 1);
      assert ToNumber(w, k) / 2 == ToNumber(w >> 1, k - 1);
    }
  }

  lemma BitsBelowByte(n: nat)
    requires HasBits(n, 8)
    ensures n < 256
  {
    var n2 := n / 2 / 2;
    var n4 := n2 / 2 / 2;
    var n6 := n4 / 2 / 2;
    assert HasBits(n, 8) == HasBits(n2, 6) && HasBits(n2, 6) == HasBits(n4, 4);
    assert HasBits(n4, 4) == HasBits(n6, 2) && HasBits(n6, 2) == HasBits(n6 / 2 / 2, 0);
  }

  /** The low byte of a register, as a table index. */
  function LowByte(w: bv32): (n: nat)
    ensures n < 256
  {
    NumberIsSmall(w, 8);
    BitsBelowByte(ToNumber(w, 8));
    ToNumber(w, 8)
  }

  lemma LowByteSurvives(w: bv32)
    ensures ToWord(LowByte(w), 8) == w & 0xff
  {
    WordOfNumber(w, 8);
    MaskValues();
  }
}
