/**
 The CRC of section 8 of RFC 1952, by table and by definition.
 */
module Crc32 {

  /*
   The definition divides the message, one bit at a time and least significant bit first, by the reflected
   polynomial 0xedb88320. The code looks a whole byte up in a 256-entry table.
   */

  import opened Prelude
  import opened Iteration
  import opened Division
  import ByteBits

  const POLYNOMIAL: bv32 := 0xedb88320
  const ALL_ONES: bv32 := 0xffffffff

  function Xor(x: bv32, y: bv32): bv32 { x ^ y }

  function LowBit(x: bv32): bv32 { x & 1 }

  function Half(x: bv32): bv32 { x >> 1 }

  predicate Odd(x: bv32) { x & 1 == 1 }

  const REGISTERS: Words<bv32> := Words(Xor, Half, LowBit, Odd, POLYNOMIAL)

  /** A byte as a register value. */
  function Word(b: byte): bv32 { ByteBits.ToWord(b, 8) }

  // ----- the definition

  /** The bits of a byte, least significant first. */
  function BitsOf(b: byte): seq<bv32> {
    Digits(LowBit, Half, Word(b), 8)
  }

  function MessageBits(data: Bytes): seq<bv32> {
    Flatten(BitsOf, data)
  }

  /** The register after dividing by the bits of a message. */
  function Divide(crc: bv32, bits: seq<bv32>): bv32 {
    Fold(REGISTERS.DivideBit, crc, bits)
  }

  /** The CRC of a message, by polynomial division. */
  function Crc(data: Bytes): bv32 {
    Xor(Divide(ALL_ONES, MessageBits(data)), ALL_ONES)
  }

  // ----- the table

  ghost predicate IsTable(t: seq<bv32>) {
    |t| == 256 && forall n: byte :: t[n] == Iterate(REGISTERS.Shift, Word(n), 8)
  }

  method BuildTable() returns (table: seq<bv32>)
    ensures IsTable(table)
  {
    table := Tabulate(Word, REGISTERS.Shift, 8);
  }

  // ----- the register words obey the laws of polynomial arithmetic

  lemma XorAssociates()
    ensures Associates(Xor)
  {
  }

  lemma XorExchanges()
    ensures Exchanges(Xor)
  {
  }

  lemma XorCancels()
    ensures Cancels(Xor)
  {
  }

  lemma HalfDistributes()
    ensures Distributes(Xor, Half)
  {
  }

  lemma XorAddsParity()
    ensures AddsParity(Xor, Odd)
  {
  }

  lemma LowBitKeepsParity()
    ensures KeepsParity(Odd, LowBit)
  {
  }

  lemma RegistersObeyLaws()
    ensures REGISTERS.Laws()
  {
    XorAssociates();
    XorExchanges();
    XorCancels();
    HalfDistributes();
    XorAddsParity();
    LowBitKeepsParity();
  }

  // ----- one byte at a time

  lemma HalvesOfHigh(x: bv32)
    requires x & 0xff == 0
    ensures !Odd(x) && !Odd(Half(x)) && !Odd(Half(Half(x))) && !Odd(Half(Half(Half(x))))
    ensures var y := Half(Half(Half(Half(x))));
            && !Odd(y) && !Odd(Half(y)) && !Odd(Half(Half(y))) && !Odd(Half(Half(Half(y))))
            && Half(Half(Half(Half(y)))) == x >> 8
  {
  }

  /** Eight steps on a register whose low byte is clear only shift it. */
  lemma ShiftHigh(x: bv32)
    requires x & 0xff == 0
    ensures Iterate(REGISTERS.Shift, x, 8) == x >> 8
  {
    HalvesOfHigh(x);
    Iterate8(REGISTERS.Shift, x);
  }

  lemma HalfOfByte(x: bv32)
    requires x <= 0xff
    ensures Half(Half(Half(Half(Half(Half(Half(Half(x)))))))) == 0
  {
  }

  lemma SplitLowByte(x: bv32)
    ensures x == Xor(x & 0xff, x & 0xffffff00)
    ensures (x & 0xffffff00) & 0xff == 0
    ensures (x & 0xffffff00) >> 8 == x >> 8
  {
  }

  /** Looking the low byte up and shifting the rest is eight steps on the whole register. */
  lemma Lookup(x: bv32)
    ensures Xor(Iterate(REGISTERS.Shift, x & 0xff, 8), x >> 8) == Iterate(REGISTERS.Shift, x, 8)
  {
    SplitLowByte(x);
    RegistersObeyLaws();
    REGISTERS.ShiftIsLinear();
    IterateLinear(Xor, REGISTERS.Shift, x & 0xff, x & 0xffffff00, 8);
    ShiftHigh(x & 0xffffff00);
  }

  lemma XorZero(x: bv32)
    ensures Xor(x, 0) == x
  {
  }

  lemma DivideWord(crc: bv32, w: bv32)
    requires w <= 0xff
    ensures Divide(crc, Digits(LowBit, Half, w, 8)) == Iterate(REGISTERS.Shift, Xor(crc, w), 8)
  {
    RegistersObeyLaws();
    REGISTERS.DivisionFeedsBits();
    FoldDigits(Xor, REGISTERS.DivideBit, REGISTERS.Shift, LowBit, Half, crc, w, 8);
    Iterate8(Half, w);
    HalfOfByte(w);
    XorZero(Divide(crc, Digits(LowBit, Half, w, 8)));
  }

  /** Dividing by the eight bits of a byte is eight steps on the register with the byte mixed in. */
  lemma DivideByte(crc: bv32, b: byte)
    ensures Divide(crc, BitsOf(b)) == Iterate(REGISTERS.Shift, Xor(crc, Word(b)), 8)
  {
    ByteBits.WordIsSmall(b);
    DivideWord(crc, Word(b));
  }

  lemma SmallShiftsOut(crc: bv32, w: bv32)
    requires w <= 0xff
    ensures Xor(crc, w) >> 8 == crc >> 8
  {
  }

  /** The body of the code's loop: one lookup, one shift. */
  function Step(table: seq<bv32>, crc: bv32, b: byte): bv32 {
    var index := ByteBits.LowByte(Xor(crc, Word(b)));
    var lookup := if index < |table| then table[index] else 0;
    Xor(lookup, crc >> 8)
  }

  /** One lookup divides by the eight bits of a byte. */
  lemma StepDividesByte(table: seq<bv32>, crc: bv32, b: byte)
    requires IsTable(table)
    ensures Step(table, crc, b) == Divide(crc, BitsOf(b))
  {
    ByteBits.LowByteSurvives(Xor(crc, Word(b)));
    DivideByte(crc, b);
    Lookup(Xor(crc, Word(b)));
    ByteBits.WordIsSmall(b);
    SmallShiftsOut(crc, Word(b));
  }

  lemma FoldSteps(table: seq<bv32>, step: (bv32, byte) -> bv32, crc: bv32, data: Bytes)
    requires IsTable(table) && forall crc, b :: step(crc, b) == Step(table, crc, b)
    ensures Fold(step, crc, data) == Divide(crc, MessageBits(data))
  {
    forall crc, b ensures step(crc, b) == Fold(REGISTERS.DivideBit, crc, BitsOf(b)) {
      StepDividesByte(table, crc, b);
    }
    FoldFlatten(REGISTERS.DivideBit, BitsOf, step, crc, data);
  }

  /** The table-driven loop computes the CRC of every byte sequence. */
  method ByTable(data: Bytes) returns (crc: bv32)
    ensures crc == Crc(data)
  {
    var table := BuildTable();
    var step := (crc: bv32, b: byte) => Step(table, crc, b);
    crc := ForEach(step, ALL_ONES, data);
    FoldSteps(table, step, ALL_ONES, data);
    crc := Xor(crc, ALL_ONES);
  }

  /** The CRC as the 32-bit unsigned number that the archive formats store. */
  function Checksum(data: Bytes): (n: nat)
    ensures n < 0x1_0000_0000
  {
    Crc(data) as int
  }

  // ----- what a checksum is for

  lemma XorInjective(x: bv32, y: bv32, z: bv32)
    requires Xor(x, z) == Xor(y, z)
    ensures x == y
  {
  }

  lemma XorSwap(x: bv32, y: bv32)
    ensures Xor(x, y) == Xor(y, x)
  {
  }

  /** The top bit of a shifted register tells which branch was taken. */
  lemma ShiftInjective(x: bv32, y: bv32)
    requires REGISTERS.Shift(x) == REGISTERS.Shift(y)
    ensures x == y
  {
  }

  /** Equal registers after the same byte were equal before it. */
  lemma DivideByteInjective(s: bv32, t: bv32, a: byte, b: byte)
    requires Divide(s, BitsOf(a)) == Divide(t, BitsOf(b))
    ensures Xor(s, Word(a)) == Xor(t, Word(b))
  {
    DivideByte(s, a);
    DivideByte(t, b);
    forall x, y | REGISTERS.Shift(x) == REGISTERS.Shift(y) ensures x == y {
      ShiftInjective(x, y);
    }
    IterateInjective(REGISTERS.Shift, Xor(s, Word(a)), Xor(t, Word(b)), 8);
  }

  lemma {:induction false} RegisterRecovered(s: bv32, t: bv32, data: Bytes)
    requires Divide(s, MessageBits(data)) == Divide(t, MessageBits(data))
    ensures s == t
    decreases |data|
  {
    if data != [] {
      FoldConcat(REGISTERS.DivideBit, s, BitsOf(data[0]), MessageBits(data[1..]));
      FoldConcat(REGISTERS.DivideBit, t, BitsOf(data[0]), MessageBits(data[1..]));
      RegisterRecovered(Divide(s, BitsOf(data[0])), Divide(t, BitsOf(data[0])), data[1..]);
      DivideByteInjective(s, t, data[0], data[0]);
      XorInjective(s, t, Word(data[0]));
    }
  }

  lemma RegisterAfter(before: Bytes, b: byte, after: Bytes)
    ensures Divide(ALL_ONES, MessageBits(before + [b] + after)) ==
            Divide(Divide(Divide(ALL_ONES, MessageBits(before)), BitsOf(b)), MessageBits(after))
  {
    FlattenConcat(BitsOf, before + [b], after);
    FlattenConcat(BitsOf, before, [b]);
    assert Flatten(BitsOf, [b]) == BitsOf(b) + Flatten(BitsOf, [b][1..]) == BitsOf(b);
    FoldConcat(REGISTERS.DivideBit, ALL_ONES, MessageBits(before + [b]), MessageBits(after));
    FoldConcat(REGISTERS.DivideBit, ALL_ONES, MessageBits(before), BitsOf(b));
  }

  /** No change confined to one byte of a message leaves its checksum as it was. */
  lemma OneByteChangeIsDetected(before: Bytes, a: byte, b: byte, after: Bytes)
    requires a != b
    ensures Crc(before + [a] + after) != Crc(before + [b] + after)
  {
    if Crc(before + [a] + after) == Crc(before + [b] + after) {
      RegisterAfter(before, a, after);
      RegisterAfter(before, b, after);
      var s := Divide(ALL_ONES, MessageBits(before));
      var sa, sb := Divide(s, BitsOf(a)), Divide(s, BitsOf(b));
      XorInjective(Divide(sa, MessageBits(after)), Divide(sb, MessageBits(after)), ALL_ONES);
      RegisterRecovered(sa, sb, after);
      DivideByteInjective(s, s, a, b);
      XorSwap(s, Word(a));
      XorSwap(s, Word(b));
      XorInjective(Word(a), Word(b), s);
      ByteBits.WordInjective(a, b);
    }
  }

  lemma WordAsIntInjective(x: bv32, y: bv32)
    requires x as int == y as int
    ensures x == y
  {
    assert (x as int) as bv32 == x && (y as int) as bv32 == y;
  }

  lemma ChecksumInjective(a: Bytes, b: Bytes)
    requires Crc(a) != Crc(b)
    ensures Checksum(a) != Checksum(b)
  {
    if Checksum(a) == Checksum(b) {
      WordAsIntInjective(Crc(a), Crc(b));
    }
  }

  lemma ShiftsOf(x: bv32)
    ensures REGISTERS.Shift(x) == if x & 1 == 1 then (x >> 1) ^ 0xedb88320 else x >> 1
  {
    XorSwap(x >> 1, POLYNOMIAL);
  }

  /** The letter a, bit by bit. */
  lemma EightShifts()
    ensures Iterate(REGISTERS.Shift, 0xffffff9e, 8) == 0x174841bc
  {
    Iterate8(REGISTERS.Shift, 0xffffff9e);
    ShiftsOf(0xffffff9e);
    ShiftsOf(0x7fffffcf);
    ShiftsOf(0xd2477cc7);
    ShiftsOf(0x849b3d43);
    ShiftsOf(0xaff51d81);
    ShiftsOf(0xba420de0);
    ShiftsOf(0x5d2106f0);
    ShiftsOf(0x2e908378);
  }

  lemma LetterWord()
    ensures Xor(ALL_ONES, Word(0x61)) == 0xffffff9e
  {
    assert ByteBits.ToWord(0, 1) == 0;
    assert ByteBits.ToWord(1, 2) == 1;
    assert ByteBits.ToWord(3, 3) == 3;
    assert ByteBits.ToWord(6, 4) == 6;
    assert ByteBits.ToWord(0xc, 5) == 0xc;
    assert ByteBits.ToWord(0x18, 6) == 0x18;
    assert ByteBits.ToWord(0x30, 7) == 0x30;
    assert ByteBits.ToWord(0x61, 8) == 0x61;
  }

  /** Known answers: the CRC of nothing and of the letter a. */
  lemma KnownAnswers()
    ensures Crc([]) == 0 && Crc([0x61]) == 0xe8b7be43
  {
    hide ByteBits.ToWord, Word;
    assert MessageBits([0x61]) == BitsOf(0x61) by {
      assert [0x61][1..] == [];
    }
    DivideByte(ALL_ONES, 0x61);
    LetterWord();
    EightShifts();
    FinalXor();
  }

  lemma FinalXor()
    ensures Xor(ALL_ONES, ALL_ONES) == 0 && Xor(0x174841bc, ALL_ONES) == 0xe8b7be43
  {
  }
}
