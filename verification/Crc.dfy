/** The CRC-32 of the ZIP writer: its lookup table, the table-driven loop, and
    the polynomial division both compute (APPNOTE.TXT section 4.4.7). */
module Crc {

  type Byte = b: int | 0 <= b < 256

  const REFLECTED_POLYNOMIAL: bv32 := 0xEDB8_8320
  const POLYNOMIAL: bv32 := 0x04C1_1DB7
  const ALL_ONES: bv32 := 0xFFFF_FFFF

  // ---------------------------------------------------------- division, bit by bit

  predicate TopBit(reg: bv32) { reg & 0x8000_0000 != 0 }

  /** One step of long division by the generator polynomial: the register shifts
      in the next message bit and subtracts the generator when the bit that
      falls out differs from it. */
  function DivideBit(reg: bv32, bit: bool): bv32 {
    (reg << 1) ^ (if TopBit(reg) != bit then POLYNOMIAL else 0)
  }

  function Divide(reg: bv32, bits: seq<bool>): bv32
    decreases |bits|
  {
    if bits == [] then reg else Divide(DivideBit(reg, bits[0]), bits[1..])
  }

  /** The n lowest bits of a word, least significant first. */
  function LowBits(w: bv32, n: nat): seq<bool> {
    if n == 0 then [] else [Odd(w)] + LowBits(Half(w), n - 1)
  }

  /** A message sends each byte's least significant bit first. */
  function MessageBits(bytes: seq<Byte>): seq<bool> {
    if bytes == [] then [] else LowBits(bytes[0] as bv32, 8) + MessageBits(bytes[1..])
  }

  /** The bits of a word in reverse order. */
  function Reverse(x: bv32): bv32 {
    var a := ((x & 0x5555_5555) << 1) | ((x >> 1) & 0x5555_5555);
    var b := ((a & 0x3333_3333) << 2) | ((a >> 2) & 0x3333_3333);
    var c := ((b & 0x0F0F_0F0F) << 4) | ((b >> 4) & 0x0F0F_0F0F);
    var d := ((c & 0x00FF_00FF) << 8) | ((c >> 8) & 0x00FF_00FF);
    (d << 16) | (d >> 16)
  }

  /** The CRC-32 of APPNOTE.TXT: divide from an all-ones register, reflect the
      remainder and complement it. */
  function CrcOf(bytes: seq<Byte>): bv32 {
    Reverse(Divide(ALL_ONES, MessageBits(bytes))) ^ ALL_ONES
  }

  // ------------------------------------------------------------- the table's steps

  function Step(crc: bv32): bv32 {
    (crc >> 1) ^ (if crc & 1 == 1 then REFLECTED_POLYNOMIAL else 0)
  }

  function Steps(crc: bv32, n: nat): bv32
    decreases n
  {
    if n == 0 then crc else Steps(Step(crc), n - 1)
  }

  // The proofs below reason about these three operations by their laws only.

  function Xor(a: bv32, b: bv32): bv32 { a ^ b }

  function Half(x: bv32): bv32 { x >> 1 }

  predicate Odd(x: bv32) { x & 1 == 1 }

  function Halve(x: bv32, n: nat): bv32
    decreases n
  {
    if n == 0 then x else Halve(Half(x), n - 1)
  }

  predicate LowZero(x: bv32, n: nat)
    decreases n
  {
    n == 0 || (!Odd(x) && LowZero(Half(x), n - 1))
  }

  lemma XorHalf(a: bv32, b: bv32)
    ensures Half(Xor(a, b)) == Xor(Half(a), Half(b))
  {
  }

  lemma XorAssociates(a: bv32, b: bv32, c: bv32)
    ensures Xor(Xor(a, b), c) == Xor(a, Xor(b, c))
  {
  }

  lemma XorCommutes(a: bv32, b: bv32)
    ensures Xor(a, b) == Xor(b, a)
  {
  }

  lemma XorOdd(a: bv32, b: bv32)
    ensures Odd(Xor(a, b)) == (Odd(a) != Odd(b))
  {
  }

  function Correction(odd: bool): bv32 {
    if odd then REFLECTED_POLYNOMIAL else 0
  }

  lemma StepLaw(x: bv32)
    ensures Step(x) == Xor(Half(x), Correction(Odd(x)))
  {
  }

  /** Steps on a word are linear in a part of it whose low bits are zero. */
  lemma {:induction false} StepsEven(even: bv32, x: bv32, n: nat)
    requires LowZero(even, n)
    ensures Steps(Xor(even, x), n) == Xor(Halve(even, n), Steps(x, n))
    decreases n
  {
    hide Xor, Half, Odd, Step, Correction;
    if n > 0 {
      StepLaw(Xor(even, x));
      StepLaw(x);
      XorOdd(even, x);
      XorHalf(even, x);
      XorAssociates(Half(even), Half(x), Correction(Odd(x)));
      StepsEven(Half(even), Step(x), n - 1);
    }
  }

  function LowByte(x: bv32): bv32 { x & 0xFF }

  function HighBytes(x: bv32): bv32 { x & 0xFFFF_FF00 }

  lemma SplitLowByte(x: bv32)
    ensures x == Xor(HighBytes(x), LowByte(x))
  {
  }

  lemma ShiftEight(x: bv32)
    ensures (((((((x >> 1) >> 1) >> 1) >> 1) >> 1) >> 1) >> 1) >> 1 == x >> 8
  {
  }

  lemma HalveEight(x: bv32)
    ensures Halve(x, 8) == x >> 8
  {
    ShiftEight(x);
    var y := Half(Half(Half(Half(x))));
    assert Half(Half(Half(Half(y)))) == x >> 8;
    hide Half;
    assert Halve(x, 8) == Halve(Half(Half(x)), 6) == Halve(y, 4) == Halve(Half(Half(y)), 2);
  }

  /** A word whose low bits are zero is even, and its half has one zero bit less. */
  lemma ZeroLow(x: bv32)
    ensures x & 0xFF == 0 ==> !Odd(x) && Half(x) & 0x7F == 0
    ensures x & 0x7F == 0 ==> !Odd(x) && Half(x) & 0x3F == 0
    ensures x & 0x3F == 0 ==> !Odd(x) && Half(x) & 0x1F == 0
    ensures x & 0x1F == 0 ==> !Odd(x) && Half(x) & 0xF == 0
    ensures x & 0xF == 0 ==> !Odd(x) && Half(x) & 7 == 0
    ensures x & 7 == 0 ==> !Odd(x) && Half(x) & 3 == 0
    ensures x & 3 == 0 ==> !Odd(x) && Half(x) & 1 == 0
    ensures x & 1 == 0 ==> !Odd(x)
  {
  }

  lemma HighShifts(x: bv32)
    ensures HighBytes(x) >> 8 == x >> 8
    ensures LowByte(x) >> 8 == 0
    ensures HighBytes(x) & 0xFF == 0
  {
  }

  lemma HighPart(x: bv32)
    ensures HighBytes(x) >> 8 == x >> 8
    ensures LowZero(HighBytes(x), 8)
    ensures LowByte(x) >> 8 == 0
  {
    hide Odd, Half, HighBytes, LowByte;
    HighShifts(x);
    var e0 := HighBytes(x);
    ZeroLow(e0);
    var e1 := Half(e0);
    ZeroLow(e1);
    var e2 := Half(e1);
    ZeroLow(e2);
    var e3 := Half(e2);
    ZeroLow(e3);
    var e4 := Half(e3);
    ZeroLow(e4);
    var e5 := Half(e4);
    ZeroLow(e5);
    var e6 := Half(e5);
    ZeroLow(e6);
    var e7 := Half(e6);
    ZeroLow(e7);
    assert LowZero(e6, 2);
    assert LowZero(e4, 4);
    assert LowZero(e2, 6);
  }

  // ------------------------------------------------------- one bit at a time

  function BitWord(bit: bool): bv32 {
    if bit then 1 else 0
  }

  function Feed(crc: bv32, bits: seq<bool>): bv32
    decreases |bits|
  {
    if bits == [] then crc else Feed(Step(Xor(crc, BitWord(bits[0]))), bits[1..])
  }

  function Even(v: bv32): bv32 { v & 0xFFFF_FFFE }

  lemma SplitBits(fed: bv32, v: bv32)
    ensures fed ^ v == (v & 0xFFFF_FFFE) ^ (fed ^ (v & 1))
    ensures (v & 0xFFFF_FFFE) >> 1 == v >> 1
    ensures v & 0xFFFF_FFFE & 1 == 0
  {
  }

  lemma LowBitWord(v: bv32)
    ensures BitWord(Odd(v)) == v & 1
  {
  }

  lemma SplitLowBit(fed: bv32, v: bv32)
    ensures Xor(fed, v) == Xor(Even(v), Xor(fed, BitWord(Odd(v))))
    ensures Half(Even(v)) == Half(v)
    ensures !Odd(Even(v))
  {
    hide BitWord;
    LowBitWord(v);
    SplitBits(fed, v);
  }

  /** Adding n bits up front, or one before each step, comes to the same. */
  lemma {:induction false} FeedLowBits(crc: bv32, v: bv32, n: nat)
    ensures Steps(Xor(crc, v), n) == Xor(Feed(crc, LowBits(v, n)), Halve(v, n))
    decreases n
  {
    hide Step, BitWord, Xor, Half, Odd, Even;
    if n > 0 {
      SplitLowBit(crc, v);
      var fed := Step(Xor(crc, BitWord(Odd(v))));
      StepsEven(Even(v), Xor(crc, BitWord(Odd(v))), 1);
      assert Halve(Even(v), 1) == Half(v);
      XorCommutes(Half(v), fed);
      FeedLowBits(fed, Half(v), n - 1);
      assert LowBits(v, n) == [Odd(v)] + LowBits(Half(v), n - 1);
      assert LowBits(v, n)[1..] == LowBits(Half(v), n - 1);
    }
  }

  // --------------------------------------------------------------- reflection

  lemma ReverseXor(a: bv32, b: bv32)
    ensures Reverse(Xor(a, b)) == Xor(Reverse(a), Reverse(b))
  {
  }

  lemma ReverseShift(x: bv32)
    ensures Reverse(x >> 1) == Reverse(x) << 1
  {
  }

  lemma HalfShifts(x: bv32)
    ensures Half(x) == x >> 1
  {
  }

  lemma ReverseLowBit(x: bv32)
    ensures Odd(x) == TopBit(Reverse(x))
  {
  }

  lemma DropBit(x: bv32, bit: bool)
    ensures Half(Xor(x, BitWord(bit))) == Half(x)
    ensures Odd(Xor(x, BitWord(bit))) == (Odd(x) != bit)
  {
  }

  lemma ReverseConstants(odd: bool)
    ensures Reverse(Correction(odd)) == if odd then POLYNOMIAL else 0
    ensures Reverse(ALL_ONES) == ALL_ONES
  {
  }

  lemma DivideLaw(reg: bv32, bit: bool)
    ensures DivideBit(reg, bit) == Xor(reg << 1, if TopBit(reg) != bit then POLYNOMIAL else 0)
  {
  }

  /** The reflected register takes the division step at its other end. */
  lemma ReflectStep(crc: bv32, bit: bool)
    ensures Reverse(Step(Xor(crc, BitWord(bit)))) == DivideBit(Reverse(crc), bit)
  {
    hide Reverse, BitWord, Xor, Half, Odd, TopBit, Step, DivideBit, Correction;
    StepLaw(Xor(crc, BitWord(bit)));
    DropBit(crc, bit);
    ReverseLowBit(crc);
    ReverseShift(crc);
    HalfShifts(crc);
    ReverseConstants(Odd(crc) != bit);
    ReverseXor(Half(crc), Correction(Odd(crc) != bit));
    DivideLaw(Reverse(crc), bit);
  }

  lemma {:induction false} ReflectFeed(crc: bv32, bits: seq<bool>)
    ensures Reverse(Feed(crc, bits)) == Divide(Reverse(crc), bits)
    decreases |bits|
  {
    hide Reverse, Step, DivideBit, BitWord, Xor;
    if bits != [] {
      ReflectStep(crc, bits[0]);
      ReflectFeed(Step(Xor(crc, BitWord(bits[0]))), bits[1..]);
    }
  }

  lemma {:induction false} FeedSplit(crc: bv32, a: seq<bool>, b: seq<bool>)
    ensures Feed(crc, a + b) == Feed(Feed(crc, a), b)
    decreases |a|
  {
    hide Step, BitWord, Xor;
    if a == [] {
      assert a + b == b;
    } else {
      assert (a + b)[1..] == a[1..] + b;
      FeedSplit(Step(Xor(crc, BitWord(a[0]))), a[1..], b);
    }
  }

  // ------------------------------------------------------------ the writer's code

  /** One round of the table-driven loop. */
  function Round(crc: bv32, b: Byte): bv32 {
    Xor(crc >> 8, Steps(LowByte(Xor(crc, b as bv32)), 8))
  }

  function Rounds(crc: bv32, bytes: seq<Byte>): bv32
    decreases |bytes|
  {
    if bytes == [] then crc else Rounds(Round(crc, bytes[0]), bytes[1..])
  }

  lemma ByteIsLow(b: Byte)
    ensures LowByte(b as bv32) == b as bv32
  {
  }

  lemma LowByteXor(crc: bv32, w: bv32)
    ensures Xor(crc, LowByte(w)) >> 8 == crc >> 8
    ensures LowByte(Xor(crc, LowByte(w))) == LowByte(Xor(crc, w))
  {
  }

  lemma XorZero(x: bv32)
    ensures Xor(x, 0) == x
  {
  }

  /** A round of the loop divides by the eight bits of its byte: eight steps shift
      the register by a byte and add the table entry of its low byte. */
  lemma RoundFeeds(crc: bv32, b: Byte)
    ensures Round(crc, b) == Feed(crc, LowBits(b as bv32, 8))
  {
    hide Steps, Xor, LowByte, HighBytes, Feed, LowBits, LowZero, Halve;
    var w := b as bv32;
    ByteIsLow(b);
    LowByteXor(crc, w);
    var x := Xor(crc, LowByte(w));
    SplitLowByte(x);
    HighPart(x);
    HalveEight(HighBytes(x));
    StepsEven(HighBytes(x), LowByte(x), 8);
    FeedLowBits(crc, w, 8);
    HalveEight(w);
    HighPart(w);
    XorZero(Feed(crc, LowBits(w, 8)));
  }

  lemma {:induction false} RoundsFeed(crc: bv32, bytes: seq<Byte>)
    ensures Rounds(crc, bytes) == Feed(crc, MessageBits(bytes))
    decreases |bytes|
  {
    hide Round, Feed, LowBits;
    if bytes == [] {
      FeedNothing(crc);
    } else {
      RoundFeeds(crc, bytes[0]);
      RoundsFeed(Round(crc, bytes[0]), bytes[1..]);
      FeedSplit(crc, LowBits(bytes[0] as bv32, 8), MessageBits(bytes[1..]));
    }
  }

  lemma FeedNothing(crc: bv32)
    ensures Feed(crc, []) == crc
  {
  }

  /** The table-driven loop computes the CRC-32 of APPNOTE.TXT. */
  lemma RoundsAreDivision(bytes: seq<Byte>)
    ensures Rounds(ALL_ONES, bytes) ^ ALL_ONES == CrcOf(bytes)
  {
    hide Feed, Divide, MessageBits, Rounds, Reverse;
    RoundsFeed(ALL_ONES, bytes);
    ReflectFeed(ALL_ONES, MessageBits(bytes));
    ReverseConstants(false);
    ReverseTwice(Rounds(ALL_ONES, bytes));
  }

  lemma ReverseTwice(x: bv32)
    ensures Reverse(Reverse(x)) == x
  {
  }

  lemma {:induction false} RoundsSnoc(crc: bv32, bytes: seq<Byte>, b: Byte)
    ensures Rounds(crc, bytes + [b]) == Round(Rounds(crc, bytes), b)
    decreases |bytes|
  {
    hide Round;
    if bytes == [] {
      assert ([b])[1..] == [];
      assert bytes + [b] == [b];
    } else {
      assert (bytes + [b])[1..] == bytes[1..] + [b];
      RoundsSnoc(Round(crc, bytes[0]), bytes[1..], b);
    }
  }

  lemma {:induction false} StepsSnoc(crc: bv32, n: nat)
    ensures Steps(crc, n + 1) == Step(Steps(crc, n))
    decreases n
  {
    hide Step;
    if n > 0 {
      StepsSnoc(Step(crc), n - 1);
    } else {
      assert Steps(Step(crc), 0) == Step(crc);
    }
  }

  /** Entry i of the table: eight steps from i. */
  function TableEntry(i: int): bv32
    requires 0 <= i < 256
  {
    Steps(i as bv32, 8)
  }

  ghost predicate IsTable(table: seq<bv32>) {
    |table| == 256 && forall i :: 0 <= i < 256 ==> table[i] == TableEntry(i)
  }

  /** The lookup table, filled entry by entry and bit by bit. */
  method CreateTable() returns (table: array<bv32>)
    ensures fresh(table) && IsTable(table[..])
  {
    hide Step, TableEntry;
    table := new bv32[256];
    for index := 0 to table.Length
      invariant forall i :: 0 <= i < index ==> table[i] == TableEntry(i)
    {
      var start := index as bv32;
      var crc := start;
      for bit := 0 to 8
        modifies {}
        invariant crc == Steps(start, bit)
      {
        StepsSnoc(start, bit);
        crc := Step(crc);
      }
      EntryIs(index);
      table[index] := crc;
    }
  }

  lemma EntryIs(i: int)
    requires 0 <= i < 256
    ensures TableEntry(i) == Steps(i as bv32, 8)
  {
  }

  function TableIndex(crc: bv32, b: Byte): int {
    LowByte(Xor(crc, b as bv32)) as int
  }

  lemma SmallWord(k: bv32)
    requires k < 0x100
    ensures 0 <= k as int < 256
    ensures (k as int) as bv32 == k
  {
  }

  lemma LowByteSmall(x: bv32)
    ensures LowByte(x) < 0x100
  {
  }

  lemma RoundByTable(crc: bv32, b: Byte)
    ensures 0 <= TableIndex(crc, b) < 256
    ensures Round(crc, b) == Xor(crc >> 8, TableEntry(TableIndex(crc, b)))
  {
    hide Steps, Xor, LowByte;
    LowByteSmall(Xor(crc, b as bv32));
    SmallWord(LowByte(Xor(crc, b as bv32)));
  }

  /** The table-driven CRC of a byte string, as the number the headers carry. */
  method Crc32(table: array<bv32>, bytes: seq<Byte>) returns (crc32: int)
    requires IsTable(table[..])
    ensures crc32 == CrcOf(bytes) as int
  {
    hide Steps, CrcOf, Round;
    var crc: bv32 := 0xFFFF_FFFF;
    RoundsNone();
    for i := 0 to |bytes|
      invariant crc == Rounds(ALL_ONES, bytes[..i])
    {
      RoundsSnoc(ALL_ONES, bytes[..i], bytes[i]);
      assert bytes[..i + 1] == bytes[..i] + [bytes[i]];
      crc := NextCrc(table, crc, bytes[i]);
    }
    assert bytes[..|bytes|] == bytes;
    RoundsAreDivision(bytes);
    return (crc ^ 0xFFFF_FFFF) as int;
  }

  lemma RoundsNone()
    ensures Rounds(ALL_ONES, []) == 0xFFFF_FFFF
  {
  }

  /** One lookup of the loop. */
  method NextCrc(table: array<bv32>, crc: bv32, b: Byte) returns (next: bv32)
    requires IsTable(table[..])
    ensures next == Round(crc, b)
  {
    hide TableEntry, Xor, TableIndex, Round;
    RoundByTable(crc, b);
    var i := TableIndex(crc, b);
    assert table[i] == table[..][i];
    next := Xor(crc >> 8, table[i]);
  }

  // ------------------------------------------------------------------- check value

  lemma EightSteps(x: bv32)
    ensures Steps(x, 8) == Step(Step(Step(Step(Step(Step(Step(Step(x))))))))
  {
    hide Step;
    var y := Step(Step(Step(Step(x))));
    assert Steps(x, 8) == Steps(Step(Step(x)), 6) == Steps(y, 4) == Steps(Step(Step(y)), 2);
  }

  lemma RoundIs(crc: bv32, b: Byte, w: bv32, x: bv32, entry: bv32)
    requires b as bv32 == w && LowByte(Xor(crc, w)) == x
    requires Step(Step(Step(Step(Step(Step(Step(Step(x)))))))) == entry
    ensures Round(crc, b) == Xor(crc >> 8, entry)
  {
    hide Step, Steps, Xor, LowByte;
    EightSteps(x);
  }

  lemma RoundFirst(crc: bv32, b: Byte, rest: seq<Byte>)
    ensures Rounds(crc, [b] + rest) == Rounds(Round(crc, b), rest)
  {
    hide Round;
    assert ([b] + rest)[1..] == rest;
  }

  lemma Round1(rest: seq<Byte>)
    ensures Rounds(0xFFFF_FFFF, [0x31] + rest) == Rounds(0x7C23_1048, rest)
  {
    RoundIs(0xFFFF_FFFF, 0x31, 0x31, 0xCE, 0x7CDC_EFB7);
    hide Round, Rounds;
    RoundFirst(0xFFFF_FFFF, 0x31, rest);
  }

  lemma Round2(rest: seq<Byte>)
    ensures Rounds(0x7C23_1048, [0x32] + rest) == Rounds(0xB0AC_BB32, rest)
  {
    RoundIs(0x7C23_1048, 0x32, 0x32, 0x7A, 0xB0D0_9822);
    hide Round, Rounds;
    RoundFirst(0x7C23_1048, 0x32, rest);
  }

  lemma Round3(rest: seq<Byte>)
    ensures Rounds(0xB0AC_BB32, [0x33] + rest) == Rounds(0x77B7_9C2D, rest)
  {
    RoundIs(0xB0AC_BB32, 0x33, 0x33, 0x01, 0x7707_3096);
    hide Round, Rounds;
    RoundFirst(0xB0AC_BB32, 0x33, rest);
  }

  lemma Round4(rest: seq<Byte>)
    ensures Rounds(0x77B7_9C2D, [0x34] + rest) == Rounds(0x641C_1F5C, rest)
  {
    RoundIs(0x77B7_9C2D, 0x34, 0x34, 0x19, 0x646B_A8C0);
    hide Round, Rounds;
    RoundFirst(0x77B7_9C2D, 0x34, rest);
  }

  lemma Round5(rest: seq<Byte>)
    ensures Rounds(0x641C_1F5C, [0x35] + rest) == Rounds(0x340A_C5E3, rest)
  {
    RoundIs(0x641C_1F5C, 0x35, 0x35, 0x69, 0x346E_D9FC);
    hide Round, Rounds;
    RoundFirst(0x641C_1F5C, 0x35, rest);
  }

  lemma Round6(rest: seq<Byte>)
    ensures Rounds(0x340A_C5E3, [0x36] + rest) == Rounds(0xF68D_2C9E, rest)
  {
    RoundIs(0x340A_C5E3, 0x36, 0x36, 0xD5, 0xF6B9_265B);
    hide Round, Rounds;
    RoundFirst(0x340A_C5E3, 0x36, rest);
  }

  lemma Round7(rest: seq<Byte>)
    ensures Rounds(0xF68D_2C9E, [0x37] + rest) == Rounds(0xAFFC_9660, rest)
  {
    RoundIs(0xF68D_2C9E, 0x37, 0x37, 0xA9, 0xAF0A_1B4C);
    hide Round, Rounds;
    RoundFirst(0xF68D_2C9E, 0x37, rest);
  }

  lemma Round8(rest: seq<Byte>)
    ensures Rounds(0xAFFC_9660, [0x38] + rest) == Rounds(0x651F_2550, rest)
  {
    RoundIs(0xAFFC_9660, 0x38, 0x38, 0x58, 0x65B0_D9C6);
    hide Round, Rounds;
    RoundFirst(0xAFFC_9660, 0x38, rest);
  }

  lemma Round9(rest: seq<Byte>)
    ensures Rounds(0x651F_2550, [0x39] + rest) == Rounds(0x340B_C6D9, rest)
  {
    RoundIs(0x651F_2550, 0x39, 0x39, 0x69, 0x346E_D9FC);
    hide Round, Rounds;
    RoundFirst(0x651F_2550, 0x39, rest);
  }

  /** The check value of the algorithm: the CRC-32 of the digits from 1 to 9. */
  lemma CheckValue()
    ensures CrcOf([0x31, 0x32, 0x33, 0x34, 0x35, 0x36, 0x37, 0x38, 0x39]) == 0xCBF4_3926
  {
    hide CrcOf, Rounds;
    RoundsAreDivision([0x31, 0x32, 0x33, 0x34, 0x35, 0x36, 0x37, 0x38, 0x39]);
    Round1([0x32, 0x33, 0x34, 0x35, 0x36, 0x37, 0x38, 0x39]);
    Round2([0x33, 0x34, 0x35, 0x36, 0x37, 0x38, 0x39]);
    Round3([0x34, 0x35, 0x36, 0x37, 0x38, 0x39]);
    Round4([0x35, 0x36, 0x37, 0x38, 0x39]);
    Round5([0x36, 0x37, 0x38, 0x39]);
    Round6([0x37, 0x38, 0x39]);
    Round7([0x38, 0x39]);
    Round8([0x39]);
    Round9([]);
    assert [0x31, 0x32, 0x33, 0x34, 0x35, 0x36, 0x37, 0x38, 0x39]
        == [0x31] + [0x32, 0x33, 0x34, 0x35, 0x36, 0x37, 0x38, 0x39];
    assert [0x32, 0x33, 0x34, 0x35, 0x36, 0x37, 0x38, 0x39] == [0x32] + [0x33, 0x34, 0x35, 0x36, 0x37, 0x38, 0x39];
    assert [0x33, 0x34, 0x35, 0x36, 0x37, 0x38, 0x39] == [0x33] + [0x34, 0x35, 0x36, 0x37, 0x38, 0x39];
    assert [0x34, 0x35, 0x36, 0x37, 0x38, 0x39] == [0x34] + [0x35, 0x36, 0x37, 0x38, 0x39];
    assert [0x35, 0x36, 0x37, 0x38, 0x39] == [0x35] + [0x36, 0x37, 0x38, 0x39];
    assert [0x36, 0x37, 0x38, 0x39] == [0x36] + [0x37, 0x38, 0x39];
    assert [0x37, 0x38, 0x39] == [0x37] + [0x38, 0x39];
    assert [0x38, 0x39] == [0x38] + [0x39];
    assert [0x39] == [0x39] + [];
    RoundsOfNothing();
  }

  lemma RoundsOfNothing()
    ensures forall crc :: Rounds(crc, []) == crc
  {
  }
}
