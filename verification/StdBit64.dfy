/**
 * The 64-bit counters of stdbit.h: a multiplication and a table for the zeros, a parallel
 * sum for the ones. Each agrees with a definition that looks at one bit at a time.
 */
module StdBit64 {

  type Bits = bv64

  const W: nat := 64

  // ---------------------------------------------------------------- one bit at a time

  /** Zeros below the lowest one among the low n bits. */
  function TrailingZeros(x: Bits, n: nat): nat {
    if n == 0 || x & 1 == 1 then 0 else 1 + TrailingZeros(x >> 1, n - 1)
  }

  /** Zeros above the highest one among the high n bits. */
  function LeadingZeros(x: Bits, n: nat): nat
    decreases n
  {
    if n == 0 || x & 0x8000_0000_0000_0000 != 0 then 0 else 1 + LeadingZeros(x << 1, n - 1)
  }

  function Ones(x: Bits, n: nat): nat {
    if n == 0 then 0 else (if x & 1 == 1 then 1 else 0) + Ones(x >> 1, n - 1)
  }

  // ---------------------------------------------------------------- the counters

  const TrailingTable: seq<nat> :=
    [0, 1, 2, 53, 3, 7, 54, 27, 4, 38, 41, 8, 34, 55, 48, 28]
    + [62, 5, 39, 46, 44, 42, 22, 9, 24, 35, 59, 56, 49, 18, 29, 11]
    + [63, 52, 6, 26, 37, 40, 33, 47, 61, 45, 43, 21, 23, 58, 17, 10]
    + [51, 25, 36, 32, 60, 20, 57, 16, 50, 31, 19, 15, 30, 14, 13, 12]

  const LeadingTable: seq<nat> :=
    [63, 16, 62, 7, 15, 36, 61, 3, 6, 14, 22, 26, 35, 47, 60, 2]
    + [9, 5, 28, 11, 13, 21, 42, 19, 25, 31, 34, 40, 46, 52, 59, 1]
    + [17, 8, 37, 4, 23, 27, 48, 10, 29, 12, 43, 20, 32, 41, 53, 18]
    + [38, 24, 49, 30, 44, 33, 54, 39, 50, 45, 55, 51, 56, 57, 58, 0]

  function High58(x: Bits): (i: nat)
    ensures i < W
  {
    (x >> 58) as int
  }

  function TrailingAt(p: Bits): nat { TrailingTable[High58(p * 0x022F_DD63_CC95_386D)] }

  function LeadingAt(p: Bits): nat { LeadingTable[High58(p * 0x03F7_9D71_B4CB_0A89)] }

  function LowestBit(x: Bits): Bits { x & -x }

  function Ctz(x: Bits): nat {
    if x == 0 then W else TrailingAt(LowestBit(x))
  }

  function Smear(x: Bits): Bits {
    var x := x | (x >> 1);
    var x := x | (x >> 2);
    var x := x | (x >> 4);
    var x := x | (x >> 8);
    var x := x | (x >> 16);
    x | (x >> 32)
  }

  function Clz(x: Bits): nat {
    if x == 0 then W else LeadingAt(Smear(x))
  }

  function Minus(x: Bits, t: Bits): Bits { x - t }

  function Upper(x: Bits): Bits { (x >> 1) & 0x5555_5555_5555_5555 }

  function Pairs(x: Bits): Bits { Minus(x, Upper(x)) }

  function Nibbles(x: Bits): Bits { (x & 0x3333_3333_3333_3333) + ((x >> 2) & 0x3333_3333_3333_3333) }

  function Octets(x: Bits): Bits { (x + (x >> 4)) & 0x0F0F_0F0F_0F0F_0F0F }

  function Fold1(x: Bits): Bits { x + (x >> 8) }

  function Fold2(x: Bits): Bits { x + (x >> 16) }

  function Fold3(x: Bits): Bits { (x + (x >> 32)) & 0x7F }

  function Fold(x: Bits): Bits { Fold3(Fold2(Fold1(x))) }

  function Pop(x: Bits): nat { Fold(Octets(Nibbles(Pairs(x)))) as int }

  // ---------------------------------------------------------------- the tables

  function Power(k: nat): Bits { if k == 0 then 1 else Power(k - 1) << 1 }

  /** All ones below k zeros. */
  function Fill(k: nat): Bits { if k == 0 then 0xFFFF_FFFF_FFFF_FFFF else Fill(k - 1) >> 1 }

  /** The tables have the right entries for k zeros. */
  predicate TrailingHit(k: nat) { TrailingAt(Power(k)) == k }

  predicate LeadingHit(k: nat) { LeadingAt(Fill(k)) == k }

  /** Eight consecutive numbers, one at a time. */
  lemma Pick(hit: nat -> bool, c: nat, k: nat)
    requires c <= k < c + 8
    requires hit(c) && hit(c + 1) && hit(c + 2) && hit(c + 3) && hit(c + 4) && hit(c + 5) && hit(c + 6) && hit(c + 7)
    ensures hit(k)
  {
  }

  lemma Powers0()
    ensures Power(0) == 0x1 && Power(1) == 0x2 && Power(2) == 0x4 && Power(3) == 0x8
    ensures Power(4) == 0x10 && Power(5) == 0x20 && Power(6) == 0x40 && Power(7) == 0x80
  {
  }

  lemma TrailingEntries0()
    ensures TrailingAt(0x1) == 0 && TrailingAt(0x2) == 1 && TrailingAt(0x4) == 2 && TrailingAt(0x8) == 3
    ensures TrailingAt(0x10) == 4 && TrailingAt(0x20) == 5 && TrailingAt(0x40) == 6 && TrailingAt(0x80) == 7
  {
  }

  lemma TrailingHits0(k: nat)
    requires 0 <= k < 8
    ensures TrailingHit(k)
  {
    Powers0();
    TrailingEntries0();
    Pick(TrailingHit, 0, k);
  }

  lemma Powers8()
    ensures Power(8) == 0x100 && Power(9) == 0x200 && Power(10) == 0x400 && Power(11) == 0x800
    ensures Power(12) == 0x1000 && Power(13) == 0x2000 && Power(14) == 0x4000 && Power(15) == 0x8000
  {
    Powers0();
  }

  lemma TrailingEntries8()
    ensures TrailingAt(0x100) == 8 && TrailingAt(0x200) == 9 && TrailingAt(0x400) == 10 && TrailingAt(0x800) == 11
    ensures TrailingAt(0x1000) == 12 && TrailingAt(0x2000) == 13
    ensures TrailingAt(0x4000) == 14 && TrailingAt(0x8000) == 15
  {
  }

  lemma TrailingHits8(k: nat)
    requires 8 <= k < 16
    ensures TrailingHit(k)
  {
    Powers8();
    TrailingEntries8();
    Pick(TrailingHit, 8, k);
  }

  lemma Powers16()
    ensures Power(16) == 0x1_0000 && Power(17) == 0x2_0000 && Power(18) == 0x4_0000 && Power(19) == 0x8_0000
    ensures Power(20) == 0x10_0000 && Power(21) == 0x20_0000 && Power(22) == 0x40_0000 && Power(23) == 0x80_0000
  {
    Powers8();
  }

  lemma TrailingEntries16()
    ensures TrailingAt(0x1_0000) == 16 && TrailingAt(0x2_0000) == 17
    ensures TrailingAt(0x4_0000) == 18 && TrailingAt(0x8_0000) == 19
    ensures TrailingAt(0x10_0000) == 20 && TrailingAt(0x20_0000) == 21
    ensures TrailingAt(0x40_0000) == 22 && TrailingAt(0x80_0000) == 23
  {
  }

  lemma TrailingHits16(k: nat)
    requires 16 <= k < 24
    ensures TrailingHit(k)
  {
    Powers16();
    TrailingEntries16();
    Pick(TrailingHit, 16, k);
  }

  lemma Powers24()
    ensures Power(24) == 0x100_0000 && Power(25) == 0x200_0000 && Power(26) == 0x400_0000 && Power(27) == 0x800_0000
    ensures Power(28) == 0x1000_0000 && Power(29) == 0x2000_0000
    ensures Power(30) == 0x4000_0000 && Power(31) == 0x8000_0000
  {
    Powers16();
  }

  lemma TrailingEntries24()
    ensures TrailingAt(0x100_0000) == 24 && TrailingAt(0x200_0000) == 25
    ensures TrailingAt(0x400_0000) == 26 && TrailingAt(0x800_0000) == 27
    ensures TrailingAt(0x1000_0000) == 28 && TrailingAt(0x2000_0000) == 29
    ensures TrailingAt(0x4000_0000) == 30 && TrailingAt(0x8000_0000) == 31
  {
  }

  lemma TrailingHits24(k: nat)
    requires 24 <= k < 32
    ensures TrailingHit(k)
  {
    Powers24();
    TrailingEntries24();
    Pick(TrailingHit, 24, k);
  }

  lemma Powers32()
    ensures Power(32) == 0x1_0000_0000 && Power(33) == 0x2_0000_0000
    ensures Power(34) == 0x4_0000_0000 && Power(35) == 0x8_0000_0000
    ensures Power(36) == 0x10_0000_0000 && Power(37) == 0x20_0000_0000
    ensures Power(38) == 0x40_0000_0000 && Power(39) == 0x80_0000_0000
  {
    Powers24();
  }

  lemma TrailingEntries32()
    ensures TrailingAt(0x1_0000_0000) == 32 && TrailingAt(0x2_0000_0000) == 33
    ensures TrailingAt(0x4_0000_0000) == 34 && TrailingAt(0x8_0000_0000) == 35
    ensures TrailingAt(0x10_0000_0000) == 36 && TrailingAt(0x20_0000_0000) == 37
    ensures TrailingAt(0x40_0000_0000) == 38 && TrailingAt(0x80_0000_0000) == 39
  {
  }

  lemma TrailingHits32(k: nat)
    requires 32 <= k < 40
    ensures TrailingHit(k)
  {
    Powers32();
    TrailingEntries32();
    Pick(TrailingHit, 32, k);
  }

  lemma Powers40()
    ensures Power(40) == 0x100_0000_0000 && Power(41) == 0x200_0000_0000
    ensures Power(42) == 0x400_0000_0000 && Power(43) == 0x800_0000_0000
    ensures Power(44) == 0x1000_0000_0000 && Power(45) == 0x2000_0000_0000
    ensures Power(46) == 0x4000_0000_0000 && Power(47) == 0x8000_0000_0000
  {
    Powers32();
  }

  lemma TrailingEntries40()
    ensures TrailingAt(0x100_0000_0000) == 40 && TrailingAt(0x200_0000_0000) == 41
    ensures TrailingAt(0x400_0000_0000) == 42 && TrailingAt(0x800_0000_0000) == 43
    ensures TrailingAt(0x1000_0000_0000) == 44 && TrailingAt(0x2000_0000_0000) == 45
    ensures TrailingAt(0x4000_0000_0000) == 46 && TrailingAt(0x8000_0000_0000) == 47
  {
  }

  lemma TrailingHits40(k: nat)
    requires 40 <= k < 48
    ensures TrailingHit(k)
  {
    Powers40();
    TrailingEntries40();
    Pick(TrailingHit, 40, k);
  }

  lemma Powers48()
    ensures Power(48) == 0x1_0000_0000_0000 && Power(49) == 0x2_0000_0000_0000
    ensures Power(50) == 0x4_0000_0000_0000 && Power(51) == 0x8_0000_0000_0000
    ensures Power(52) == 0x10_0000_0000_0000 && Power(53) == 0x20_0000_0000_0000
    ensures Power(54) == 0x40_0000_0000_0000 && Power(55) == 0x80_0000_0000_0000
  {
    Powers40();
  }

  lemma TrailingEntries48()
    ensures TrailingAt(0x1_0000_0000_0000) == 48 && TrailingAt(0x2_0000_0000_0000) == 49
    ensures TrailingAt(0x4_0000_0000_0000) == 50 && TrailingAt(0x8_0000_0000_0000) == 51
    ensures TrailingAt(0x10_0000_0000_0000) == 52 && TrailingAt(0x20_0000_0000_0000) == 53
    ensures TrailingAt(0x40_0000_0000_0000) == 54 && TrailingAt(0x80_0000_0000_0000) == 55
  {
  }

  lemma TrailingHits48(k: nat)
    requires 48 <= k < 56
    ensures TrailingHit(k)
  {
    Powers48();
    TrailingEntries48();
    Pick(TrailingHit, 48, k);
  }

  lemma Powers56()
    ensures Power(56) == 0x100_0000_0000_0000 && Power(57) == 0x200_0000_0000_0000
    ensures Power(58) == 0x400_0000_0000_0000 && Power(59) == 0x800_0000_0000_0000
    ensures Power(60) == 0x1000_0000_0000_0000 && Power(61) == 0x2000_0000_0000_0000
    ensures Power(62) == 0x4000_0000_0000_0000 && Power(63) == 0x8000_0000_0000_0000
  {
    Powers48();
  }

  lemma TrailingEntries56()
    ensures TrailingAt(0x100_0000_0000_0000) == 56 && TrailingAt(0x200_0000_0000_0000) == 57
    ensures TrailingAt(0x400_0000_0000_0000) == 58 && TrailingAt(0x800_0000_0000_0000) == 59
    ensures TrailingAt(0x1000_0000_0000_0000) == 60 && TrailingAt(0x2000_0000_0000_0000) == 61
    ensures TrailingAt(0x4000_0000_0000_0000) == 62 && TrailingAt(0x8000_0000_0000_0000) == 63
  {
  }

  lemma TrailingHits56(k: nat)
    requires 56 <= k < 64
    ensures TrailingHit(k)
  {
    Powers56();
    TrailingEntries56();
    Pick(TrailingHit, 56, k);
  }

  lemma TrailingTableRight(k: nat)
    requires k < W
    ensures TrailingHit(k)
  {
    if k < 8 {
      TrailingHits0(k);
    } else if k < 16 {
      TrailingHits8(k);
    } else if k < 24 {
      TrailingHits16(k);
    } else if k < 32 {
      TrailingHits24(k);
    } else if k < 40 {
      TrailingHits32(k);
    } else if k < 48 {
      TrailingHits40(k);
    } else if k < 56 {
      TrailingHits48(k);
    } else {
      TrailingHits56(k);
    }
  }

  lemma Fills0()
    ensures Fill(0) == 0xFFFF_FFFF_FFFF_FFFF && Fill(1) == 0x7FFF_FFFF_FFFF_FFFF
    ensures Fill(2) == 0x3FFF_FFFF_FFFF_FFFF && Fill(3) == 0x1FFF_FFFF_FFFF_FFFF
    ensures Fill(4) == 0xFFF_FFFF_FFFF_FFFF && Fill(5) == 0x7FF_FFFF_FFFF_FFFF
    ensures Fill(6) == 0x3FF_FFFF_FFFF_FFFF && Fill(7) == 0x1FF_FFFF_FFFF_FFFF
  {
  }

  lemma LeadingEntries0()
    ensures LeadingAt(0xFFFF_FFFF_FFFF_FFFF) == 0 && LeadingAt(0x7FFF_FFFF_FFFF_FFFF) == 1
    ensures LeadingAt(0x3FFF_FFFF_FFFF_FFFF) == 2 && LeadingAt(0x1FFF_FFFF_FFFF_FFFF) == 3
    ensures LeadingAt(0xFFF_FFFF_FFFF_FFFF) == 4 && LeadingAt(0x7FF_FFFF_FFFF_FFFF) == 5
    ensures LeadingAt(0x3FF_FFFF_FFFF_FFFF) == 6 && LeadingAt(0x1FF_FFFF_FFFF_FFFF) == 7
  {
  }

  lemma LeadingHits0(k: nat)
    requires 0 <= k < 8
    ensures LeadingHit(k)
  {
    Fills0();
    LeadingEntries0();
    Pick(LeadingHit, 0, k);
  }

  lemma Fills8()
    ensures Fill(8) == 0xFF_FFFF_FFFF_FFFF && Fill(9) == 0x7F_FFFF_FFFF_FFFF
    ensures Fill(10) == 0x3F_FFFF_FFFF_FFFF && Fill(11) == 0x1F_FFFF_FFFF_FFFF
    ensures Fill(12) == 0xF_FFFF_FFFF_FFFF && Fill(13) == 0x7_FFFF_FFFF_FFFF
    ensures Fill(14) == 0x3_FFFF_FFFF_FFFF && Fill(15) == 0x1_FFFF_FFFF_FFFF
  {
    Fills0();
  }

  lemma LeadingEntries8()
    ensures LeadingAt(0xFF_FFFF_FFFF_FFFF) == 8 && LeadingAt(0x7F_FFFF_FFFF_FFFF) == 9
    ensures LeadingAt(0x3F_FFFF_FFFF_FFFF) == 10 && LeadingAt(0x1F_FFFF_FFFF_FFFF) == 11
    ensures LeadingAt(0xF_FFFF_FFFF_FFFF) == 12 && LeadingAt(0x7_FFFF_FFFF_FFFF) == 13
    ensures LeadingAt(0x3_FFFF_FFFF_FFFF) == 14 && LeadingAt(0x1_FFFF_FFFF_FFFF) == 15
  {
  }

  lemma LeadingHits8(k: nat)
    requires 8 <= k < 16
    ensures LeadingHit(k)
  {
    Fills8();
    LeadingEntries8();
    Pick(LeadingHit, 8, k);
  }

  lemma Fills16()
    ensures Fill(16) == 0xFFFF_FFFF_FFFF && Fill(17) == 0x7FFF_FFFF_FFFF
    ensures Fill(18) == 0x3FFF_FFFF_FFFF && Fill(19) == 0x1FFF_FFFF_FFFF
    ensures Fill(20) == 0xFFF_FFFF_FFFF && Fill(21) == 0x7FF_FFFF_FFFF
    ensures Fill(22) == 0x3FF_FFFF_FFFF && Fill(23) == 0x1FF_FFFF_FFFF
  {
    Fills8();
  }

  lemma LeadingEntries16()
    ensures LeadingAt(0xFFFF_FFFF_FFFF) == 16 && LeadingAt(0x7FFF_FFFF_FFFF) == 17
    ensures LeadingAt(0x3FFF_FFFF_FFFF) == 18 && LeadingAt(0x1FFF_FFFF_FFFF) == 19
    ensures LeadingAt(0xFFF_FFFF_FFFF) == 20 && LeadingAt(0x7FF_FFFF_FFFF) == 21
    ensures LeadingAt(0x3FF_FFFF_FFFF) == 22 && LeadingAt(0x1FF_FFFF_FFFF) == 23
  {
  }

  lemma LeadingHits16(k: nat)
    requires 16 <= k < 24
    ensures LeadingHit(k)
  {
    Fills16();
    LeadingEntries16();
    Pick(LeadingHit, 16, k);
  }

  lemma Fills24()
    ensures Fill(24) == 0xFF_FFFF_FFFF && Fill(25) == 0x7F_FFFF_FFFF
    ensures Fill(26) == 0x3F_FFFF_FFFF && Fill(27) == 0x1F_FFFF_FFFF
    ensures Fill(28) == 0xF_FFFF_FFFF && Fill(29) == 0x7_FFFF_FFFF
    ensures Fill(30) == 0x3_FFFF_FFFF && Fill(31) == 0x1_FFFF_FFFF
  {
    Fills16();
  }

  lemma LeadingEntries24()
    ensures LeadingAt(0xFF_FFFF_FFFF) == 24 && LeadingAt(0x7F_FFFF_FFFF) == 25
    ensures LeadingAt(0x3F_FFFF_FFFF) == 26 && LeadingAt(0x1F_FFFF_FFFF) == 27
    ensures LeadingAt(0xF_FFFF_FFFF) == 28 && LeadingAt(0x7_FFFF_FFFF) == 29
    ensures LeadingAt(0x3_FFFF_FFFF) == 30 && LeadingAt(0x1_FFFF_FFFF) == 31
  {
  }

  lemma LeadingHits24(k: nat)
    requires 24 <= k < 32
    ensures LeadingHit(k)
  {
    Fills24();
    LeadingEntries24();
    Pick(LeadingHit, 24, k);
  }

  lemma Fills32()
    ensures Fill(32) == 0xFFFF_FFFF && Fill(33) == 0x7FFF_FFFF && Fill(34) == 0x3FFF_FFFF && Fill(35) == 0x1FFF_FFFF
    ensures Fill(36) == 0xFFF_FFFF && Fill(37) == 0x7FF_FFFF && Fill(38) == 0x3FF_FFFF && Fill(39) == 0x1FF_FFFF
  {
    Fills24();
  }

  lemma LeadingEntries32()
    ensures LeadingAt(0xFFFF_FFFF) == 32 && LeadingAt(0x7FFF_FFFF) == 33
    ensures LeadingAt(0x3FFF_FFFF) == 34 && LeadingAt(0x1FFF_FFFF) == 35
    ensures LeadingAt(0xFFF_FFFF) == 36 && LeadingAt(0x7FF_FFFF) == 37
    ensures LeadingAt(0x3FF_FFFF) == 38 && LeadingAt(0x1FF_FFFF) == 39
  {
  }

  lemma LeadingHits32(k: nat)
    requires 32 <= k < 40
    ensures LeadingHit(k)
  {
    Fills32();
    LeadingEntries32();
    Pick(LeadingHit, 32, k);
  }

  lemma Fills40()
    ensures Fill(40) == 0xFF_FFFF && Fill(41) == 0x7F_FFFF && Fill(42) == 0x3F_FFFF && Fill(43) == 0x1F_FFFF
    ensures Fill(44) == 0xF_FFFF && Fill(45) == 0x7_FFFF && Fill(46) == 0x3_FFFF && Fill(47) == 0x1_FFFF
  {
    Fills32();
  }

  lemma LeadingEntries40()
    ensures LeadingAt(0xFF_FFFF) == 40 && LeadingAt(0x7F_FFFF) == 41
    ensures LeadingAt(0x3F_FFFF) == 42 && LeadingAt(0x1F_FFFF) == 43
    ensures LeadingAt(0xF_FFFF) == 44 && LeadingAt(0x7_FFFF) == 45
    ensures LeadingAt(0x3_FFFF) == 46 && LeadingAt(0x1_FFFF) == 47
  {
  }

  lemma LeadingHits40(k: nat)
    requires 40 <= k < 48
    ensures LeadingHit(k)
  {
    Fills40();
    LeadingEntries40();
    Pick(LeadingHit, 40, k);
  }

  lemma Fills48()
    ensures Fill(48) == 0xFFFF && Fill(49) == 0x7FFF && Fill(50) == 0x3FFF && Fill(51) == 0x1FFF
    ensures Fill(52) == 0xFFF && Fill(53) == 0x7FF && Fill(54) == 0x3FF && Fill(55) == 0x1FF
  {
    Fills40();
  }

  lemma LeadingEntries48()
    ensures LeadingAt(0xFFFF) == 48 && LeadingAt(0x7FFF) == 49 && LeadingAt(0x3FFF) == 50 && LeadingAt(0x1FFF) == 51
    ensures LeadingAt(0xFFF) == 52 && LeadingAt(0x7FF) == 53 && LeadingAt(0x3FF) == 54 && LeadingAt(0x1FF) == 55
  {
  }

  lemma LeadingHits48(k: nat)
    requires 48 <= k < 56
    ensures LeadingHit(k)
  {
    Fills48();
    LeadingEntries48();
    Pick(LeadingHit, 48, k);
  }

  lemma Fills56()
    ensures Fill(56) == 0xFF && Fill(57) == 0x7F && Fill(58) == 0x3F && Fill(59) == 0x1F
    ensures Fill(60) == 0xF && Fill(61) == 0x7 && Fill(62) == 0x3 && Fill(63) == 0x1
  {
    Fills48();
  }

  lemma LeadingEntries56()
    ensures LeadingAt(0xFF) == 56 && LeadingAt(0x7F) == 57 && LeadingAt(0x3F) == 58 && LeadingAt(0x1F) == 59
    ensures LeadingAt(0xF) == 60 && LeadingAt(0x7) == 61 && LeadingAt(0x3) == 62 && LeadingAt(0x1) == 63
  {
  }

  lemma LeadingHits56(k: nat)
    requires 56 <= k < 64
    ensures LeadingHit(k)
  {
    Fills56();
    LeadingEntries56();
    Pick(LeadingHit, 56, k);
  }

  lemma LeadingTableRight(k: nat)
    requires k < W
    ensures LeadingHit(k)
  {
    if k < 8 {
      LeadingHits0(k);
    } else if k < 16 {
      LeadingHits8(k);
    } else if k < 24 {
      LeadingHits16(k);
    } else if k < 32 {
      LeadingHits24(k);
    } else if k < 40 {
      LeadingHits32(k);
    } else if k < 48 {
      LeadingHits40(k);
    } else if k < 56 {
      LeadingHits48(k);
    } else {
      LeadingHits56(k);
    }
  }

  // ---------------------------------------------------------------- trailing zeros

  /** The low n bits, and the high n bits. */
  function MoreLow(m: Bits): Bits { (m << 1) | 1 }

  function Low(n: nat): Bits { if n == 0 then 0 else MoreLow(Low(n - 1)) }

  function MoreHigh(m: Bits): Bits { (m >> 1) | 0x8000_0000_0000_0000 }

  function High(n: nat): Bits { if n == 0 then 0 else MoreHigh(High(n - 1)) }

  predicate Within(x: Bits, m: Bits) { x & m == x }

  lemma WithinNone(x: Bits)
    requires Within(x, 0)
    ensures x == 0
  {
  }

  lemma WithinAll(x: Bits)
    ensures Within(x, 0xFFFF_FFFF_FFFF_FFFF)
  {
  }

  lemma LowestOfOdd(x: Bits)
    requires x & 1 == 1
    ensures LowestBit(x) == 1
  {
  }

  lemma LowestOfEven(x: Bits, p: Bits)
    requires x & 1 != 1 && LowestBit(x >> 1) == p
    ensures LowestBit(x) == p << 1
  {
  }

  lemma LowStep(x: Bits, m: Bits)
    requires x & 1 != 1 && x != 0 && Within(x, MoreLow(m))
    ensures x >> 1 != 0 && Within(x >> 1, m)
  {
  }

  lemma LowHalf(x: Bits, n: nat)
    requires n > 0 && x & 1 != 1 && x != 0 && Within(x, Low(n))
    ensures x >> 1 != 0 && Within(x >> 1, Low(n - 1))
  {
    LowStep(x, Low(n - 1));
  }

  lemma NextPower(x: Bits, k: nat)
    requires x & 1 != 1 && LowestBit(x >> 1) == Power(k)
    ensures LowestBit(x) == Power(k + 1)
  {
    LowestOfEven(x, Power(k));
  }

  lemma EvenCase(x: Bits, n: nat)
    requires n > 0 && x & 1 != 1
    requires var k := TrailingZeros(x >> 1, n - 1); k < n - 1 && LowestBit(x >> 1) == Power(k)
    ensures var k := TrailingZeros(x, n); k < n && LowestBit(x) == Power(k)
  {
    NextPower(x, TrailingZeros(x >> 1, n - 1));
  }

  lemma OddCase(x: Bits, n: nat)
    requires n > 0 && x & 1 == 1
    ensures TrailingZeros(x, n) == 0 && LowestBit(x) == Power(0)
  {
    LowestOfOdd(x);
  }

  /** x & -x is the power of two at the number of trailing zeros. */
  lemma {:induction false} LowestIsPower(x: Bits, n: nat)
    requires x != 0 && Within(x, Low(n))
    ensures var k := TrailingZeros(x, n); k < n && LowestBit(x) == Power(k)
  {
    if n == 0 {
      WithinNone(x);
    } else if x & 1 == 1 {
      OddCase(x, n);
    } else {
      LowHalf(x, n);
      LowestIsPower(x >> 1, n - 1);
      EvenCase(x, n);
    }
  }

  lemma {:induction false} NoOnes(x: Bits, n: nat)
    requires x == 0
    ensures TrailingZeros(x, n) == n && LeadingZeros(x, n) == n
  {
    if n > 0 {
      NoOnes(x >> 1, n - 1);
      NoOnes(x << 1, n - 1);
    }
  }

  /** The whole word, eight bits at a time. */
  lemma Masks()
    ensures Low(W) == 0xFFFF_FFFF_FFFF_FFFF && High(W) == 0xFFFF_FFFF_FFFF_FFFF
  {
    assert Low(8) == 0xFF && High(8) == 0xFF00_0000_0000_0000;
    assert Low(16) == 0xFFFF && High(16) == 0xFFFF_0000_0000_0000;
    assert Low(24) == 0xFF_FFFF && High(24) == 0xFFFF_FF00_0000_0000;
    assert Low(32) == 0xFFFF_FFFF && High(32) == 0xFFFF_FFFF_0000_0000;
    assert Low(40) == 0xFF_FFFF_FFFF && High(40) == 0xFFFF_FFFF_FF00_0000;
    assert Low(48) == 0xFFFF_FFFF_FFFF && High(48) == 0xFFFF_FFFF_FFFF_0000;
    assert Low(56) == 0xFF_FFFF_FFFF_FFFF && High(56) == 0xFFFF_FFFF_FFFF_FF00;
    assert Low(64) == 0xFFFF_FFFF_FFFF_FFFF && High(64) == 0xFFFF_FFFF_FFFF_FFFF;
  }

  lemma LookupTrailing(p: Bits, k: nat)
    requires k < W && p == Power(k)
    ensures TrailingAt(p) == k
  {
    TrailingTableRight(k);
  }

  /** The table lookup counts the trailing zeros of every word. */
  lemma CtzCounts(x: Bits)
    ensures Ctz(x) == TrailingZeros(x, W)
  {
    if x == 0 {
      NoOnes(x, W);
    } else {
      Masks();
      WithinAll(x);
      LowestIsPower(x, W);
      LookupTrailing(LowestBit(x), TrailingZeros(x, W));
    }
  }

  // ---------------------------------------------------------------- leading zeros

  lemma SmearTop(x: Bits)
    requires x & 0x8000_0000_0000_0000 != 0
    ensures Smear(x) == 0xFFFF_FFFF_FFFF_FFFF
  {
  }

  lemma SmearShift(x: Bits, m: Bits)
    requires x & 0x8000_0000_0000_0000 == 0 && Smear(x << 1) == m
    ensures Smear(x) == m >> 1
  {
  }

  lemma HighStep(x: Bits, m: Bits)
    requires x & 0x8000_0000_0000_0000 == 0 && x != 0 && Within(x, MoreHigh(m))
    ensures x << 1 != 0 && Within(x << 1, m)
  {
  }

  lemma HighHalf(x: Bits, n: nat)
    requires n > 0 && x & 0x8000_0000_0000_0000 == 0 && x != 0 && Within(x, High(n))
    ensures x << 1 != 0 && Within(x << 1, High(n - 1))
  {
    HighStep(x, High(n - 1));
  }

  lemma NextFill(x: Bits, k: nat)
    requires x & 0x8000_0000_0000_0000 == 0 && Smear(x << 1) == Fill(k)
    ensures Smear(x) == Fill(k + 1)
  {
    SmearShift(x, Fill(k));
  }

  lemma ClearCase(x: Bits, n: nat)
    requires n > 0 && x & 0x8000_0000_0000_0000 == 0
    requires var k := LeadingZeros(x << 1, n - 1); k < n - 1 && Smear(x << 1) == Fill(k)
    ensures var k := LeadingZeros(x, n); k < n && Smear(x) == Fill(k)
  {
    NextFill(x, LeadingZeros(x << 1, n - 1));
  }

  lemma SetCase(x: Bits, n: nat)
    requires n > 0 && x & 0x8000_0000_0000_0000 != 0
    ensures LeadingZeros(x, n) == 0 && Smear(x) == Fill(0)
  {
    SmearTop(x);
  }

  /** Smearing sets exactly the bits below the leading zeros. */
  lemma {:induction false} SmearIsFill(x: Bits, n: nat)
    requires x != 0 && Within(x, High(n))
    ensures var k := LeadingZeros(x, n); k < n && Smear(x) == Fill(k)
    decreases n
  {
    if n == 0 {
      WithinNone(x);
    } else if x & 0x8000_0000_0000_0000 != 0 {
      SetCase(x, n);
    } else {
      HighHalf(x, n);
      SmearIsFill(x << 1, n - 1);
      ClearCase(x, n);
    }
  }

  lemma LookupLeading(p: Bits, k: nat)
    requires k < W && p == Fill(k)
    ensures LeadingAt(p) == k
  {
    LeadingTableRight(k);
  }

  /** The lookup of the smeared word counts the leading zeros of every word. */
  lemma ClzCounts(x: Bits)
    ensures Clz(x) == LeadingZeros(x, W)
  {
    if x == 0 {
      NoOnes(x, W);
    } else {
      Masks();
      WithinAll(x);
      SmearIsFill(x, W);
      LookupLeading(Smear(x), LeadingZeros(x, W));
    }
  }

  // ---------------------------------------------------------------- population count

  /** The number of ones in each pair of bits, as a sum. */
  function PairSum(x: Bits): Bits { (x & 0x5555_5555_5555_5555) + ((x >> 1) & 0x5555_5555_5555_5555) }

  lemma PairSumSplits(x: Bits)
    ensures PairSum(x) + Upper(x) == x
  {
  }

  lemma MinusPlus(p: Bits, t: Bits)
    ensures Minus(p + t, t) == p
  {
  }

  lemma Cancel(x: Bits, p: Bits)
    requires p + Upper(x) == x
    ensures Pairs(x) == p
  {
    MinusPlus(p, Upper(x));
  }

  /** Subtracting the upper bit of a pair counts its ones. */
  lemma PairsSum(x: Bits)
    ensures Pairs(x) == PairSum(x)
  {
    PairSumSplits(x);
    Cancel(x, PairSum(x));
  }

  /** The counts of the octets, side by side. */
  function Counts(x: Bits): Bits { Octets(Nibbles(PairSum(x))) }

  function NextOctet(x: Bits): Bits { x >> 8 }

  lemma PairSumShift(x: Bits)
    ensures NextOctet(PairSum(x)) == PairSum(NextOctet(x))
  {
  }

  lemma NibblesShift(y: Bits)
    ensures NextOctet(Nibbles(y)) == Nibbles(NextOctet(y))
  {
  }

  lemma NibblesSmall(y: Bits)
    ensures Nibbles(y) & 0x8888_8888_8888_8888 == 0
  {
  }

  lemma OctetsShift(z: Bits)
    requires z & 0x8888_8888_8888_8888 == 0
    ensures NextOctet(Octets(z)) == Octets(NextOctet(z))
  {
  }

  lemma OctetsOfNibbles(y: Bits)
    ensures NextOctet(Octets(Nibbles(y))) == Octets(Nibbles(NextOctet(y)))
  {
    NibblesSmall(y);
    NibblesShift(y);
    OctetsShift(Nibbles(y));
  }

  /** Counting and moving on by one octet commute: no field of the parallel sums overflows. */
  lemma CountsShift(x: Bits)
    ensures NextOctet(Counts(x)) == Counts(NextOctet(x))
  {
    PairSumShift(x);
    OctetsOfNibbles(PairSum(x));
  }

  function Octet(y: Bits): nat { (y & 0xFF) as int }

  /** The sum of the low k octets. */
  function OctetSum(y: Bits, k: nat): nat { if k == 0 then 0 else Octet(y) + OctetSum(NextOctet(y), k - 1) }

  function Plus(a: Bits, b: Bits): Bits { a + b }

  function Half(x: Bits): Bits { x >> 1 }

  function Nibble(x: Bits): Bits { Half(Half(Half(Half(x)))) }

  function Sum4(x: Bits): Bits {
    Plus(Plus(x & 1, Half(x) & 1), Plus(Half(Half(x)) & 1, Half(Half(Half(x))) & 1))
  }

  lemma CountsLow(x: Bits)
    ensures Counts(x) & 0xFF == Plus(Sum4(x), Sum4(Nibble(x)))
  {
  }

  function Bit(x: Bits): nat { if x & 1 == 1 then 1 else 0 }

  function Ones4(x: Bits): nat { Bit(x) + Bit(Half(x)) + Bit(Half(Half(x))) + Bit(Half(Half(Half(x)))) }

  lemma BitInt(x: Bits)
    ensures (x & 1) as int == Bit(x)
  {
  }

  lemma Increment(c: Bits)
    requires c <= 0xFF
    ensures (c + 1) as int == c as int + 1
  {
  }

  lemma Regroup(a: Bits, b: Bits)
    requires 0 < a <= 0x3F && b <= 0x3F
    ensures Plus(a, b) == Plus(a - 1, b) + 1 && Plus(a - 1, b) <= 0xFF && (a - 1) + 1 == a && a - 1 < a
  {
  }

  lemma {:induction false} SmallSum(a: Bits, b: Bits)
    requires a <= 0x3F && b <= 0x3F
    ensures Plus(a, b) as int == a as int + b as int
  {
    if a != 0 {
      Regroup(a, b);
      Increment(a - 1);
      SmallSum(a - 1, b);
      Increment(Plus(a - 1, b));
    }
  }

  lemma SmallBits(a: Bits)
    requires a as int <= 0x3F
    ensures a <= 0x3F
  {
  }

  lemma NoCarry(a: Bits, b: Bits)
    requires a as int <= 0x3F && b as int <= 0x3F
    ensures Plus(a, b) as int == a as int + b as int
  {
    SmallBits(a);
    SmallBits(b);
    SmallSum(a, b);
  }

  lemma Sum4IsOnes4(x: Bits)
    ensures Sum4(x) as int == Ones4(x)
  {
    var y, z, v := Half(x), Half(Half(x)), Half(Half(Half(x)));
    BitInt(x);
    BitInt(y);
    BitInt(z);
    BitInt(v);
    NoCarry(x & 1, y & 1);
    NoCarry(z & 1, v & 1);
    NoCarry(Plus(x & 1, y & 1), Plus(z & 1, v & 1));
  }

  lemma OctetCounts(x: Bits)
    ensures Octet(Counts(x)) == Ones4(x) + Ones4(Nibble(x))
  {
    CountsLow(x);
    Sum4IsOnes4(x);
    Sum4IsOnes4(Nibble(x));
    NoCarry(Sum4(x), Sum4(Nibble(x)));
  }

  lemma OnesStep(x: Bits, n: nat)
    requires n > 0
    ensures Ones(x, n) == Bit(x) + Ones(Half(x), n - 1)
  {
  }

  lemma OnesOfFour(x: Bits, n: nat)
    ensures Ones(x, n + 4) == Ones4(x) + Ones(Nibble(x), n)
  {
    OnesStep(x, n + 4);
    OnesStep(Half(x), n + 3);
    OnesStep(Half(Half(x)), n + 2);
    OnesStep(Half(Half(Half(x))), n + 1);
  }

  lemma TwoNibbles(x: Bits)
    ensures Nibble(Nibble(x)) == NextOctet(x)
  {
  }

  lemma OnesOfEight(x: Bits, n: nat)
    ensures Ones(x, n + 8) == Ones4(x) + Ones4(Nibble(x)) + Ones(NextOctet(x), n)
  {
    OnesOfFour(x, n + 4);
    OnesOfFour(Nibble(x), n);
    TwoNibbles(x);
  }

  /** The octets of the parallel counts add up to the ones of the word. */
  lemma {:induction false} OctetSumIsOnes(x: Bits, k: nat)
    ensures OctetSum(Counts(x), k) == Ones(x, 8 * k)
    decreases k
  {
    if k > 0 {
      OctetCounts(x);
      CountsShift(x);
      OctetSumIsOnes(NextOctet(x), k - 1);
      OnesOfEight(x, 8 * (k - 1));
    }
  }

  // ---------------------------------------------------------------- folding adds the octets

  function Skip2(y: Bits): Bits { y >> 16 }

  function Skip4(y: Bits): Bits { y >> 32 }

  function Skip6(y: Bits): Bits { y >> 48 }

  lemma Skips2(y: Bits)
    ensures Skip2(y) == NextOctet(NextOctet(y))
  {
  }

  lemma Skips4(y: Bits)
    ensures Skip4(y) == Skip2(Skip2(y)) && Skip6(y) == Skip2(Skip4(y))
  {
  }

  lemma OctetSumTwo(y: Bits, k: nat)
    ensures OctetSum(y, k + 2) == Octet(y) + Octet(NextOctet(y)) + OctetSum(Skip2(y), k)
  {
    Skips2(y);
    assert OctetSum(y, k + 2) == Octet(y) + OctetSum(NextOctet(y), k + 1);
  }

  lemma Fold1At0Bits(y: Bits, a: Bits, b: Bits)
    requires Within(y, 0x0F0F_0F0F_0F0F_0F0F) && a == y & 0xFF && b == NextOctet(y) & 0xFF
    ensures Fold1(y) & 0xFF == Plus(a, b) && a <= 0x3F && b <= 0x3F
  {
  }

  lemma Fold1At0(y: Bits)
    requires Within(y, 0x0F0F_0F0F_0F0F_0F0F)
    ensures Octet(Fold1(y)) == Octet(y) + Octet(NextOctet(y))
  {
    Fold1At0Bits(y, y & 0xFF, NextOctet(y) & 0xFF);
    SmallSum(y & 0xFF, NextOctet(y) & 0xFF);
  }

  lemma Fold1At2Bits(y: Bits, a: Bits, b: Bits)
    requires Within(y, 0x0F0F_0F0F_0F0F_0F0F) && a == Skip2(y) & 0xFF && b == NextOctet(Skip2(y)) & 0xFF
    ensures Skip2(Fold1(y)) & 0xFF == Plus(a, b) && a <= 0x3F && b <= 0x3F
  {
  }

  lemma Fold1At2(y: Bits)
    requires Within(y, 0x0F0F_0F0F_0F0F_0F0F)
    ensures Octet(Skip2(Fold1(y))) == Octet(Skip2(y)) + Octet(NextOctet(Skip2(y)))
  {
    Fold1At2Bits(y, Skip2(y) & 0xFF, NextOctet(Skip2(y)) & 0xFF);
    SmallSum(Skip2(y) & 0xFF, NextOctet(Skip2(y)) & 0xFF);
  }

  lemma Fold1At4Bits(y: Bits, a: Bits, b: Bits)
    requires Within(y, 0x0F0F_0F0F_0F0F_0F0F) && a == Skip4(y) & 0xFF && b == NextOctet(Skip4(y)) & 0xFF
    ensures Skip4(Fold1(y)) & 0xFF == Plus(a, b) && a <= 0x3F && b <= 0x3F
  {
  }

  lemma Fold1At4(y: Bits)
    requires Within(y, 0x0F0F_0F0F_0F0F_0F0F)
    ensures Octet(Skip4(Fold1(y))) == Octet(Skip4(y)) + Octet(NextOctet(Skip4(y)))
  {
    Fold1At4Bits(y, Skip4(y) & 0xFF, NextOctet(Skip4(y)) & 0xFF);
    SmallSum(Skip4(y) & 0xFF, NextOctet(Skip4(y)) & 0xFF);
  }

  lemma Fold1At6Bits(y: Bits, a: Bits, b: Bits)
    requires Within(y, 0x0F0F_0F0F_0F0F_0F0F) && a == Skip6(y) & 0xFF && b == NextOctet(Skip6(y)) & 0xFF
    ensures Skip6(Fold1(y)) & 0xFF == Plus(a, b) && a <= 0x3F && b <= 0x3F
  {
  }

  lemma Fold1At6(y: Bits)
    requires Within(y, 0x0F0F_0F0F_0F0F_0F0F)
    ensures Octet(Skip6(Fold1(y))) == Octet(Skip6(y)) + Octet(NextOctet(Skip6(y)))
  {
    Fold1At6Bits(y, Skip6(y) & 0xFF, NextOctet(Skip6(y)) & 0xFF);
    SmallSum(Skip6(y) & 0xFF, NextOctet(Skip6(y)) & 0xFF);
  }

  lemma Fold1Small(y: Bits)
    requires Within(y, 0x0F0F_0F0F_0F0F_0F0F)
    ensures Within(Fold1(y), 0x1F1F_1F1F_1F1F_1F1F)
  {
  }

  lemma Fold2At0Bits(y: Bits, a: Bits, b: Bits)
    requires Within(y, 0x1F1F_1F1F_1F1F_1F1F) && a == y & 0xFF && b == Skip2(y) & 0xFF
    ensures Fold2(y) & 0xFF == Plus(a, b) && a <= 0x3F && b <= 0x3F
  {
  }

  lemma Fold2At0(y: Bits)
    requires Within(y, 0x1F1F_1F1F_1F1F_1F1F)
    ensures Octet(Fold2(y)) == Octet(y) + Octet(Skip2(y))
  {
    Fold2At0Bits(y, y & 0xFF, Skip2(y) & 0xFF);
    SmallSum(y & 0xFF, Skip2(y) & 0xFF);
  }

  lemma Fold2At4Bits(y: Bits, a: Bits, b: Bits)
    requires Within(y, 0x1F1F_1F1F_1F1F_1F1F) && a == Skip4(y) & 0xFF && b == Skip6(y) & 0xFF
    ensures Skip4(Fold2(y)) & 0xFF == Plus(a, b) && a <= 0x3F && b <= 0x3F
  {
  }

  lemma Fold2At4(y: Bits)
    requires Within(y, 0x1F1F_1F1F_1F1F_1F1F)
    ensures Octet(Skip4(Fold2(y))) == Octet(Skip4(y)) + Octet(Skip6(y))
  {
    Fold2At4Bits(y, Skip4(y) & 0xFF, Skip6(y) & 0xFF);
    SmallSum(Skip4(y) & 0xFF, Skip6(y) & 0xFF);
  }

  lemma Fold2Small(y: Bits)
    requires Within(y, 0x1F1F_1F1F_1F1F_1F1F)
    ensures Within(Fold2(y), 0x3F3F_3F3F_3F3F_3F3F)
  {
  }

  lemma Fold3Bits(y: Bits, a: Bits, b: Bits)
    requires Within(y, 0x3F3F_3F3F_3F3F_3F3F) && a == y & 0xFF && b == Skip4(y) & 0xFF
    ensures Fold3(y) == Plus(a, b) && a <= 0x3F && b <= 0x3F
  {
  }

  lemma Fold3All(y: Bits)
    requires Within(y, 0x3F3F_3F3F_3F3F_3F3F)
    ensures Fold3(y) as int == Octet(y) + Octet(Skip4(y))
  {
    Fold3Bits(y, y & 0xFF, Skip4(y) & 0xFF);
    SmallSum(y & 0xFF, Skip4(y) & 0xFF);
  }

  lemma EightOctets(y: Bits, n: nat)
    requires n == 8
    ensures OctetSum(y, n)
         == Octet(y) + Octet(NextOctet(y)) + Octet(Skip2(y)) + Octet(NextOctet(Skip2(y)))
            + Octet(Skip4(y)) + Octet(NextOctet(Skip4(y))) + Octet(Skip6(y)) + Octet(NextOctet(Skip6(y)))
  {
    Skips4(y);
    OctetSumTwo(y, n - 2);
    OctetSumTwo(Skip2(y), n - 4);
    OctetSumTwo(Skip4(y), n - 6);
    OctetSumTwo(Skip6(y), n - 8);
    NoOctets(Skip2(Skip6(y)));
  }

  lemma NoOctets(y: Bits)
    ensures OctetSum(y, 0) == 0
  {
  }

  lemma Folded(y: Bits)
    requires Within(y, 0x0F0F_0F0F_0F0F_0F0F)
    ensures Octet(Fold2(Fold1(y))) + Octet(Skip4(Fold2(Fold1(y)))) == OctetSum(y, 8)
  {
    Fold1Small(y);
    Fold1At0(y);
    Fold1At2(y);
    Fold1At4(y);
    Fold1At6(y);
    Fold2At0(Fold1(y));
    Fold2At4(Fold1(y));
    EightOctets(y, 8);
  }

  lemma FoldIsSum(y: Bits)
    requires Within(y, 0x0F0F_0F0F_0F0F_0F0F)
    ensures Fold(y) as int == OctetSum(y, 8)
  {
    Fold1Small(y);
    Fold2Small(Fold1(y));
    Fold3All(Fold2(Fold1(y)));
    Folded(y);
  }

  lemma OctetsSmall(z: Bits)
    ensures Within(Octets(z), 0x0F0F_0F0F_0F0F_0F0F)
  {
  }

  /** The parallel sum counts the ones of every word. */
  lemma PopCounts(x: Bits)
    ensures Pop(x) == Ones(x, W)
  {
    PairsSum(x);
    OctetsSmall(Nibbles(PairSum(x)));
    FoldIsSum(Counts(x));
    OctetSumIsOnes(x, 8);
  }
}
