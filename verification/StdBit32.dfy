/**
 * The 32-bit counters of stdbit.h: a multiplication and a table for the zeros, a parallel
 * sum for the ones. Each agrees with a definition that looks at one bit at a time.
 */
module StdBit32 {

  type Bits = bv32

  const W: nat := 32

  // ---------------------------------------------------------------- one bit at a time

  /** Zeros below the lowest one among the low n bits. */
  function TrailingZeros(x: Bits, n: nat): nat {
    if n == 0 || x & 1 == 1 then 0 else 1 + TrailingZeros(x >> 1, n - 1)
  }

  /** Zeros above the highest one among the high n bits. */
  function LeadingZeros(x: Bits, n: nat): nat
    decreases n
  {
    if n == 0 || x & 0x8000_0000 != 0 then 0 else 1 + LeadingZeros(x << 1, n - 1)
  }

  function Ones(x: Bits, n: nat): nat {
    if n == 0 then 0 else (if x & 1 == 1 then 1 else 0) + Ones(x >> 1, n - 1)
  }

  // ---------------------------------------------------------------- the counters

  const TrailingTable: seq<nat> :=
    [0, 1, 28, 2, 29, 14, 24, 3, 30, 22, 20, 15, 25, 17, 4, 8]
    + [31, 27, 13, 23, 21, 19, 16, 7, 26, 12, 18, 6, 11, 5, 10, 9]

  const LeadingTable: seq<nat> :=
    [31, 22, 30, 21, 18, 10, 29, 2, 20, 17, 15, 13, 9, 6, 28, 1]
    + [23, 19, 11, 3, 16, 14, 7, 24, 12, 4, 8, 25, 5, 26, 27, 0]

  function High27(x: Bits): (i: nat)
    ensures i < W
  {
    (x >> 27) as int
  }

  function TrailingAt(p: Bits): nat { TrailingTable[High27(p * 0x077C_B531)] }

  function LeadingAt(p: Bits): nat { LeadingTable[High27(p * 0x07C4_ACDD)] }

  function LowestBit(x: Bits): Bits { x & -x }

  function Ctz(x: Bits): nat {
    if x == 0 then W else TrailingAt(LowestBit(x))
  }

  function Smear(x: Bits): Bits {
    var x := x | (x >> 1);
    var x := x | (x >> 2);
    var x := x | (x >> 4);
    var x := x | (x >> 8);
    x | (x >> 16)
  }

  function Clz(x: Bits): nat {
    if x == 0 then W else LeadingAt(Smear(x))
  }

  function Minus(x: Bits, t: Bits): Bits { x - t }

  function Upper(x: Bits): Bits { (x >> 1) & 0x5555_5555 }

  function Pairs(x: Bits): Bits { Minus(x, Upper(x)) }

  function Nibbles(x: Bits): Bits { (x & 0x3333_3333) + ((x >> 2) & 0x3333_3333) }

  function Octets(x: Bits): Bits { (x + (x >> 4)) & 0x0F0F_0F0F }

  function Fold1(x: Bits): Bits { x + (x >> 8) }

  function Fold2(x: Bits): Bits { (x + (x >> 16)) & 0x3F }

  function Fold(x: Bits): Bits { Fold2(Fold1(x)) }

  function Pop(x: Bits): nat { Fold(Octets(Nibbles(Pairs(x)))) as int }

  // ---------------------------------------------------------------- the tables

  function Power(k: nat): Bits { if k == 0 then 1 else Power(k - 1) << 1 }

  /** All ones below k zeros. */
  function Fill(k: nat): Bits { if k == 0 then 0xFFFF_FFFF else Fill(k - 1) >> 1 }

  /** The tables have the right entries for k zeros. */
  predicate TrailingHit(k: nat) { TrailingAt(Power(k)) == k }

  predicate LeadingHit(k: nat) { LeadingAt(Fill(k)) == k }

  /** Eight consecutive numbers, one at a time. */
  lemma Pick(hit: nat -> bool, c: nat, k: nat)
    requires c <= k < c + 8
    requires hit(c) && hit(c + 1) && hit(c + 2) && hit(c + 3) && hit(c + 4) && hit(c + 5) && hit(c + 6) && hit(c + 7)
    ensures hit(k)
  {
  }

  lemma Powers0()
    ensures Power(0) == 0x1 && Power(1) == 0x2 && Power(2) == 0x4 && Power(3) == 0x8
    ensures Power(4) == 0x10 && Power(5) == 0x20 && Power(6) == 0x40 && Power(7) == 0x80
  {
  }

  lemma TrailingEntries0()
    ensures TrailingAt(0x1) == 0 && TrailingAt(0x2) == 1 && TrailingAt(0x4) == 2 && TrailingAt(0x8) == 3
    ensures TrailingAt(0x10) == 4 && TrailingAt(0x20) == 5 && TrailingAt(0x40) == 6 && TrailingAt(0x80) == 7
  {
  }

  lemma TrailingHits0(k: nat)
    requires 0 <= k < 8
    ensures TrailingHit(k)
  {
    Powers0();
    TrailingEntries0();
    Pick(TrailingHit, 0, k);
  }

  lemma Powers8()
    ensures Power(8) == 0x100 && Power(9) == 0x200 && Power(10) == 0x400 && Power(11) == 0x800
    ensures Power(12) == 0x1000 && Power(13) == 0x2000 && Power(14) == 0x4000 && Power(15) == 0x8000
  {
    Powers0();
  }

  lemma TrailingEntries8()
    ensures TrailingAt(0x100) == 8 && TrailingAt(0x200) == 9 && TrailingAt(0x400) == 10 && TrailingAt(0x800) == 11
    ensures TrailingAt(0x1000) == 12 && TrailingAt(0x2000) == 13
    ensures TrailingAt(0x4000) == 14 && TrailingAt(0x8000) == 15
  {
  }

  lemma TrailingHits8(k: nat)
    requires 8 <= k < 16
    ensures TrailingHit(k)
  {
    Powers8();
    TrailingEntries8();
    Pick(TrailingHit, 8, k);
  }

  lemma Powers16()
    ensures Power(16) == 0x1_0000 && Power(17) == 0x2_0000 && Power(18) == 0x4_0000 && Power(19) == 0x8_0000
    ensures Power(20) == 0x10_0000 && Power(21) == 0x20_0000 && Power(22) == 0x40_0000 && Power(23) == 0x80_0000
  {
    Powers8();
  }

  lemma TrailingEntries16()
    ensures TrailingAt(0x1_0000) == 16 && TrailingAt(0x2_0000) == 17
    ensures TrailingAt(0x4_0000) == 18 && TrailingAt(0x8_0000) == 19
    ensures TrailingAt(0x10_0000) == 20 && TrailingAt(0x20_0000) == 21
    ensures TrailingAt(0x40_0000) == 22 && TrailingAt(0x80_0000) == 23
  {
  }

  lemma TrailingHits16(k: nat)
    requires 16 <= k < 24
    ensures TrailingHit(k)
  {
    Powers16();
    TrailingEntries16();
    Pick(TrailingHit, 16, k);
  }

  lemma Powers24()
    ensures Power(24) == 0x100_0000 && Power(25) == 0x200_0000 && Power(26) == 0x400_0000 && Power(27) == 0x800_0000
    ensures Power(28) == 0x1000_0000 && Power(29) == 0x2000_0000
    ensures Power(30) == 0x4000_0000 && Power(31) == 0x8000_0000
  {
    Powers16();
  }

  lemma TrailingEntries24()
    ensures TrailingAt(0x100_0000) == 24 && TrailingAt(0x200_0000) == 25
    ensures TrailingAt(0x400_0000) == 26 && TrailingAt(0x800_0000) == 27
    ensures TrailingAt(0x1000_0000) == 28 && TrailingAt(0x2000_0000) == 29
    ensures TrailingAt(0x4000_0000) == 30 && TrailingAt(0x8000_0000) == 31
  {
  }

  lemma TrailingHits24(k: nat)
    requires 24 <= k < 32
    ensures TrailingHit(k)
  {
    Powers24();
    TrailingEntries24();
    Pick(TrailingHit, 24, k);
  }

  lemma TrailingTableRight(k: nat)
    requires k < W
    ensures TrailingHit(k)
  {
    if k < 8 {
      TrailingHits0(k);
    } else if k < 16 {
      TrailingHits8(k);
    } else if k < 24 {
      TrailingHits16(k);
    } else {
      TrailingHits24(k);
    }
  }

  lemma Fills0()
    ensures Fill(0) == 0xFFFF_FFFF && Fill(1) == 0x7FFF_FFFF && Fill(2) == 0x3FFF_FFFF && Fill(3) == 0x1FFF_FFFF
    ensures Fill(4) == 0xFFF_FFFF && Fill(5) == 0x7FF_FFFF && Fill(6) == 0x3FF_FFFF && Fill(7) == 0x1FF_FFFF
  {
  }

  lemma LeadingEntries0()
    ensures LeadingAt(0xFFFF_FFFF) == 0 && LeadingAt(0x7FFF_FFFF) == 1
    ensures LeadingAt(0x3FFF_FFFF) == 2 && LeadingAt(0x1FFF_FFFF) == 3
    ensures LeadingAt(0xFFF_FFFF) == 4 && LeadingAt(0x7FF_FFFF) == 5
    ensures LeadingAt(0x3FF_FFFF) == 6 && LeadingAt(0x1FF_FFFF) == 7
  {
  }

  lemma LeadingHits0(k: nat)
    requires 0 <= k < 8
    ensures LeadingHit(k)
  {
    Fills0();
    LeadingEntries0();
    Pick(LeadingHit, 0, k);
  }

  lemma Fills8()
    ensures Fill(8) == 0xFF_FFFF && Fill(9) == 0x7F_FFFF && Fill(10) == 0x3F_FFFF && Fill(11) == 0x1F_FFFF
    ensures Fill(12) == 0xF_FFFF && Fill(13) == 0x7_FFFF && Fill(14) == 0x3_FFFF && Fill(15) == 0x1_FFFF
  {
    Fills0();
  }

  lemma LeadingEntries8()
    ensures LeadingAt(0xFF_FFFF) == 8 && LeadingAt(0x7F_FFFF) == 9
    ensures LeadingAt(0x3F_FFFF) == 10 && LeadingAt(0x1F_FFFF) == 11
    ensures LeadingAt(0xF_FFFF) == 12 && LeadingAt(0x7_FFFF) == 13
    ensures LeadingAt(0x3_FFFF) == 14 && LeadingAt(0x1_FFFF) == 15
  {
  }

  lemma LeadingHits8(k: nat)
    requires 8 <= k < 16
    ensures LeadingHit(k)
  {
    Fills8();
    LeadingEntries8();
    Pick(LeadingHit, 8, k);
  }

  lemma Fills16()
    ensures Fill(16) == 0xFFFF && Fill(17) == 0x7FFF && Fill(18) == 0x3FFF && Fill(19) == 0x1FFF
    ensures Fill(20) == 0xFFF && Fill(21) == 0x7FF && Fill(22) == 0x3FF && Fill(23) == 0x1FF
  {
    Fills8();
  }

  lemma LeadingEntries16()
    ensures LeadingAt(0xFFFF) == 16 && LeadingAt(0x7FFF) == 17 && LeadingAt(0x3FFF) == 18 && LeadingAt(0x1FFF) == 19
    ensures LeadingAt(0xFFF) == 20 && LeadingAt(0x7FF) == 21 && LeadingAt(0x3FF) == 22 && LeadingAt(0x1FF) == 23
  {
  }

  lemma LeadingHits16(k: nat)
    requires 16 <= k < 24
    ensures LeadingHit(k)
  {
    Fills16();
    LeadingEntries16();
    Pick(LeadingHit, 16, k);
  }

  lemma Fills24()
    ensures Fill(24) == 0xFF && Fill(25) == 0x7F && Fill(26) == 0x3F && Fill(27) == 0x1F
    ensures Fill(28) == 0xF && Fill(29) == 0x7 && Fill(30) == 0x3 && Fill(31) == 0x1
  {
    Fills16();
  }

  lemma LeadingEntries24()
    ensures LeadingAt(0xFF) == 24 && LeadingAt(0x7F) == 25 && LeadingAt(0x3F) == 26 && LeadingAt(0x1F) == 27
    ensures LeadingAt(0xF) == 28 && LeadingAt(0x7) == 29 && LeadingAt(0x3) == 30 && LeadingAt(0x1) == 31
  {
  }

  lemma LeadingHits24(k: nat)
    requires 24 <= k < 32
    ensures LeadingHit(k)
  {
    Fills24();
    LeadingEntries24();
    Pick(LeadingHit, 24, k);
  }

  lemma LeadingTableRight(k: nat)
    requires k < W
    ensures LeadingHit(k)
  {
    if k < 8 {
      LeadingHits0(k);
    } else if k < 16 {
      LeadingHits8(k);
    } else if k < 24 {
      LeadingHits16(k);
    } else {
      LeadingHits24(k);
    }
  }

  // ---------------------------------------------------------------- trailing zeros

  /** The low n bits, and the high n bits. */
  function MoreLow(m: Bits): Bits { (m << 1) | 1 }

  function Low(n: nat): Bits { if n == 0 then 0 else MoreLow(Low(n - 1)) }

  function MoreHigh(m: Bits): Bits { (m >> 1) | 0x8000_0000 }

  function High(n: nat): Bits { if n == 0 then 0 else MoreHigh(High(n - 1)) }

  predicate Within(x: Bits, m: Bits) { x & m == x }

  lemma WithinNone(x: Bits)
    requires Within(x, 0)
    ensures x == 0
  {
  }

  lemma WithinAll(x: Bits)
    ensures Within(x, 0xFFFF_FFFF)
  {
  }

  lemma LowestOfOdd(x: Bits)
    requires x & 1 == 1
    ensures LowestBit(x) == 1
  {
  }

  lemma LowestOfEven(x: Bits, p: Bits)
    requires x & 1 != 1 && LowestBit(x >> 1) == p
    ensures LowestBit(x) == p << 1
  {
  }

  lemma LowStep(x: Bits, m: Bits)
    requires x & 1 != 1 && x != 0 && Within(x, MoreLow(m))
    ensures x >> 1 != 0 && Within(x >> 1, m)
  {
  }

  lemma LowHalf(x: Bits, n: nat)
    requires n > 0 && x & 1 != 1 && x != 0 && Within(x, Low(n))
    ensures x >> 1 != 0 && Within(x >> 1, Low(n - 1))
  {
    LowStep(x, Low(n - 1));
  }

  lemma NextPower(x: Bits, k: nat)
    requires x & 1 != 1 && LowestBit(x >> 1) == Power(k)
    ensures LowestBit(x) == Power(k + 1)
  {
    LowestOfEven(x, Power(k));
  }

  lemma EvenCase(x: Bits, n: nat)
    requires n > 0 && x & 1 != 1
    requires var k := TrailingZeros(x >> 1, n - 1); k < n - 1 && LowestBit(x >> 1) == Power(k)
    ensures var k := TrailingZeros(x, n); k < n && LowestBit(x) == Power(k)
  {
    NextPower(x, TrailingZeros(x >> 1, n - 1));
  }

  lemma OddCase(x: Bits, n: nat)
    requires n > 0 && x & 1 == 1
    ensures TrailingZeros(x, n) == 0 && LowestBit(x) == Power(0)
  {
    LowestOfOdd(x);
  }

  /** x & -x is the power of two at the number of trailing zeros. */
  lemma {:induction false} LowestIsPower(x: Bits, n: nat)
    requires x != 0 && Within(x, Low(n))
    ensures var k := TrailingZeros(x, n); k < n && LowestBit(x) == Power(k)
  {
    if n == 0 {
      WithinNone(x);
    } else if x & 1 == 1 {
      OddCase(x, n);
    } else {
      LowHalf(x, n);
      LowestIsPower(x >> 1, n - 1);
      EvenCase(x, n);
    }
  }

  lemma {:induction false} NoOnes(x: Bits, n: nat)
    requires x == 0
    ensures TrailingZeros(x, n) == n && LeadingZeros(x, n) == n
  {
    if n > 0 {
      NoOnes(x >> 1, n - 1);
      NoOnes(x << 1, n - 1);
    }
  }

  /** The whole word, eight bits at a time. */
  lemma Masks()
    ensures Low(W) == 0xFFFF_FFFF && High(W) == 0xFFFF_FFFF
  {
    assert Low(8) == 0xFF && High(8) == 0xFF00_0000;
    assert Low(16) == 0xFFFF && High(16) == 0xFFFF_0000;
    assert Low(24) == 0xFF_FFFF && High(24) == 0xFFFF_FF00;
    assert Low(32) == 0xFFFF_FFFF && High(32) == 0xFFFF_FFFF;
  }

  lemma LookupTrailing(p: Bits, k: nat)
    requires k < W && p == Power(k)
    ensures TrailingAt(p) == k
  {
    TrailingTableRight(k);
  }

  /** The table lookup counts the trailing zeros of every word. */
  lemma CtzCounts(x: Bits)
    ensures Ctz(x) == TrailingZeros(x, W)
  {
    if x == 0 {
      NoOnes(x, W);
    } else {
      Masks();
      WithinAll(x);
      LowestIsPower(x, W);
      LookupTrailing(LowestBit(x), TrailingZeros(x, W));
    }
  }

  // ---------------------------------------------------------------- leading zeros

  lemma SmearTop(x: Bits)
    requires x & 0x8000_0000 != 0
    ensures Smear(x) == 0xFFFF_FFFF
  {
  }

  lemma SmearShift(x: Bits, m: Bits)
    requires x & 0x8000_0000 == 0 && Smear(x << 1) == m
    ensures Smear(x) == m >> 1
  {
  }

  lemma HighStep(x: Bits, m: Bits)
    requires x & 0x8000_0000 == 0 && x != 0 && Within(x, MoreHigh(m))
    ensures x << 1 != 0 && Within(x << 1, m)
  {
  }

  lemma HighHalf(x: Bits, n: nat)
    requires n > 0 && x & 0x8000_0000 == 0 && x != 0 && Within(x, High(n))
    ensures x << 1 != 0 && Within(x << 1, High(n - 1))
  {
    HighStep(x, High(n - 1));
  }

  lemma NextFill(x: Bits, k: nat)
    requires x & 0x8000_0000 == 0 && Smear(x << 1) == Fill(k)
    ensures Smear(x) == Fill(k + 1)
  {
    SmearShift(x, Fill(k));
  }

  lemma ClearCase(x: Bits, n: nat)
    requires n > 0 && x & 0x8000_0000 == 0
    requires var k := LeadingZeros(x << 1, n - 1); k < n - 1 && Smear(x << 1) == Fill(k)
    ensures var k := LeadingZeros(x, n); k < n && Smear(x) == Fill(k)
  {
    NextFill(x, LeadingZeros(x << 1, n - 1));
  }

  lemma SetCase(x: Bits, n: nat)
    requires n > 0 && x & 0x8000_0000 != 0
    ensures LeadingZeros(x, n) == 0 && Smear(x) == Fill(0)
  {
    SmearTop(x);
  }

  /** Smearing sets exactly the bits below the leading zeros. */
  lemma {:induction false} SmearIsFill(x: Bits, n: nat)
    requires x != 0 && Within(x, High(n))
    ensures var k := LeadingZeros(x, n); k < n && Smear(x) == Fill(k)
    decreases n
  {
    if n == 0 {
      WithinNone(x);
    } else if x & 0x8000_0000 != 0 {
      SetCase(x, n);
    } else {
      HighHalf(x, n);
      SmearIsFill(x << 1, n - 1);
      ClearCase(x, n);
    }
  }

  lemma LookupLeading(p: Bits, k: nat)
    requires k < W && p == Fill(k)
    ensures LeadingAt(p) == k
  {
    LeadingTableRight(k);
  }

  /** The lookup of the smeared word counts the leading zeros of every word. */
  lemma ClzCounts(x: Bits)
    ensures Clz(x) == LeadingZeros(x, W)
  {
    if x == 0 {
      NoOnes(x, W);
    } else {
      Masks();
      WithinAll(x);
      SmearIsFill(x, W);
      LookupLeading(Smear(x), LeadingZeros(x, W));
    }
  }

  // ---------------------------------------------------------------- population count

  /** The number of ones in each pair of bits, as a sum. */
  function PairSum(x: Bits): Bits { (x & 0x5555_5555) + ((x >> 1) & 0x5555_5555) }

  lemma PairSumSplits(x: Bits)
    ensures PairSum(x) + Upper(x) == x
  {
  }

  lemma MinusPlus(p: Bits, t: Bits)
    ensures Minus(p + t, t) == p
  {
  }

  lemma Cancel(x: Bits, p: Bits)
    requires p + Upper(x) == x
    ensures Pairs(x) == p
  {
    MinusPlus(p, Upper(x));
  }

  /** Subtracting the upper bit of a pair counts its ones. */
  lemma PairsSum(x: Bits)
    ensures Pairs(x) == PairSum(x)
  {
    PairSumSplits(x);
    Cancel(x, PairSum(x));
  }

  /** The counts of the octets, side by side. */
  function Counts(x: Bits): Bits { Octets(Nibbles(PairSum(x))) }

  function NextOctet(x: Bits): Bits { x >> 8 }

  lemma PairSumShift(x: Bits)
    ensures NextOctet(PairSum(x)) == PairSum(NextOctet(x))
  {
  }

  lemma NibblesShift(y: Bits)
    ensures NextOctet(Nibbles(y)) == Nibbles(NextOctet(y))
  {
  }

  lemma NibblesSmall(y: Bits)
    ensures Nibbles(y) & 0x8888_8888 == 0
  {
  }

  lemma OctetsShift(z: Bits)
    requires z & 0x8888_8888 == 0
    ensures NextOctet(Octets(z)) == Octets(NextOctet(z))
  {
  }

  lemma OctetsOfNibbles(y: Bits)
    ensures NextOctet(Octets(Nibbles(y))) == Octets(Nibbles(NextOctet(y)))
  {
    NibblesSmall(y);
    NibblesShift(y);
    OctetsShift(Nibbles(y));
  }

  /** Counting and moving on by one octet commute: no field of the parallel sums overflows. */
  lemma CountsShift(x: Bits)
    ensures NextOctet(Counts(x)) == Counts(NextOctet(x))
  {
    PairSumShift(x);
    OctetsOfNibbles(PairSum(x));
  }

  function Octet(y: Bits): nat { (y & 0xFF) as int }

  /** The sum of the low k octets. */
  function OctetSum(y: Bits, k: nat): nat { if k == 0 then 0 else Octet(y) + OctetSum(NextOctet(y), k - 1) }

  function Plus(a: Bits, b: Bits): Bits { a + b }

  function Half(x: Bits): Bits { x >> 1 }

  function Nibble(x: Bits): Bits { Half(Half(Half(Half(x)))) }

  function Sum4(x: Bits): Bits {
    Plus(Plus(x & 1, Half(x) & 1), Plus(Half(Half(x)) & 1, Half(Half(Half(x))) & 1))
  }

  lemma CountsLow(x: Bits)
    ensures Counts(x) & 0xFF == Plus(Sum4(x), Sum4(Nibble(x)))
  {
  }

  function Bit(x: Bits): nat { if x & 1 == 1 then 1 else 0 }

  function Ones4(x: Bits): nat { Bit(x) + Bit(Half(x)) + Bit(Half(Half(x))) + Bit(Half(Half(Half(x)))) }

  lemma BitInt(x: Bits)
    ensures (x & 1) as int == Bit(x)
  {
  }

  lemma Increment(c: Bits)
    requires c <= 0xFF
    ensures (c + 1) as int == c as int + 1
  {
  }

  lemma Regroup(a: Bits, b: Bits)
    requires 0 < a <= 0x3F && b <= 0x3F
    ensures Plus(a, b) == Plus(a - 1, b) + 1 && Plus(a - 1, b) <= 0xFF && (a - 1) + 1 == a && a - 1 < a
  {
  }

  lemma {:induction false} SmallSum(a: Bits, b: Bits)
    requires a <= 0x3F && b <= 0x3F
    ensures Plus(a, b) as int == a as int + b as int
  {
    if a != 0 {
      Regroup(a, b);
      Increment(a - 1);
      SmallSum(a - 1, b);
      Increment(Plus(a - 1, b));
    }
  }

  lemma SmallBits(a: Bits)
    requires a as int <= 0x3F
    ensures a <= 0x3F
  {
  }

  lemma NoCarry(a: Bits, b: Bits)
    requires a as int <= 0x3F && b as int <= 0x3F
    ensures Plus(a, b) as int == a as int + b as int
  {
    SmallBits(a);
    SmallBits(b);
    SmallSum(a, b);
  }

  lemma Sum4IsOnes4(x: Bits)
    ensures Sum4(x) as int == Ones4(x)
  {
    var y, z, v := Half(x), Half(Half(x)), Half(Half(Half(x)));
    BitInt(x);
    BitInt(y);
    BitInt(z);
    BitInt(v);
    NoCarry(x & 1, y & 1);
    NoCarry(z & 1, v & 1);
    NoCarry(Plus(x & 1, y & 1), Plus(z & 1, v & 1));
  }

  lemma OctetCounts(x: Bits)
    ensures Octet(Counts(x)) == Ones4(x) + Ones4(Nibble(x))
  {
    CountsLow(x);
    Sum4IsOnes4(x);
    Sum4IsOnes4(Nibble(x));
    NoCarry(Sum4(x), Sum4(Nibble(x)));
  }

  lemma OnesStep(x: Bits, n: nat)
    requires n > 0
    ensures Ones(x, n) == Bit(x) + Ones(Half(x), n - 1)
  {
  }

  lemma OnesOfFour(x: Bits, n: nat)
    ensures Ones(x, n + 4) == Ones4(x) + Ones(Nibble(x), n)
  {
    OnesStep(x, n + 4);
    OnesStep(Half(x), n + 3);
    OnesStep(Half(Half(x)), n + 2);
    OnesStep(Half(Half(Half(x))), n + 1);
  }

  lemma TwoNibbles(x: Bits)
    ensures Nibble(Nibble(x)) == NextOctet(x)
  {
  }

  lemma OnesOfEight(x: Bits, n: nat)
    ensures Ones(x, n + 8) == Ones4(x) + Ones4(Nibble(x)) + Ones(NextOctet(x), n)
  {
    OnesOfFour(x, n + 4);
    OnesOfFour(Nibble(x), n);
    TwoNibbles(x);
  }

  /** The octets of the parallel counts add up to the ones of the word. */
  lemma {:induction false} OctetSumIsOnes(x: Bits, k: nat)
    ensures OctetSum(Counts(x), k) == Ones(x, 8 * k)
    decreases k
  {
    if k > 0 {
      OctetCounts(x);
      CountsShift(x);
      OctetSumIsOnes(NextOctet(x), k - 1);
      OnesOfEight(x, 8 * (k - 1));
    }
  }

  // ---------------------------------------------------------------- folding adds the octets

  function Skip2(y: Bits): Bits { y >> 16 }

  lemma Skips2(y: Bits)
    ensures Skip2(y) == NextOctet(NextOctet(y))
  {
  }

  lemma OctetSumTwo(y: Bits, k: nat)
    ensures OctetSum(y, k + 2) == Octet(y) + Octet(NextOctet(y)) + OctetSum(Skip2(y), k)
  {
    Skips2(y);
    assert OctetSum(y, k + 2) == Octet(y) + OctetSum(NextOctet(y), k + 1);
  }

  lemma Fold1At0Bits(y: Bits, a: Bits, b: Bits)
    requires Within(y, 0x0F0F_0F0F) && a == y & 0xFF && b == NextOctet(y) & 0xFF
    ensures Fold1(y) & 0xFF == Plus(a, b) && a <= 0x3F && b <= 0x3F
  {
  }

  lemma Fold1At0(y: Bits)
    requires Within(y, 0x0F0F_0F0F)
    ensures Octet(Fold1(y)) == Octet(y) + Octet(NextOctet(y))
  {
    Fold1At0Bits(y, y & 0xFF, NextOctet(y) & 0xFF);
    SmallSum(y & 0xFF, NextOctet(y) & 0xFF);
  }

  lemma Fold1At2Bits(y: Bits, a: Bits, b: Bits)
    requires Within(y, 0x0F0F_0F0F) && a == Skip2(y) & 0xFF && b == NextOctet(Skip2(y)) & 0xFF
    ensures Skip2(Fold1(y)) & 0xFF == Plus(a, b) && a <= 0x3F && b <= 0x3F
  {
  }

  lemma Fold1At2(y: Bits)
    requires Within(y, 0x0F0F_0F0F)
    ensures Octet(Skip2(Fold1(y))) == Octet(Skip2(y)) + Octet(NextOctet(Skip2(y)))
  {
    Fold1At2Bits(y, Skip2(y) & 0xFF, NextOctet(Skip2(y)) & 0xFF);
    SmallSum(Skip2(y) & 0xFF, NextOctet(Skip2(y)) & 0xFF);
  }

  lemma Fold1Small(y: Bits)
    requires Within(y, 0x0F0F_0F0F)
    ensures Within(Fold1(y), 0x1F1F_1F1F)
  {
  }

  lemma Fold2Bits(y: Bits, a: Bits, b: Bits)
    requires Within(y, 0x1F1F_1F1F) && a == y & 0xFF && b == Skip2(y) & 0xFF
    ensures Fold2(y) == Plus(a, b) && a <= 0x3F && b <= 0x3F
  {
  }

  lemma Fold2All(y: Bits)
    requires Within(y, 0x1F1F_1F1F)
    ensures Fold2(y) as int == Octet(y) + Octet(Skip2(y))
  {
    Fold2Bits(y, y & 0xFF, Skip2(y) & 0xFF);
    SmallSum(y & 0xFF, Skip2(y) & 0xFF);
  }

  lemma FoldIsSum(y: Bits)
    requires Within(y, 0x0F0F_0F0F)
    ensures Fold(y) as int == OctetSum(y, 4)
  {
    Fold1Small(y);
    Fold1At0(y);
    Fold1At2(y);
    Fold2All(Fold1(y));
    OctetSumTwo(y, 2);
    OctetSumTwo(Skip2(y), 0);
  }

  lemma OctetsSmall(z: Bits)
    ensures Within(Octets(z), 0x0F0F_0F0F)
  {
  }

  /** The parallel sum counts the ones of every word. */
  lemma PopCounts(x: Bits)
    ensures Pop(x) == Ones(x, W)
  {
    PairsSum(x);
    OctetsSmall(Nibbles(PairSum(x)));
    FoldIsSum(Counts(x));
    OctetSumIsOnes(x, 4);
  }
}
