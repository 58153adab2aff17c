/** The bit scan of popBit: the 64-entry table, the square index as the
  * source computes it, and the 32-bit fold it evidently intends.
  */
module BitScan {
  import opened Bits

  /** The 64-entry table of the De Bruijn-style bit scan, row by row as in
    * the source. */
  const BIT_TABLE: seq<int> :=
    [63, 30,  3, 32, 25, 41, 22, 33] +
    [15, 50, 42, 13, 11, 53, 19, 34] +
    [61, 29,  2, 51, 21, 43, 45, 10] +
    [18, 47,  1, 54,  9, 57,  0, 35] +
    [62, 31, 40,  4, 49,  5, 52, 26] +
    [60,  6, 23, 44, 46, 27, 56, 16] +
    [ 7, 39, 48, 24, 59, 14, 12, 55] +
    [38, 28, 58, 20, 37, 17, 36,  8]

  /** For each square index, where it sits in BIT_TABLE. */
  const BIT_TABLE_POSITION: seq<int> :=
    [30, 26, 18,  2, 35, 37, 41, 48, 63, 28, 23, 12, 54, 11, 53,  8] +
    [47, 61, 24, 14, 59, 20,  6, 42, 51,  4, 39, 45, 57, 17,  1, 33] +
    [ 3,  7, 15, 31, 62, 60, 56, 49, 34,  5, 10, 21, 43, 22, 44, 25] +
    [50, 36,  9, 19, 38, 13, 27, 55, 46, 29, 58, 52, 40, 16, 32,  0]

  /** Each table entry is a square index whose position is listed back in
    * BIT_TABLE_POSITION; gives range and distinctness below. */
  lemma BitTableEntry(i: int)
    requires 0 <= i < 64
    ensures 0 <= BIT_TABLE[i] < 64 && BIT_TABLE_POSITION[BIT_TABLE[i]] == i
  {
    assert i == 0 || i == 1 || i == 2 || i == 3 || i == 4 || i == 5 || i == 6 || i == 7 ||
           i == 8 || i == 9 || i == 10 || i == 11 || i == 12 || i == 13 || i == 14 || i == 15 ||
           i == 16 || i == 17 || i == 18 || i == 19 || i == 20 || i == 21 || i == 22 || i == 23 ||
           i == 24 || i == 25 || i == 26 || i == 27 || i == 28 || i == 29 || i == 30 || i == 31 ||
           i == 32 || i == 33 || i == 34 || i == 35 || i == 36 || i == 37 || i == 38 || i == 39 ||
           i == 40 || i == 41 || i == 42 || i == 43 || i == 44 || i == 45 || i == 46 || i == 47 ||
           i == 48 || i == 49 || i == 50 || i == 51 || i == 52 || i == 53 || i == 54 || i == 55 ||
           i == 56 || i == 57 || i == 58 || i == 59 || i == 60 || i == 61 || i == 62 || i == 63;
  }

  /** Each square index appears in the table at its listed position;
    * gives coverage below. */
  lemma BitTablePositionEntry(x: int)
    requires 0 <= x < 64
    ensures 0 <= BIT_TABLE_POSITION[x] < 64 && BIT_TABLE[BIT_TABLE_POSITION[x]] == x
  {
    assert x == 0 || x == 1 || x == 2 || x == 3 || x == 4 || x == 5 || x == 6 || x == 7 ||
           x == 8 || x == 9 || x == 10 || x == 11 || x == 12 || x == 13 || x == 14 || x == 15 ||
           x == 16 || x == 17 || x == 18 || x == 19 || x == 20 || x == 21 || x == 22 || x == 23 ||
           x == 24 || x == 25 || x == 26 || x == 27 || x == 28 || x == 29 || x == 30 || x == 31 ||
           x == 32 || x == 33 || x == 34 || x == 35 || x == 36 || x == 37 || x == 38 || x == 39 ||
           x == 40 || x == 41 || x == 42 || x == 43 || x == 44 || x == 45 || x == 46 || x == 47 ||
           x == 48 || x == 49 || x == 50 || x == 51 || x == 52 || x == 53 || x == 54 || x == 55 ||
           x == 56 || x == 57 || x == 58 || x == 59 || x == 60 || x == 61 || x == 62 || x == 63;
  }

  /** BIT_TABLE has 64 entries and holds each square index 0..63 exactly
    * once: its entries are in range, pairwise distinct, and cover 0..63. */
  lemma BitTableIsPermutation()
    ensures |BIT_TABLE| == 64
    ensures forall i :: 0 <= i < 64 ==> 0 <= BIT_TABLE[i] < 64
    ensures forall i, j :: 0 <= i < j < 64 ==> BIT_TABLE[i] != BIT_TABLE[j]
    ensures forall x :: 0 <= x < 64 ==> x in BIT_TABLE
  {
    forall i | 0 <= i < 64 ensures 0 <= BIT_TABLE[i] < 64 {
      BitTableEntry(i);
    }
    forall i, j | 0 <= i < j < 64 ensures BIT_TABLE[i] != BIT_TABLE[j] {
      BitTableEntry(i);
      BitTableEntry(j);
    }
    forall x | 0 <= x < 64 ensures x in BIT_TABLE {
      BitTablePositionEntry(x);
    }
  }

  /** The board with only square k set: `1L << k`. */
  function SquareBit(k: int): Bitboard
    requires 0 <= k < 64
  {
    1 << (k as bv8)
  }

  /** Java's `>>` on a long: an arithmetic shift that copies the sign bit. */
  function JavaShiftRight(x: Bitboard, k: bv8): Bitboard
    requires k < 64
  {
    if x >> 63 == 0 then x >> k else !(!x >> k)
  }

  /** Java's `(int)` cast of a long: the low 32 bits, two's complement. */
  function JavaIntCast(x: Bitboard): int
  {
    var low := (x & 0xFFFF_FFFF) as int;
    if low < 0x8000_0000 then low else low - 0x1_0000_0000
  }

  /** The square index of popBit as written: a 24-bit mask in the fold and
    * a 64-bit product that is never cut to 32 bits. `UInt64.longValue()`
    * is taken to return the long the `UInt64` was built from. */
  function PopBitIndexAsWritten(bitboard: Bitboard): int
  {
    var b := bitboard ^ (bitboard - 1);
    var fold := (b & 0xff_ffff) ^ JavaShiftRight(b, 32);
    JavaIntCast(JavaShiftRight(fold * 0x783a9b23, 26))
  }

  /** popBit(1) still finds square 0, but popBit(2) computes index 90, past
    * the end of the 64-entry table, and popBit(0) a negative index, so in
    * both `bitTable[index]` throws. */
  lemma PopBitIndexAsWrittenLeavesTable()
    ensures PopBitIndexAsWritten(1) == 30 && BIT_TABLE[30] == 0
    ensures PopBitIndexAsWritten(2) == 90 && 90 >= |BIT_TABLE|
    ensures PopBitIndexAsWritten(0) == -504276681
  {
  }

  /** Table slot of a 64-bit pattern: fold it to an unsigned 32-bit value
    * (low half xor high half), multiply by the De Bruijn-style constant in
    * 32-bit arithmetic and keep the top six bits of the product. */
  function Slot(b: Bitboard): bv32
  {
    var fold := ((b & 0xFFFF_FFFF) ^ (b >> 32)) as bv32;
    (fold * 0x783a9b23) >> 26
  }

  /** The square index popBit evidently intends: isolate the bits up to
    * the lowest set bit, fold them to 32 bits, and look the slot up. */
  function PopBitIndex(bitboard: Bitboard): (index: int)
    ensures 0 <= index < 64
  {
    BitTableIsPermutation();
    BIT_TABLE[Slot(bitboard ^ (bitboard - 1)) as int]
  }

  /** On the empty board every bit is "at or below the lowest set bit",
    * the fold is zero and the scan yields 63. */
  lemma PopBitIndexEmpty()
    ensures PopBitIndex(0) == 63
  {
  }

  /** A non-zero board whose only set bit is m is one of the 64 single-bit
    * boards. The scan is checked on them rank by rank below, which keeps
    * each proof small. */
  lemma SingleBitCases(m: Bitboard)
    requires m != 0 && m & (m - 1) == 0
    ensures
      m == 0x1 || m == 0x2 || m == 0x4 || m == 0x8 ||
      m == 0x10 || m == 0x20 || m == 0x40 || m == 0x80 ||
      m == 0x100 || m == 0x200 || m == 0x400 || m == 0x800 ||
      m == 0x1000 || m == 0x2000 || m == 0x4000 || m == 0x8000 ||
      m == 0x10000 || m == 0x20000 || m == 0x40000 || m == 0x80000 ||
      m == 0x100000 || m == 0x200000 || m == 0x400000 || m == 0x800000 ||
      m == 0x1000000 || m == 0x2000000 || m == 0x4000000 || m == 0x8000000 ||
      m == 0x10000000 || m == 0x20000000 || m == 0x40000000 || m == 0x80000000 ||
      m == 0x100000000 || m == 0x200000000 || m == 0x400000000 || m == 0x800000000 ||
      m == 0x1000000000 || m == 0x2000000000 || m == 0x4000000000 || m == 0x8000000000 ||
      m == 0x10000000000 || m == 0x20000000000 || m == 0x40000000000 || m == 0x80000000000 ||
      m == 0x100000000000 || m == 0x200000000000 || m == 0x400000000000 || m == 0x800000000000 ||
      m == 0x1000000000000 || m == 0x2000000000000 || m == 0x4000000000000 || m == 0x8000000000000 ||
      m == 0x10000000000000 || m == 0x20000000000000 || m == 0x40000000000000 || m == 0x80000000000000 ||
      m == 0x100000000000000 || m == 0x200000000000000 || m == 0x400000000000000 || m == 0x800000000000000 ||
      m == 0x1000000000000000 || m == 0x2000000000000000 || m == 0x4000000000000000 || m == 0x8000000000000000
  {
  }

  /** The scan on the eight single-bit boards of rank 0. */
  lemma ScanRank0(m: Bitboard)
    requires m == 0x1 || m == 0x2 || m == 0x4 || m == 0x8 || m == 0x10 || m == 0x20 || m == 0x40 || m == 0x80
    ensures Slot(m | (m - 1)) < 64
    ensures var k := BIT_TABLE[Slot(m | (m - 1)) as int];
      0 <= k < 64 && m == SquareBit(k)
  {
  }

  /** The scan on the eight single-bit boards of rank 1. */
  lemma ScanRank1(m: Bitboard)
    requires m == 0x100 || m == 0x200 || m == 0x400 || m == 0x800 || m == 0x1000 || m == 0x2000 || m == 0x4000 || m == 0x8000
    ensures Slot(m | (m - 1)) < 64
    ensures var k := BIT_TABLE[Slot(m | (m - 1)) as int];
      0 <= k < 64 && m == SquareBit(k)
  {
  }

  /** The scan on the eight single-bit boards of rank 2. */
  lemma ScanRank2(m: Bitboard)
    requires m == 0x10000 || m == 0x20000 || m == 0x40000 || m == 0x80000 || m == 0x100000 || m == 0x200000 || m == 0x400000 || m == 0x800000
    ensures Slot(m | (m - 1)) < 64
    ensures var k := BIT_TABLE[Slot(m | (m - 1)) as int];
      0 <= k < 64 && m == SquareBit(k)
  {
  }

  /** The scan on the eight single-bit boards of rank 3. */
  lemma ScanRank3(m: Bitboard)
    requires m == 0x1000000 || m == 0x2000000 || m == 0x4000000 || m == 0x8000000 || m == 0x10000000 || m == 0x20000000 || m == 0x40000000 || m == 0x80000000
    ensures Slot(m | (m - 1)) < 64
    ensures var k := BIT_TABLE[Slot(m | (m - 1)) as int];
      0 <= k < 64 && m == SquareBit(k)
  {
  }

  /** The scan on the eight single-bit boards of rank 4. */
  lemma ScanRank4(m: Bitboard)
    requires m == 0x100000000 || m == 0x200000000 || m == 0x400000000 || m == 0x800000000 || m == 0x1000000000 || m == 0x2000000000 || m == 0x4000000000 || m == 0x8000000000
    ensures Slot(m | (m - 1)) < 64
    ensures var k := BIT_TABLE[Slot(m | (m - 1)) as int];
      0 <= k < 64 && m == SquareBit(k)
  {
  }

  /** The scan on the eight single-bit boards of rank 5. */
  lemma ScanRank5(m: Bitboard)
    requires m == 0x10000000000 || m == 0x20000000000 || m == 0x40000000000 || m == 0x80000000000 || m == 0x100000000000 || m == 0x200000000000 || m == 0x400000000000 || m == 0x800000000000
    ensures Slot(m | (m - 1)) < 64
    ensures var k := BIT_TABLE[Slot(m | (m - 1)) as int];
      0 <= k < 64 && m == SquareBit(k)
  {
  }

  /** The scan on the eight single-bit boards of rank 6. */
  lemma ScanRank6(m: Bitboard)
    requires m == 0x1000000000000 || m == 0x2000000000000 || m == 0x4000000000000 || m == 0x8000000000000 || m == 0x10000000000000 || m == 0x20000000000000 || m == 0x40000000000000 || m == 0x80000000000000
    ensures Slot(m | (m - 1)) < 64
    ensures var k := BIT_TABLE[Slot(m | (m - 1)) as int];
      0 <= k < 64 && m == SquareBit(k)
  {
  }

  /** The scan on the eight single-bit boards of rank 7. */
  lemma ScanRank7(m: Bitboard)
    requires m == 0x100000000000000 || m == 0x200000000000000 || m == 0x400000000000000 || m == 0x800000000000000 || m == 0x1000000000000000 || m == 0x2000000000000000 || m == 0x4000000000000000 || m == 0x8000000000000000
    ensures Slot(m | (m - 1)) < 64
    ensures var k := BIT_TABLE[Slot(m | (m - 1)) as int];
      0 <= k < 64 && m == SquareBit(k)
  {
  }

  /** For a single bit m, the pattern m | (m - 1) of m and every bit below
    * it is mapped by the slot and the table to the position of m. */
  lemma ScanSingleBit(m: Bitboard)
    requires m != 0 && m & (m - 1) == 0
    ensures Slot(m | (m - 1)) < 64
    ensures var k := BIT_TABLE[Slot(m | (m - 1)) as int];
      0 <= k < 64 && m == SquareBit(k)
  {
    SingleBitCases(m);
    if m < 0x100 {
      ScanRank0(m);
    } else if m < 0x10000 {
      ScanRank1(m);
    } else if m < 0x1000000 {
      ScanRank2(m);
    } else if m < 0x100000000 {
      ScanRank3(m);
    } else if m < 0x10000000000 {
      ScanRank4(m);
    } else if m < 0x1000000000000 {
      ScanRank5(m);
    } else if m < 0x100000000000000 {
      ScanRank6(m);
    } else {
      ScanRank7(m);
    }
  }

  /** On a non-empty board, `b ^ (b - 1)` is the lowest set bit together
    * with every bit below it. */
  lemma LowestBitPattern(b: Bitboard)
    requires b != 0
    ensures b ^ (b - 1) == LowestBit(b) | (LowestBit(b) - 1)
  {
  }

  /** On a non-empty board the intended index depends only on the lowest
    * set bit. */
  lemma PopBitIndexOfLowestBit(bitboard: Bitboard)
    requires bitboard != 0
    ensures var m := LowestBit(bitboard);
      PopBitIndex(bitboard) == BIT_TABLE[Slot(m | (m - 1)) as int]
  {
    LowestBitPattern(bitboard);
  }

  /** On a non-empty board the isolated lowest bit is the single bit of
    * the square the intended index names. */
  lemma LowestBitScan(bitboard: Bitboard)
    requires bitboard != 0
    ensures LowestBit(bitboard) == SquareBit(PopBitIndex(bitboard))
  {
    var m := LowestBit(bitboard);
    LowestBitIsSingle(bitboard);
    ScanSingleBit(m);
    var k := BIT_TABLE[Slot(m | (m - 1)) as int];
    assert m == SquareBit(k);
    PopBitIndexOfLowestBit(bitboard);
    assert PopBitIndex(bitboard) == k;
  }

  /** On a non-empty board the intended index k names the lowest set bit:
    * with m the single bit of square k, m is the isolated lowest bit, it is
    * set in the board, and no bit below it is. */
  lemma PopBitIndexIsLowest(bitboard: Bitboard)
    requires bitboard != 0
    ensures var m := SquareBit(PopBitIndex(bitboard));
      LowestBit(bitboard) == m && bitboard & m == m && bitboard & (m - 1) == 0
  {
    LowestBitScan(bitboard);
    LowestBitIsLowest(bitboard);
  }

  /** Popping a non-empty board turns off exactly the bit of the square the
    * intended index names and keeps every other bit. */
  lemma PopBitClearsIndexedSquare(bitboard: Bitboard)
    requires bitboard != 0
    ensures var m := SquareBit(PopBitIndex(bitboard));
      ClearLowestBit(bitboard) & m == 0 && ClearLowestBit(bitboard) | m == bitboard
  {
    var r := ClearLowestBit(bitboard);
    assert r & LowestBit(bitboard) == 0 && r | LowestBit(bitboard) == bitboard;
    LowestBitScan(bitboard);
  }
}
