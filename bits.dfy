/** Bit primitives over 64-bit bitboards.
  *
  * A bitboard is a Java `long` in the source; `bv64` has the same
  * two's-complement wrap-around for `-`, so `b - 1` on the empty board is
  * the all-ones board exactly as in Java.
  */
module Bits {

  /** Bit i set means compact square i is occupied. */
  type Bitboard = bv64

  /** -1L: every square occupied. */
  const ALL_ONES: Bitboard := 0xFFFF_FFFF_FFFF_FFFF

  /** Reference definition of the population count: the lowest bit plus the
    * set bits of the remaining ones. */
  function PopCount(b: Bitboard): nat
    decreases b
  {
    if b == 0 then 0 else (if b & 1 == 1 then 1 else 0) + PopCount(b >> 1)
  }

  /** Reference definition of "r is b with its lowest set bit cleared",
    * read bit by bit from the bottom: b is not empty, bit 0 of r is clear,
    * and either bit 0 was the lowest set bit of b (the other bits agree) or
    * b has no bit 0 and the same holds one bit higher. */
  predicate ClearsLowest(b: Bitboard, r: Bitboard)
    decreases b
  {
    b != 0 && r & 1 == 0 &&
    if b & 1 == 1 then r >> 1 == b >> 1 else ClearsLowest(b >> 1, r >> 1)
  }

  /** The lowest set bit of `b`, isolated. */
  function LowestBit(b: Bitboard): Bitboard
  {
    b & -b
  }

  /** LowestBit(b) has at most one set bit; it is zero exactly for the
    * empty board. */
  lemma LowestBitIsSingle(b: Bitboard)
    ensures b == 0 <==> LowestBit(b) == 0
    ensures LowestBit(b) & (LowestBit(b) - 1) == 0
  {
  }

  /** The isolated bit is set in b and no lower bit of b is. */
  lemma LowestBitIsLowest(b: Bitboard)
    ensures b & LowestBit(b) == LowestBit(b)
    ensures b & (LowestBit(b) - 1) == 0
  {
  }

  /** `b & (b - 1)`, the expression the source uses both to count bits and
    * to pop one: `b` with its lowest set bit turned off and every other bit
    * kept, and the empty board for the empty board. */
  function ClearLowestBit(b: Bitboard): (r: Bitboard)
    ensures r & LowestBit(b) == 0 && r | LowestBit(b) == b
  {
    b & (b - 1)
  }

  /** How `b & (b - 1)` looks after a one-bit shift. */
  lemma ClearLowestBitStep(b: Bitboard)
    requires b != 0
    ensures ClearLowestBit(b) & 1 == 0
    ensures b & 1 == 1 ==> ClearLowestBit(b) >> 1 == b >> 1
    ensures b & 1 == 0 ==> b >> 1 != 0 && ClearLowestBit(b) >> 1 == ClearLowestBit(b >> 1)
  {
  }

  /** `b & (b - 1)` meets the bit-by-bit reference definition. */
  lemma {:induction false} ClearLowestBitClearsLowest(b: Bitboard)
    requires b != 0
    ensures ClearsLowest(b, ClearLowestBit(b))
    decreases b
  {
    ClearLowestBitStep(b);
    if b & 1 == 0 {
      ClearLowestBitClearsLowest(b >> 1);
    }
  }

  /** Only the empty board has no set bit. */
  lemma {:induction false} PopCountZero(b: Bitboard)
    ensures PopCount(b) == 0 <==> b == 0
    decreases b
  {
    if b != 0 && b & 1 == 0 {
      assert b >> 1 != 0;
      PopCountZero(b >> 1);
    }
  }

  /** Case of PopCountClearsLowest where bit 0 is the lowest set bit: r
    * drops it and keeps every higher bit. */
  lemma PopCountClearsLowestOdd(b: Bitboard, r: Bitboard)
    requires b & 1 == 1
    requires r >> 1 == b >> 1 && r & 1 == 0
    ensures PopCount(r) == PopCount(b) - 1
  {
    assert PopCount(b) == 1 + PopCount(b >> 1);
    if r == 0 {
      assert b >> 1 == 0;
    } else {
      assert PopCount(r) == PopCount(r >> 1);
    }
  }

  /** Case of PopCountClearsLowest where bit 0 is clear: the count drops
    * by one if it does on the boards shifted right by one. */
  lemma PopCountClearsLowestEven(b: Bitboard, r: Bitboard)
    requires b != 0 && b & 1 == 0 && r & 1 == 0
    requires PopCount(r >> 1) == PopCount(b >> 1) - 1
    ensures PopCount(r) == PopCount(b) - 1
  {
    assert PopCount(b) == PopCount(b >> 1);
    if r == 0 {
      assert r >> 1 == 0;
    } else {
      assert PopCount(r) == PopCount(r >> 1);
    }
  }

  /** Removing the lowest set bit removes exactly one set bit. */
  lemma {:induction false} PopCountClearsLowest(b: Bitboard, r: Bitboard)
    requires ClearsLowest(b, r)
    ensures PopCount(r) == PopCount(b) - 1
    decreases b
  {
    if b & 1 == 1 {
      PopCountClearsLowestOdd(b, r);
    } else {
      PopCountClearsLowest(b >> 1, r >> 1);
      PopCountClearsLowestEven(b, r);
    }
  }

  /** `b & (b - 1)` on a non-empty board has one set bit fewer. */
  lemma PopCountClearLowestBit(b: Bitboard)
    requires b != 0
    ensures PopCount(ClearLowestBit(b)) == PopCount(b) - 1
  {
    ClearLowestBitClearsLowest(b);
    PopCountClearsLowest(b, ClearLowestBit(b));
  }

  /** One more right shift by one is a shift by k + 1, and k + 1 does not
    * wrap in bv8; the step of the shift inductions below. */
  lemma ShiftStep(b: Bitboard, k: bv8)
    requires k < 64
    ensures (b >> k) >> 1 == b >> (k + 1)
    ensures (k + 1) as int == k as int + 1
  {
  }

  /** A board shifted right by k keeps at most 64 - k set bits. */
  lemma {:induction false} PopCountShifted(b: Bitboard, k: bv8)
    requires k <= 64
    ensures PopCount(b >> k) <= 64 - k as int
    decreases 64 - k
  {
    if k < 64 {
      PopCountShifted(b, k + 1);
      ShiftStep(b, k);
    } else {
      assert b >> k == 0;
    }
  }

  /** The all-ones board shifted right by k has exactly 64 - k set bits. */
  lemma {:induction false} PopCountAllOnesShifted(k: bv8)
    requires k <= 64
    ensures PopCount(ALL_ONES >> k) == 64 - k as int
    decreases 64 - k
  {
    if k < 64 {
      PopCountAllOnesShifted(k + 1);
      ShiftStep(ALL_ONES, k);
    } else {
      assert ALL_ONES >> k == 0;
    }
  }

  /** A bitboard has at most 64 set bits; 0L has none and -1L has all 64. */
  lemma PopCountBounds(b: Bitboard)
    ensures PopCount(b) <= 64
    ensures PopCount(0) == 0 && PopCount(ALL_ONES) == 64
  {
    PopCountShifted(b, 0);
    PopCountAllOnesShifted(0);
  }
}
