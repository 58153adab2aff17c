/** The board structure: the two square-mapping tables the class fills in
  * place, and the bit primitives the class offers.
  *
  * The position fields of the class (pieces, pawn bitboards, king squares,
  * side, en passant, counters, castling rights, piece lists, history, hash
  * key) have no operation here and are not part of this model.
  */
module Board {
  import opened BoardConstants
  import opened Bits
  import opened SquareMapping
  import opened BitScan

  class BoardStructure {
    /** Padded square to compact square, OFF_BOARD off the real squares. */
    var sqr120ToSqr64: array<int>
    /** Compact square to padded square. */
    var sqr64ToSqr120: array<int>

    ghost predicate Valid()
      reads this
    {
      sqr120ToSqr64.Length == BOARD_SQR_NUM && sqr64ToSqr120.Length == 64
    }

    /** The two tables are mutually inverse between the real squares and
      * 0..63, and every other padded square holds OFF_BOARD. */
    ghost predicate MappingConsistent()
      reads this, sqr120ToSqr64, sqr64ToSqr120
      requires Valid()
    {
      (forall c :: 0 <= c < 64 ==>
         0 <= sqr64ToSqr120[c] < BOARD_SQR_NUM && sqr120ToSqr64[sqr64ToSqr120[c]] == c) &&
      (forall p :: 0 <= p < BOARD_SQR_NUM ==>
         sqr120ToSqr64[p] == OFF_BOARD ||
         (0 <= sqr120ToSqr64[p] < 64 && sqr64ToSqr120[sqr120ToSqr64[p]] == p))
    }

    /** An empty board structure: both tables zero-filled, as Java
      * allocates them; they are not usable before InitSqr120AndSqr64. */
    constructor ()
      ensures Valid() && fresh(sqr120ToSqr64) && fresh(sqr64ToSqr120)
      ensures sqr120ToSqr64[..] == seq(BOARD_SQR_NUM, _ => 0)
      ensures sqr64ToSqr120[..] == seq(64, _ => 0)
    {
      sqr120ToSqr64 := new int[BOARD_SQR_NUM](_ => 0);
      sqr64ToSqr120 := new int[64](_ => 0);
    }

    /** Fills both tables: first every padded entry with OFF_BOARD, then,
      * rank 1 to 8 and file A to H, the next compact index in both
      * directions. The new tables depend on the conversion alone, so a
      * second call reproduces them whatever the tables held before. */
    method InitSqr120AndSqr64(convert: (int, int) -> int)
      requires Valid() && ValidConversion(convert)
      modifies sqr120ToSqr64, sqr64ToSqr120
      ensures Valid()
      ensures sqr64ToSqr120[..] == Sqr64Table(convert)
      ensures sqr120ToSqr64[..] == Sqr120Table(convert)
      ensures MappingConsistent()
    {
      ghost var s := Sqr64Table(convert);
      Sqr64TableDistinct(convert);
      var sqr: int;
      var sqr64 := 0;

      var i := 0;
      while i < BOARD_SQR_NUM
        invariant 0 <= i <= BOARD_SQR_NUM
        invariant forall p :: 0 <= p < i ==> sqr120ToSqr64[p] == OFF_BOARD
      {
        sqr120ToSqr64[i] := OFF_BOARD;
        i := i + 1;
      }
      assert sqr120ToSqr64[..] == InverseTable(s[..0]);

      var r := RANK_1;
      while r <= RANK_8
        invariant RANK_1 <= r <= RANK_8 + 1
        invariant sqr64 == 8 * (r - RANK_1)
        invariant sqr64ToSqr120[..sqr64] == s[..sqr64]
        invariant sqr120ToSqr64[..] == InverseTable(s[..sqr64])
      {
        var f := FILE_A;
        while f <= FILE_H
          invariant FILE_A <= f <= FILE_H + 1
          invariant sqr64 == 8 * (r - RANK_1) + (f - FILE_A)
          invariant sqr64ToSqr120[..sqr64] == s[..sqr64]
          invariant sqr120ToSqr64[..] == InverseTable(s[..sqr64])
        {
          sqr := convert(f, r);
          assert sqr == s[sqr64] by {
            assert FileOf(sqr64) == f && RankOf(sqr64) == r;
          }
          assert s[..sqr64 + 1] == s[..sqr64] + [sqr];
          InverseTableSnoc(s[..sqr64], sqr);
          sqr64ToSqr120[sqr64] := sqr;
          sqr120ToSqr64[sqr] := sqr64;
          sqr64 := sqr64 + 1;
          f := f + 1;
        }
        r := r + 1;
      }
      assert s[..sqr64] == s;
      CompactRoundTrip(convert);
      PaddedRoundTrip(convert);
    }

    /** Table read: the compact square of padded square i. Once the tables
      * are initialised it is OFF_BOARD or a compact index that maps back
      * to i. */
    method Sqr64(i: int) returns (c: int)
      requires Valid() && 0 <= i < BOARD_SQR_NUM
      ensures c == sqr120ToSqr64[i]
      ensures MappingConsistent() ==> c == OFF_BOARD || (0 <= c < 64 && sqr64ToSqr120[c] == i)
    {
      c := sqr120ToSqr64[i];
    }

    /** Kernighan's loop: clears the lowest set bit until the board is
      * empty, counting the iterations, which are exactly the set bits. */
    method CountBits(bitboard: Bitboard) returns (r: int)
      ensures r == PopCount(bitboard)
      ensures 0 <= r <= 64
    {
      var b := bitboard;
      r := 0;
      while b != 0
        invariant r + PopCount(b) == PopCount(bitboard)
        decreases PopCount(b)
      {
        PopCountClearLowestBit(b);
        r, b := r + 1, b & (b - 1);
      }
      PopCountBounds(bitboard);
    }

    /** popBit: the board with its lowest set bit cleared, one set bit
      * fewer, and the square index of that bit, found by the 32-bit fold,
      * the multiply and the table lookup that the source intends (see
      * PopBitIndexAsWritten for the index as the source computes it). The
      * empty board stays empty and yields index 63. */
    method PopBit(bitboard: Bitboard) returns (cleared: Bitboard, index: int)
      ensures bitboard == 0 ==> cleared == 0 && index == 63
      ensures bitboard != 0 ==> ClearsLowest(bitboard, cleared)
      ensures bitboard != 0 ==> PopCount(cleared) == PopCount(bitboard) - 1
      ensures cleared == ClearLowestBit(bitboard)
      ensures index == PopBitIndex(bitboard) && 0 <= index < 64
      ensures bitboard != 0 ==> LowestBit(bitboard) == SquareBit(index)
    {
      var b := bitboard ^ (bitboard - 1);
      var slot := Slot(b);
      BitTableIsPermutation();
      index := BIT_TABLE[slot as int];
      cleared := bitboard & (bitboard - 1);
      assert cleared == ClearLowestBit(bitboard);
      if bitboard == 0 {
        PopBitIndexEmpty();
      } else {
        ClearLowestBitClearsLowest(bitboard);
        PopCountClearLowestBit(bitboard);
        LowestBitScan(bitboard);
      }
    }
  }
}
