/** The two square-mapping tables of the board, as values.
  *
  * The padded board has 120 squares (12 ranks of 10); 64 of them are real
  * squares, the rest a border that stops move offsets from wrapping. The
  * compact board numbers the real squares 0..63 rank-major (a1..h1,
  * a2..h2, ..., h8); that number is the bit index of a bitboard.
  *
  * The file/rank-to-padded-square conversion is a parameter here: all the
  * mapping needs of it is ValidConversion.
  */
module SquareMapping {
  import opened BoardConstants

  /** Marker stored for padded squares that are not real squares. It lies
    * outside the compact range 0..63. */
  const OFF_BOARD: int := 65

  /** What the initialisation relies on: every (file, rank) lands inside the
    * padded board, and distinct (file, rank) pairs land on distinct
    * squares. */
  ghost predicate ValidConversion(convert: (int, int) -> int)
  {
    (forall f, r :: IsFile(f) && IsRank(r) ==> 0 <= convert(f, r) < BOARD_SQR_NUM) &&
    (forall f1, r1, f2, r2 ::
       IsFile(f1) && IsRank(r1) && IsFile(f2) && IsRank(r2) && convert(f1, r1) == convert(f2, r2)
       ==> f1 == f2 && r1 == r2)
  }

  /** A padded square is real when some (file, rank) converts to it. */
  ghost predicate IsRealSquare(convert: (int, int) -> int, p: int)
  {
    exists f, r :: IsFile(f) && IsRank(r) && convert(f, r) == p
  }

  /** File and rank of a compact index: rank-major, eight files per rank. */
  function FileOf(c: int): int { FILE_A + c % 8 }
  function RankOf(c: int): int { RANK_1 + c / 8 }

  /** The compact-to-padded table: entry c is the padded square of file
    * c % 8 and rank c / 8. */
  function Sqr64Table(convert: (int, int) -> int): (t: seq<int>)
    requires ValidConversion(convert)
    ensures |t| == 64
    ensures forall c :: 0 <= c < 64 ==> 0 <= t[c] < BOARD_SQR_NUM
  {
    var t := seq(64, c => convert(FileOf(c), RankOf(c)));
    assert forall c :: 0 <= c < 64 ==> IsFile(FileOf(c)) && IsRank(RankOf(c)) && t[c] == convert(FileOf(c), RankOf(c));
    t
  }

  /** Compact indices are handed out rank by rank, file by file: the square
    * of file f and rank r gets index 8 * r + f. */
  lemma Sqr64TableRankMajor(convert: (int, int) -> int)
    requires ValidConversion(convert)
    ensures forall f, r :: IsFile(f) && IsRank(r) ==>
      Sqr64Table(convert)[8 * (r - RANK_1) + (f - FILE_A)] == convert(f, r)
  {
    forall f, r | IsFile(f) && IsRank(r)
      ensures Sqr64Table(convert)[8 * (r - RANK_1) + (f - FILE_A)] == convert(f, r)
    {
      var c := 8 * (r - RANK_1) + (f - FILE_A);
      assert FileOf(c) == f && RankOf(c) == r;
    }
  }

  predicate Distinct(s: seq<int>)
  {
    forall i, j :: 0 <= i < j < |s| ==> s[i] != s[j]
  }

  /** Position of the first occurrence of x in s, or |s| when x is absent. */
  function IndexOf(s: seq<int>, x: int): (i: nat)
    ensures i <= |s|
    ensures i < |s| <==> x in s
    ensures i < |s| ==> s[i] == x
    ensures forall j :: 0 <= j < i ==> s[j] != x
  {
    if s == [] then 0 else if s[0] == x then 0 else 1 + IndexOf(s[1..], x)
  }

  /** The padded-to-compact table that inverts the (partial) compact table s:
    * a padded square listed in s maps to its position there, every other
    * padded square to OFF_BOARD. */
  function InverseTable(s: seq<int>): (t: seq<int>)
    ensures |t| == BOARD_SQR_NUM
  {
    seq(BOARD_SQR_NUM, p => if IndexOf(s, p) < |s| then IndexOf(s, p) else OFF_BOARD)
  }

  /** The padded-to-compact table after initialisation. */
  function Sqr120Table(convert: (int, int) -> int): (t: seq<int>)
    requires ValidConversion(convert)
    ensures |t| == BOARD_SQR_NUM
  {
    InverseTable(Sqr64Table(convert))
  }

  /** Distinct files or ranks give distinct padded squares. */
  lemma Sqr64TableDistinct(convert: (int, int) -> int)
    requires ValidConversion(convert)
    ensures Distinct(Sqr64Table(convert))
  {
    var t := Sqr64Table(convert);
    forall i, j | 0 <= i < j < 64 ensures t[i] != t[j] {
      assert i == 8 * (RankOf(i) - RANK_1) + (FileOf(i) - FILE_A);
      assert j == 8 * (RankOf(j) - RANK_1) + (FileOf(j) - FILE_A);
    }
  }

  /** Listing one more padded square x, not listed before, at position |s|
    * changes the inverse table at x alone. */
  lemma InverseTableSnoc(s: seq<int>, x: int)
    requires x !in s && 0 <= x < BOARD_SQR_NUM && |s| < OFF_BOARD
    ensures InverseTable(s + [x]) == InverseTable(s)[x := |s|]
  {
    var s' := s + [x];
    forall p | 0 <= p < BOARD_SQR_NUM
      ensures InverseTable(s')[p] == InverseTable(s)[x := |s|][p]
    {
      if p in s {
        var i := IndexOf(s, p);
        assert s'[i] == p;
        assert IndexOf(s', p) == i;
      } else if p == x {
        assert s'[|s|] == x;
        assert IndexOf(s', p) == |s|;
      } else {
        assert p !in s';
      }
    }
  }

  /** Compact to padded and back is the identity on 0..63. */
  lemma CompactRoundTrip(convert: (int, int) -> int)
    requires ValidConversion(convert)
    ensures forall c :: 0 <= c < 64 ==> Sqr120Table(convert)[Sqr64Table(convert)[c]] == c
  {
    var s := Sqr64Table(convert);
    Sqr64TableDistinct(convert);
    forall c | 0 <= c < 64 ensures Sqr120Table(convert)[s[c]] == c {
      assert IndexOf(s, s[c]) == c;
    }
  }

  /** Every padded entry is OFF_BOARD or a compact index whose padded square
    * is the entry's own square; OFF_BOARD exactly off the real squares. */
  lemma PaddedRoundTrip(convert: (int, int) -> int)
    requires ValidConversion(convert)
    ensures forall p :: 0 <= p < BOARD_SQR_NUM ==>
      var c := Sqr120Table(convert)[p];
      (c == OFF_BOARD <==> !IsRealSquare(convert, p)) &&
      (c != OFF_BOARD ==> 0 <= c < 64 && Sqr64Table(convert)[c] == p)
  {
    var s := Sqr64Table(convert);
    forall p | 0 <= p < BOARD_SQR_NUM
      ensures Sqr120Table(convert)[p] == OFF_BOARD <==> !IsRealSquare(convert, p)
    {
      if p in s {
        var c := IndexOf(s, p);
        assert convert(FileOf(c), RankOf(c)) == p;
      } else if IsRealSquare(convert, p) {
        var f, r :| IsFile(f) && IsRank(r) && convert(f, r) == p;
        Sqr64TableRankMajor(convert);
      }
    }
  }

  /** A sequence without repetitions has as many distinct elements as
    * entries. */
  lemma {:induction false} DistinctCard(s: seq<int>)
    requires Distinct(s)
    ensures |set x | x in s| == |s|
  {
    if s != [] {
      var s', x := s[..|s| - 1], s[|s| - 1];
      assert Distinct(s');
      assert (set y | y in s) == (set y | y in s') + {x};
      assert x !in (set y | y in s');
      DistinctCard(s');
    }
  }

  /** The padded square indices 0..119 in order. */
  function PaddedSquares(): (q: seq<int>)
    ensures |q| == BOARD_SQR_NUM
    ensures forall p :: p in q <==> 0 <= p < BOARD_SQR_NUM
  {
    var q := seq(BOARD_SQR_NUM, p => p);
    assert forall p :: 0 <= p < BOARD_SQR_NUM ==> q[p] == p && p in q;
    q
  }

  /** The padded squares an inverse table t maps to a compact index are
    * exactly the squares listed in s; the others map to OFF_BOARD. */
  lemma InverseTableOnBoard(s: seq<int>, t: seq<int>)
    requires |s| < OFF_BOARD
    requires forall c :: 0 <= c < |s| ==> 0 <= s[c] < BOARD_SQR_NUM
    requires t == InverseTable(s)
    ensures (set p | 0 <= p < BOARD_SQR_NUM && t[p] != OFF_BOARD) == set x | x in s
    ensures (set p | 0 <= p < BOARD_SQR_NUM && t[p] == OFF_BOARD) == (set p | p in PaddedSquares()) - (set x | x in s)
  {
    forall x | x in s ensures 0 <= x < BOARD_SQR_NUM && t[x] != OFF_BOARD {
      assert t[x] == IndexOf(s, x);
    }
  }

  /** Exactly 64 padded entries hold a compact index and the other 56 hold
    * OFF_BOARD. */
  lemma RealSquareCount(convert: (int, int) -> int)
    requires ValidConversion(convert)
    ensures |set p | 0 <= p < BOARD_SQR_NUM && Sqr120Table(convert)[p] != OFF_BOARD| == 64
    ensures |set p | 0 <= p < BOARD_SQR_NUM && Sqr120Table(convert)[p] == OFF_BOARD| == 56
  {
    var s := Sqr64Table(convert);
    InverseTableOnBoard(s, Sqr120Table(convert));
    Sqr64TableDistinct(convert);
    DistinctCard(s);
    DistinctCard(PaddedSquares());
  }

  /** The conventional conversion 21 + f + 10 * r meets ValidConversion. */
  lemma ConventionalConversionValid()
    ensures ValidConversion(ConvertFileRankToSqr)
  {
    forall f1, r1, f2, r2 |
      IsFile(f1) && IsRank(r1) && IsFile(f2) && IsRank(r2) &&
      ConvertFileRankToSqr(f1, r1) == ConvertFileRankToSqr(f2, r2)
      ensures f1 == f2 && r1 == r2
    {
      assert f1 - f2 == 10 * (r2 - r1);
    }
  }

  /** Padded rank and file of the conventional square of (f, r). */
  lemma ConventionalRankFile(f: int, r: int)
    requires IsFile(f) && IsRank(r)
    ensures ConvertFileRankToSqr(f, r) / 10 == r + 2
    ensures ConvertFileRankToSqr(f, r) % 10 == f + 1
  {
    var p := ConvertFileRankToSqr(f, r);
    assert p == 10 * (r + 2) + (f + 1);
  }

  /** With the conventional conversion, the real squares are those of
    * padded ranks 2..9 and padded files 1..8 of the 12x10 board, and each
    * maps to 8 * rank + file counted from a1. */
  lemma ConventionalSqr120Table(p: int)
    requires 0 <= p < BOARD_SQR_NUM
    ensures ValidConversion(ConvertFileRankToSqr)
    ensures var c := Sqr120Table(ConvertFileRankToSqr)[p];
      (c != OFF_BOARD <==> 2 <= p / 10 <= 9 && 1 <= p % 10 <= 8) &&
      (c != OFF_BOARD ==> c == 8 * (p / 10 - 2) + (p % 10 - 1))
  {
    ConventionalConversionValid();
    var convert := ConvertFileRankToSqr;
    PaddedRoundTrip(convert);
    var c := Sqr120Table(convert)[p];
    if 2 <= p / 10 <= 9 && 1 <= p % 10 <= 8 {
      var f, r := p % 10 - 1, p / 10 - 2;
      assert convert(f, r) == p;
      assert IsRealSquare(convert, p);
    }
    if c != OFF_BOARD {
      var f, r := FileOf(c), RankOf(c);
      assert Sqr64Table(convert)[c] == convert(f, r);
      ConventionalRankFile(f, r);
      assert c == 8 * r + f;
    }
  }
}
