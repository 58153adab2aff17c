/** Board geometry constants used by the square-mapping tables.
  *
  * BoardConstants.java, BoardRank.java and BoardFile.java are not part of
  * this model. The values below are the conventional ones for a 10-wide,
  * 12-high padded board: files A..H and ranks 1..8 numbered 0..7, and 120
  * padded squares. The padded-square conversion itself is kept as a
  * parameter of the mapping initialisation (see SquareMapping.ValidConversion);
  * ConvertFileRankToSqr is the conventional instance of it, an assumption
  * of this model rather than something read from the source.
  */
module BoardConstants {

  /** Number of squares of the padded 12x10 board. */
  const BOARD_SQR_NUM: int := 120

  const FILE_A: int := 0
  const FILE_H: int := 7
  const RANK_1: int := 0
  const RANK_8: int := 7

  predicate IsFile(f: int) { FILE_A <= f <= FILE_H }
  predicate IsRank(r: int) { RANK_1 <= r <= RANK_8 }

  /** Conventional padded index of (file, rank): two sentinel ranks below
    * rank 1, one sentinel file left of file A, ten squares per rank. */
  function ConvertFileRankToSqr(f: int, r: int): int
  {
    21 + f + 10 * r
  }
}
