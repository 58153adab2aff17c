# Board structure of the kasparov chess engine, in Dafny

This project models the working core of `BoardStructure`, the position class
of a Java chess engine:

- the two square-mapping tables between the padded 120-square board (12 ranks
  of 10, with an off-board border) and the compact 64-square board whose
  indices are bitboard bit positions, built by `initSqr120AndSqr64` and read
  by `sqr64`;
- the bit primitives on 64-bit bitboards: `countBits` (Kernighan's
  clear-the-lowest-bit loop) and `popBit`, which clears the lowest set bit
  and finds its square by a De Bruijn-style bit scan;
- the 64-entry bit-scan table `bitTable`.

Files:

- `board_constants.dfy` (module `BoardConstants`): board size, file and rank
  numbering, and the conventional file/rank-to-padded-square conversion.
  BoardConstants.java, BoardRank.java and BoardFile.java are not part of this
  model, so these values are assumptions (see "Left out").
- `bits.dfy` (module `Bits`): bitboards as `bv64`, a reference population
  count, a bit-by-bit reference definition of "clear the lowest set bit",
  and the lemmas that tie `b & (b - 1)` to both.
- `square_mapping.dfy` (module `SquareMapping`): the two tables as values
  (functions of the conversion), with the round-trip, off-board, counting and
  rank-major lemmas.
- `bit_scan.dfy` (module `BitScan`): the bit-scan table with its
  permutation lemma, the square index of `popBit` as written, and the
  32-bit fold it evidently intends, proved to name the lowest set bit.
- `board_structure.dfy` (module `Board`): class `BoardStructure` with the two
  table fields as arrays, the imperative initialisation proved against the
  table functions, the table read, `CountBits` and `PopBit`.

The file/rank conversion is a parameter `convert` of the initialisation. All
the proofs use only `SquareMapping.ValidConversion`: every (file, rank) in
0..7 x 0..7 lands in 0..119, and distinct pairs land on distinct squares. The
conventional `21 + f + 10 * r` is shown to satisfy it, and the tables it gives
are worked out in `SquareMapping.ConventionalSqr120Table`.

The bit scan of `popBit` departs from the scan its table belongs to:

- `bitTable` and the constant `0x783a9b23` belong to the usual De
  Bruijn-style scan. That scan folds the two 32-bit halves of the pattern
  into an unsigned 32-bit value and keeps the top six bits of the 32-bit
  product. The code masks only 24 bits (`0xffffff`) and never truncates the
  product, so its index can fall outside the table (see "Findings").
  `BitScan.PopBitIndexAsWritten` is the index as written. `PopBit` does not
  follow the code here: it uses the 32-bit scan.
- As written, the empty board also throws: `popBit(0)` computes index
  -504276681 and `bitTable[index]` fails before anything is returned. The
  empty board as result and index 63 that `PopBit` states come from the
  32-bit scan. The board half alone, `0 & -1`, is the empty board.

## Model

| member | source | states |
|---|---|---|
| `Bits.ClearLowestBit` | src/com/kasparov/BoardStructure.java:211 | `b & (b - 1)` is `b` with its lowest set bit turned off: the result shares no bit with the isolated lowest bit, and together they make up `b` again |
| `Bits.ClearLowestBitClearsLowest` | src/com/kasparov/BoardStructure.java:229 | on a non-empty board, `b & (b - 1)` meets the bit-by-bit reference definition `ClearsLowest`: lower zero bits stay zero, the lowest set bit is cleared, all higher bits are kept |
| `Bits.PopCountZero` | src/com/kasparov/BoardStructure.java:229 | a board has no set bit exactly when it is 0, so Kernighan's loop stops exactly when every set bit has been counted |
| `Bits.PopCountClearsLowest` | src/com/kasparov/BoardStructure.java:229 | any board that clears the lowest set bit of a non-empty board has exactly one set bit fewer |
| `Bits.PopCountClearLowestBit` | src/com/kasparov/BoardStructure.java:229 | one step of the counting loop, `bitboard &= bitboard - 1` on a non-empty board, removes exactly one set bit |
| `Bits.PopCountBounds` | src/com/kasparov/BoardStructure.java:227-231 | every bitboard has at most 64 set bits; `0L` has none and `-1L` has all 64 |
| `SquareMapping.Sqr64TableRankMajor` | src/com/kasparov/BoardStructure.java:131-141 | compact indices are handed out rank by rank from rank 1, file by file from file A: file f of rank r gets `8 * r + f` |
| `SquareMapping.Sqr64TableDistinct` | src/com/kasparov/BoardStructure.java:136-140 | no padded square is given two compact indices |
| `SquareMapping.InverseTableSnoc` | src/com/kasparov/BoardStructure.java:139-141 | recording one more square at the next compact index changes the padded-to-compact table at that square alone |
| `SquareMapping.CompactRoundTrip` | src/com/kasparov/BoardStructure.java:136-143 | for every compact index c in 0..63, `sqr120ToSqr64[sqr64ToSqr120[c]] == c` |
| `SquareMapping.PaddedRoundTrip` | src/com/kasparov/BoardStructure.java:133-143 | every padded entry is 65 exactly when its square is not the image of any (file, rank); otherwise it is a compact index whose padded square is the entry's own square |
| `SquareMapping.InverseTableOnBoard` | src/com/kasparov/BoardStructure.java:133-143 | the padded squares holding a compact index are exactly the squares recorded in the compact-to-padded table; all others hold 65 |
| `SquareMapping.RealSquareCount` | src/com/kasparov/BoardStructure.java:133-143 | exactly 64 padded entries hold a compact index and the other 56 hold 65 |
| `SquareMapping.ConventionalConversionValid` | src/com/kasparov/BoardStructure.java:138 | the conventional conversion `21 + f + 10 * r` lands on the padded board and is injective over files and ranks 0..7 |
| `SquareMapping.ConventionalRankFile` | src/com/kasparov/BoardStructure.java:138 | with that conversion, the square of (f, r) lies on padded rank `r + 2` and padded file `f + 1` |
| `SquareMapping.ConventionalSqr120Table` | src/com/kasparov/BoardStructure.java:129-144 | with that conversion, a padded square is real exactly on padded ranks 2..9 and files 1..8, and maps to `8 * (rank - 2) + (file - 1)` |
| `BitScan.BitTableIsPermutation` | src/com/kasparov/BoardStructure.java:109-118 | `bitTable` has 64 entries, all in 0..63, pairwise distinct, covering every square index once |
| `BitScan.PopBitIndexAsWrittenLeavesTable` | src/com/kasparov/BoardStructure.java:209-218 | as written (Java `long` arithmetic, arithmetic shifts, `(int)` cast), `popBit(1)` computes index 30, whose entry is square 0, but `popBit(2)` computes index 90, past the end of the 64-entry table, and `popBit(0)` computes the negative index -504276681 |
| `BitScan.PopBitIndex` | src/com/kasparov/BoardStructure.java:209-218 | with the 32-bit fold and 32-bit product, the index always selects a table entry, so the square is always in 0..63 |
| `BitScan.PopBitIndexEmpty` | src/com/kasparov/BoardStructure.java:209-218 | on the empty board the 32-bit scan yields square 63 |
| `BitScan.LowestBitPattern` | src/com/kasparov/BoardStructure.java:209 | on a non-empty board, `b ^ (b - 1)` is the lowest set bit together with every bit below it |
| `BitScan.PopBitIndexOfLowestBit` | src/com/kasparov/BoardStructure.java:209-218 | the intended index depends only on the lowest set bit of the board |
| `BitScan.ScanSingleBit` | src/com/kasparov/BoardStructure.java:109-118 | for each of the 64 single-bit boards m, the slot of m together with every bit below it is in 0..63 and its `bitTable` entry k satisfies `m == 1L << k` |
| `BitScan.LowestBitScan` | src/com/kasparov/BoardStructure.java:209-218 | on a non-empty board, the lowest set bit is `1L << index` for the intended index |
| `BitScan.PopBitIndexIsLowest` | src/com/kasparov/BoardStructure.java:209-218 | on a non-empty board, the square bit of the intended index is set in the board and no lower bit is |
| `BitScan.PopBitClearsIndexedSquare` | src/com/kasparov/BoardStructure.java:209-218 | popping a non-empty board clears exactly the bit of the square it reports and keeps every other bit |
| `Board.BoardStructure.constructor` | src/com/kasparov/BoardStructure.java:94-99 | a new structure has a 120-entry and a 64-entry table, both zero-filled as Java allocates them |
| `Board.BoardStructure.InitSqr120AndSqr64` | src/com/kasparov/BoardStructure.java:129-144 | writes only the two tables; afterwards the compact-to-padded table is the rank-major conversion table and the padded-to-compact table is its inverse with 65 off the real squares; both depend on the conversion alone, so a second call reproduces them |
| `Board.BoardStructure.Sqr64` | src/com/kasparov/BoardStructure.java:238-240 | returns the padded-to-compact entry and changes nothing; on initialised tables the result is 65 or a compact index that maps back to the argument |
| `Board.BoardStructure.CountBits` | src/com/kasparov/BoardStructure.java:227-231 | the loop returns the number of set bits of the board, between 0 and 64; it runs once per set bit |
| `Board.BoardStructure.PopBit` | src/com/kasparov/BoardStructure.java:208-219 | the returned board is the argument with its lowest set bit cleared and one set bit fewer, and the returned index is the intended 32-bit scan, whose square bit is that lowest set bit; the empty board gives the empty board and index 63 |

## Left out

- `printSqr120`, `printSqr64`, `printBitBoard` and the `System.out.println(index)` inside `popBit`: console output only.
- Board.BoardStructure.PopBit: returns the pair (board, index) rather than a two-element `long[]`. The index is the corrected 32-bit scan (see "Findings"), not the code as written.
- `com.kasparov.unsigned.UInt64` is not part of this model. Its `longValue()` is taken to return the long the `UInt64` was built from.
- BoardConstants.java, BoardRank.java and BoardFile.java are not part of this model. `BOARD_SQR_NUM = 120` and files and ranks numbered 0..7 are assumed. `convertFileRankToSqr` is the parameter `convert`, constrained only by `ValidConversion`. `21 + f + 10 * r` is its assumed conventional instance.
- Board.BoardStructure.InitSqr120AndSqr64: requires `ValidConversion`. A conversion that leaves the padded board would make Java throw `ArrayIndexOutOfBoundsException`, and that path is not modelled.
- Board.BoardStructure.Sqr64: requires an index in 0..119. Java throws `ArrayIndexOutOfBoundsException` otherwise, and that path is not modelled.
- `bitTable` is the constant `BitScan.BIT_TABLE`, not a mutable `int[]` field, because nothing writes to it.
- The position fields `pieces`, `pawns`, `kingSqr`, `side`, `enPassant`, `fiftyMove`, `ply`, `historyPly`, `positionKey`, `pieceNum`, `pieceBig`, `pieceMajor`, `pieceMinor`, `castlePerm`, `history` and `pieceList` are left out. No method of the class reads or writes them. Their invariants (pawn-board union, piece-list consistency, history push and pop, hash updates) are not implemented in this class.
- `UndoStructure` is not part of this model.
- Integer widths: `countBits` returns a Java `int`, and the count never exceeds 64, so no wrap-around is possible. Table entries are plain integers, because every value stored is at most 119.

## Findings

| source | as written | input that shows it | evidently intended | confidence | as-written member | corrected member |
|---|---|---|---|---|---|---|
| src/com/kasparov/BoardStructure.java:210-214 | the fold is `(b & 0xffffff) ^ (b >> 32)`, 24 bits of the low half, and `(fold * 0x783a9b23) >> 26` is taken on a 64-bit `long` with no truncation to 32 bits | `popBit(2)`: `b == 3`, fold 3, index 90, so `bitTable[90]` throws `ArrayIndexOutOfBoundsException`; `popBit(0)` gives index -504276681 and throws too | fold the low and high 32-bit halves into an unsigned 32-bit value and keep the top six bits of the 32-bit product, so the table entry is the square of the lowest set bit | not executed; assumes `UInt64.longValue()` returns the long it was built from | `BitScan.PopBitIndexAsWrittenLeavesTable` | `BitScan.PopBitIndexIsLowest` |
