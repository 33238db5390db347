/**
 * The 0x88 square arithmetic, the constant offset tables and the castling
 * right bits (src/position.h, with `rank_of`/`file_of` of src/movegen.cpp).
 *
 * A square is an index into 128 cells laid out as 8 ranks of 16 columns:
 * file = sq & 7, rank = sq >> 4, and the right half of each rank is padding.
 */
module Squares {

  const KnightOffsets: seq<int> := [31, 33, 18, 14, -31, -33, -18, -14]
  const BishopOffsets: seq<int> := [17, 15, -17, -15]
  const RookOffsets: seq<int> := [16, -16, 1, -1]
  const KingOffsets: seq<int> := [16, -16, 1, -1, 17, 15, -17, -15]

  const WK_CASTLE: bv8 := 1
  const WQ_CASTLE: bv8 := 2
  const BK_CASTLE: bv8 := 4
  const BQ_CASTLE: bv8 := 8
  const ALL_CASTLE: bv8 := WK_CASTLE | WQ_CASTLE | BK_CASTLE | BQ_CASTLE

  /**
   * `isOnBoard`: the source tests `!(sq & 0x88)`. Every square the program
   * asks about lies in -128..255, where that test is the range test below
   * (see OnBoardIsMaskTest).
   */
  predicate IsOnBoard(sq: int) {
    0 <= sq < 128 && sq % 16 < 8
  }

  /** `(rank << 4) | file`, which is rank * 16 + file while file < 16. */
  function MakeSquare(file: int, rank: int): (sq: int)
    requires 0 <= file < 16
  {
    rank * 16 + file
  }

  /** `rank_of`: an arithmetic shift right by 4, which floors. */
  function RankOf(sq: int): int { sq / 16 }

  /** `file_of`: the low three bits. */
  function FileOf(sq: int): int { sq % 8 }

  const SQ_A1: int := MakeSquare(0, 0)
  const SQ_B1: int := MakeSquare(1, 0)
  const SQ_C1: int := MakeSquare(2, 0)
  const SQ_D1: int := MakeSquare(3, 0)
  const SQ_E1: int := MakeSquare(4, 0)
  const SQ_F1: int := MakeSquare(5, 0)
  const SQ_G1: int := MakeSquare(6, 0)
  const SQ_H1: int := MakeSquare(7, 0)
  const SQ_A8: int := MakeSquare(0, 7)
  const SQ_B8: int := MakeSquare(1, 7)
  const SQ_C8: int := MakeSquare(2, 7)
  const SQ_D8: int := MakeSquare(3, 7)
  const SQ_E8: int := MakeSquare(4, 7)
  const SQ_F8: int := MakeSquare(5, 7)
  const SQ_G8: int := MakeSquare(6, 7)
  const SQ_H8: int := MakeSquare(7, 7)

  /** The 0x88 mask test on the two's-complement low byte of `sq`. */
  predicate MaskTest(sq: int) {
    ((sq % 0x100) as bv8) & 0x88 == 0
  }

  /**
   * On the window -128..255 (every square a ray or offset step from an
   * on-board square can reach) the range test is exactly the 0x88 mask test.
   */
  lemma OnBoardIsMaskTest(sq: int)
    requires -128 <= sq < 256
    ensures IsOnBoard(sq) <==> MaskTest(sq)
  {
    var low := sq % 0x100;
    ByteMask(low as bv8);
    if sq < 0 {
      assert low == sq + 256 && low >= 128;
    } else {
      assert low == sq;
    }
  }

  /** For a byte, the 0x88 mask is clear exactly on the low half-ranks of the first 128 values. */
  lemma ByteMask(x: bv8)
    ensures x & 0x88 == 0 <==> (x as int) < 128 && (x as int) % 16 < 8
  {
    HighBit(x);
    LowBit(x);
    assert x & 0x88 == (x & 0x80) | (x & 0x08);
  }

  lemma HighBit(x: bv8)
    ensures (x & 0x80 == 0) <==> (x as int) < 128
  {
    assert (x & 0x80 == 0) <==> x < 0x80;
  }

  lemma LowBit(x: bv8)
    ensures (x & 0x08 == 0) <==> (x as int) % 16 < 8
  {
    assert (x & 0x0F) as int == (x as int) % 16;
    assert (x & 0x08 == 0) <==> x & 0x0F < 8;
  }

  /**
   * A file and a rank of the board make an on-board square, and `file_of`
   * and `rank_of` recover them; every on-board square arises this way.
   */
  lemma MakeSquareRoundTrip(file: int, rank: int)
    requires 0 <= file < 8 && 0 <= rank < 8
    ensures IsOnBoard(MakeSquare(file, rank))
    ensures FileOf(MakeSquare(file, rank)) == file && RankOf(MakeSquare(file, rank)) == rank
  {
    var sq := MakeSquare(file, rank);
    assert sq == 16 * rank + file;
    assert 0 <= sq < 128 by {
      assert 0 <= 16 * rank <= 16 * 7;
    }
    assert sq / 16 == rank && sq % 16 == file;
    assert sq == 8 * (2 * rank) + file;
    assert sq % 8 == file;
  }

  lemma OnBoardDecomposes(sq: int)
    requires IsOnBoard(sq)
    ensures 0 <= FileOf(sq) < 8 && 0 <= RankOf(sq) < 8
    ensures MakeSquare(FileOf(sq), RankOf(sq)) == sq
  {
  }

  /** The king steps are the rook steps followed by the bishop steps. */
  lemma KingOffsetsAreRookThenBishop()
    ensures KingOffsets == RookOffsets + BishopOffsets
  {
  }

  /** The castling rights are four distinct single bits whose union is 15. */
  lemma CastleBitsDistinct()
    ensures ALL_CASTLE == 15
    ensures WK_CASTLE & WQ_CASTLE == 0 && WK_CASTLE & BK_CASTLE == 0 && WK_CASTLE & BQ_CASTLE == 0
    ensures WQ_CASTLE & BK_CASTLE == 0 && WQ_CASTLE & BQ_CASTLE == 0 && BK_CASTLE & BQ_CASTLE == 0
  {
  }
}
