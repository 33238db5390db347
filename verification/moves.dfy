/**
 * The plain `Move` record and its flag bits (src/move.h).
 *
 * The record stores its squares in 16-bit and its pieces in 8-bit fields;
 * `NewMove` (the source's `make_move`) performs the narrowing casts
 * explicitly, so the fields here always lie in those ranges.
 */
module Moves {
  import opened Types

  const MF_NONE: bv8 := 0
  const MF_CAPTURE: bv8 := 1
  const MF_EN_PASSANT: bv8 := 2
  const MF_CASTLING: bv8 := 4
  const MF_PROMOTION: bv8 := 8

  datatype Move = Move(from: int, to: int, piece: int, captured: int, promotion: int, flags: bv8)

  /** True when every field holds a value its C++ type can represent. */
  predicate FieldsInRange(m: Move) {
    0 <= m.from < 0x1_0000 && 0 <= m.to < 0x1_0000
    && 0 <= m.piece < 0x100 && 0 <= m.captured < 0x100 && 0 <= m.promotion < 0x100
  }

  /** `make_move`: squares are cast to uint16_t and pieces to uint8_t. */
  function NewMove(from: int, to: int, piece: int, captured: int := EMPTY,
                   promotion: int := EMPTY, flags: bv8 := MF_NONE): (m: Move)
    ensures FieldsInRange(m)
    ensures m.flags == flags
  {
    Move(from % 0x1_0000, to % 0x1_0000, piece % 0x100, captured % 0x100, promotion % 0x100, flags)
  }

  predicate HasFlag(m: Move, f: bv8) {
    m.flags & f != 0
  }

  predicate IsCapture(m: Move) { HasFlag(m, MF_CAPTURE) }
  predicate IsEnPassant(m: Move) { HasFlag(m, MF_EN_PASSANT) }
  predicate IsCastling(m: Move) { HasFlag(m, MF_CASTLING) }
  predicate IsPromotion(m: Move) { HasFlag(m, MF_PROMOTION) }

  /** The flag byte that carries exactly the given four facts. */
  function FlagSet(capture: bool, enPassant: bool, castling: bool, promotion: bool): bv8 {
    (if capture then MF_CAPTURE else MF_NONE)
    | (if enPassant then MF_EN_PASSANT else MF_NONE)
    | (if castling then MF_CASTLING else MF_NONE)
    | (if promotion then MF_PROMOTION else MF_NONE)
  }

  /**
   * For squares on the 128-cell board and pieces 0..12, `make_move` stores
   * every field unchanged: the narrowing casts lose nothing.
   */
  lemma NewMoveKeepsFields(from: int, to: int, piece: int, captured: int, promotion: int, flags: bv8)
    requires 0 <= from < 128 && 0 <= to < 128
    requires IsPieceCode(piece) && IsPieceCode(captured) && IsPieceCode(promotion)
    ensures NewMove(from, to, piece, captured, promotion, flags)
         == Move(from, to, piece, captured, promotion, flags)
  {
  }

  /** The defaults of `make_move`: nothing captured, no promotion, no flags. */
  lemma NewMoveDefaults(from: int, to: int, piece: int)
    requires 0 <= from < 128 && 0 <= to < 128 && IsPieceCode(piece)
    ensures NewMove(from, to, piece) == Move(from, to, piece, EMPTY, EMPTY, MF_NONE)
    ensures !IsCapture(NewMove(from, to, piece)) && !IsPromotion(NewMove(from, to, piece))
  {
  }

  /**
   * The four flags are distinct single bits, so a combination of them
   * decodes back to exactly the facts it was built from.
   */
  lemma FlagsDecodeUniquely(capture: bool, enPassant: bool, castling: bool, promotion: bool)
    ensures var f := FlagSet(capture, enPassant, castling, promotion);
      && (f & MF_CAPTURE != 0 <==> capture)
      && (f & MF_EN_PASSANT != 0 <==> enPassant)
      && (f & MF_CASTLING != 0 <==> castling)
      && (f & MF_PROMOTION != 0 <==> promotion)
      && f & 0xF0 == 0
  {
  }

  /** Two flag sets built from different facts are different bytes. */
  lemma FlagSetInjective(a1: bool, b1: bool, c1: bool, d1: bool, a2: bool, b2: bool, c2: bool, d2: bool)
    requires FlagSet(a1, b1, c1, d1) == FlagSet(a2, b2, c2, d2)
    ensures a1 == a2 && b1 == b2 && c1 == c2 && d1 == d2
  {
    FlagsDecodeUniquely(a1, b1, c1, d1);
    FlagsDecodeUniquely(a2, b2, c2, d2);
  }
}
