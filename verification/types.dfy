/**
 * Integer-coded pieces and colours (src/types.h).
 *
 * A piece is an `int`: 0 is the empty square, 1..6 the white pawn, knight,
 * bishop, rook, queen and king, 7..12 the black ones in the same order.
 * Colour and kind are derived from the code by range arithmetic.
 */
module Types {

  const EMPTY: int := 0
  const WP: int := 1
  const WN: int := 2
  const WB: int := 3
  const WR: int := 4
  const WQ: int := 5
  const WK: int := 6
  const BP: int := 7
  const BN: int := 8
  const BB: int := 9
  const BR: int := 10
  const BQ: int := 11
  const BK: int := 12

  /** The three colour codes 0, 1, 2 of the source. */
  datatype Color = White | Black | NoColor

  /** A code the source defines: EMPTY or one of the twelve pieces. */
  predicate IsPieceCode(p: int) {
    EMPTY <= p <= BK
  }

  function PieceColor(p: int): Color {
    if p == EMPTY then NoColor
    else if p >= BP then Black
    else White
  }

  /** The colour-less kind of a piece, written as the white piece of that kind. */
  function PieceType(p: int): int {
    if p == EMPTY then EMPTY
    else if p >= BP then p - BP + WP
    else p
  }

  function Opposite(c: Color): Color {
    if c == White then Black else White
  }

  /** The piece of kind `kind` (a white code WP..WK) and colour `c`. */
  function Colored(kind: int, c: Color): (p: int)
    requires WP <= kind <= WK
    ensures c == Black ==> p == kind + (BP - WP)
    ensures c != Black ==> p == kind
  {
    if c == Black then kind - WP + BP else kind
  }

  lemma EmptyHasNoColor()
    ensures PieceColor(EMPTY) == NoColor
    ensures forall p :: PieceColor(p) == NoColor <==> p == EMPTY
  {
  }

  /** For the twelve pieces, Black is exactly the upper half of the codes. */
  lemma ColorOfPieces(p: int)
    requires WP <= p <= BK
    ensures PieceColor(p) == Black <==> p >= BP
    ensures PieceColor(p) == White <==> p < BP
  {
  }

  /**
   * Kind and colour of a piece determine it: splitting a piece into
   * (PieceType, PieceColor) and recombining gives the piece back, and the
   * kind of a non-empty piece is always one of the white codes WP..WK.
   */
  lemma TypeColorRoundTrip(p: int)
    requires WP <= p <= BK
    ensures WP <= PieceType(p) <= WK
    ensures Colored(PieceType(p), PieceColor(p)) == p
    ensures p < BP ==> PieceType(p) == p
    ensures p >= BP ==> PieceType(p) == p - BP + WP
  {
  }

  lemma PieceTypeOfEmpty()
    ensures PieceType(EMPTY) == EMPTY
  {
  }

  /** Building a piece from a kind and a real colour and taking it apart again. */
  lemma ColoredRoundTrip(kind: int, c: Color)
    requires WP <= kind <= WK && c != NoColor
    ensures PieceType(Colored(kind, c)) == kind
    ensures PieceColor(Colored(kind, c)) == c
  {
  }

  /** `opposite` swaps the two real colours, is an involution on them, and sends NO_COLOR to White. */
  lemma OppositeFacts(c: Color)
    ensures c == White ==> Opposite(c) == Black
    ensures c == Black ==> Opposite(c) == White
    ensures c != NoColor ==> Opposite(Opposite(c)) == c && Opposite(c) != c
    ensures Opposite(NoColor) == White
  {
  }
}
