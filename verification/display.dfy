/**
 * The text helpers of src/utils.h: the letter and the chess-symbol of a
 * piece, and the castling-rights and en-passant fields that `printBoard`
 * writes. The stream output itself is not modelled; each fragment is the
 * string the function would write.
 *
 * The symbols are the Unicode chess pieces U+2654..U+265F, one character
 * each here (three bytes of UTF-8 in the source's string literals).
 */
module Display {
  import opened Types
  import opened Squares

  /** The letters of the white and of the black pieces, in code order WP..WK and BP..BK. */
  const WhiteLetters: string := "PNBRQK"
  const BlackLetters: string := "pnbrqk"

  /** `pieceToChar` (utils.h:5-38). */
  function PieceToChar(p: int): (s: string)
    ensures |s| == 1
  {
    if p == WP then "P" else if p == WN then "N" else if p == WB then "B"
    else if p == WR then "R" else if p == WQ then "Q" else if p == WK then "K"
    else if p == BP then "p" else if p == BN then "n" else if p == BB then "b"
    else if p == BR then "r" else if p == BQ then "q" else if p == BK then "k"
    else if p == EMPTY then "."
    else "?"
  }

  /** `pieceToSymbol` (utils.h:40-73). */
  function PieceToSymbol(p: int): (s: string)
    ensures |s| == 1
  {
    if p == WP then "\U{2659}" else if p == WN then "\U{2658}" else if p == WB then "\U{2657}"
    else if p == WR then "\U{2656}" else if p == WQ then "\U{2655}" else if p == WK then "\U{2654}"
    else if p == BP then "\U{265F}" else if p == BN then "\U{265E}" else if p == BB then "\U{265D}"
    else if p == BR then "\U{265C}" else if p == BQ then "\U{265B}" else if p == BK then "\U{265A}"
    else if p == EMPTY then "."
    else "?"
  }

  /** `pieceToRepresentation(p, symbol)` (utils.h:75-79). */
  function PieceToRepresentation(p: int, symbol: bool): (s: string)
    ensures |s| == 1
  {
    if symbol then PieceToSymbol(p) else PieceToChar(p)
  }

  /**
   * The letters of `pieceToChar`: white pieces are "PNBRQK" and black ones
   * "pnbrqk" in code order, the empty square is "." and any other value "?".
   */
  lemma PieceLetters(p: int)
    ensures WP <= p <= WK ==> PieceToChar(p) == [WhiteLetters[p - WP]]
    ensures BP <= p <= BK ==> PieceToChar(p) == [BlackLetters[p - BP]]
    ensures PieceToChar(EMPTY) == "."
    ensures !IsPieceCode(p) ==> PieceToChar(p) == "?"
  {
  }

  /** The piece a letter of `pieceToChar` stands for, or -1 for a character it never writes for a piece code. */
  function LetterPiece(c: char): int {
    if c == '.' then EMPTY
    else if c in WhiteLetters then WP + IndexOf(WhiteLetters, c)
    else if c in BlackLetters then BP + IndexOf(BlackLetters, c)
    else -1
  }

  /** The first position of `c` in `s`. */
  function IndexOf(s: string, c: char): (i: nat)
    requires c in s
    ensures i < |s| && s[i] == c && c !in s[..i]
  {
    if s[0] == c then 0 else IndexOf(s[1..], c) + 1
  }

  /** Reading the letter back gives the piece: `pieceToChar` loses nothing on the 13 defined codes. */
  lemma LetterRoundTrip(p: int)
    requires IsPieceCode(p)
    ensures LetterPiece(PieceToChar(p)[0]) == p
  {
    PieceLetters(p);
    if WP <= p <= WK {
      LettersDistinct(WhiteLetters, p - WP);
    } else if BP <= p <= BK {
      LettersDistinct(BlackLetters, p - BP);
      assert BlackLetters[p - BP] !in WhiteLetters;
    }
  }

  /** In a string without repeated characters, the character at `i` is first found at `i`. */
  lemma LettersDistinct(s: string, i: nat)
    requires i < |s| && forall a, b :: 0 <= a < b < |s| ==> s[a] != s[b]
    ensures IndexOf(s, s[i]) == i
  {
    var j := IndexOf(s, s[i]);
    assert forall k :: 0 <= k < j ==> s[..j][k] == s[k];
  }

  /** `pieceToChar` is injective on the 13 defined piece codes. */
  lemma PieceToCharInjective(p: int, q: int)
    requires IsPieceCode(p) && IsPieceCode(q) && PieceToChar(p) == PieceToChar(q)
    ensures p == q
  {
    LetterRoundTrip(p);
    LetterRoundTrip(q);
  }

  /** Upper-case letters are the white pieces, lower-case ones the black pieces. */
  lemma LetterCaseIsColor(p: int)
    requires WP <= p <= BK
    ensures 'A' <= PieceToChar(p)[0] <= 'Z' <==> PieceColor(p) == White
    ensures 'a' <= PieceToChar(p)[0] <= 'z' <==> PieceColor(p) == Black
  {
  }

  /** The piece a symbol of `pieceToSymbol` stands for, or -1. */
  function SymbolPiece(c: char): int {
    if c == '.' then EMPTY
    else if '\U{2654}' <= c <= '\U{2659}' then WK - ((c as int) - 0x2654)
    else if '\U{265A}' <= c <= '\U{265F}' then BK - ((c as int) - 0x265A)
    else -1
  }

  /**
   * `pieceToSymbol` writes the white and black chess symbols for the twelve
   * pieces, "." for the empty square and "?" otherwise, and reading the
   * symbol back gives the piece.
   */
  lemma SymbolRoundTrip(p: int)
    ensures IsPieceCode(p) ==> SymbolPiece(PieceToSymbol(p)[0]) == p
    ensures PieceToSymbol(EMPTY) == "."
    ensures !IsPieceCode(p) ==> PieceToSymbol(p) == "?"
  {
  }

  /** `pieceToSymbol` is injective on the 13 defined piece codes. */
  lemma PieceToSymbolInjective(p: int, q: int)
    requires IsPieceCode(p) && IsPieceCode(q) && PieceToSymbol(p) == PieceToSymbol(q)
    ensures p == q
  {
    SymbolRoundTrip(p);
    SymbolRoundTrip(q);
  }

  /**
   * Either representation identifies the piece: whichever of the two the
   * board is printed with, distinct piece codes print differently.
   */
  lemma RepresentationInjective(p: int, q: int, symbol: bool)
    requires IsPieceCode(p) && IsPieceCode(q)
    requires PieceToRepresentation(p, symbol) == PieceToRepresentation(q, symbol)
    ensures p == q
  {
    if symbol {
      PieceToSymbolInjective(p, q);
    } else {
      PieceToCharInjective(p, q);
    }
  }

  // ---------------------------------------------------------------------------
  // The castling and en-passant fields of printBoard

  /** The castling field of `printBoard` (utils.h:100-112). */
  function CastlingText(rights: bv8): string {
    if rights == 0 then "-"
    else
      (if rights & WK_CASTLE != 0 then "K" else "")
      + (if rights & WQ_CASTLE != 0 then "Q" else "")
      + (if rights & BK_CASTLE != 0 then "k" else "")
      + (if rights & BQ_CASTLE != 0 then "q" else "")
  }

  /** The rights a castling field names: the bit of each letter it holds. */
  function CastlingBits(t: string): bv8 {
    (if 'K' in t then WK_CASTLE else 0)
    | (if 'Q' in t then WQ_CASTLE else 0)
    | (if 'k' in t then BK_CASTLE else 0)
    | (if 'q' in t then BQ_CASTLE else 0)
  }

  /**
   * The castling field is "-" exactly when no right is held, and otherwise
   * names every held right and no other: reading it back gives the four
   * right bits.
   */
  lemma CastlingTextRoundTrip(rights: bv8)
    ensures CastlingText(rights) == "-" <==> rights == 0
    ensures rights != 0 ==> CastlingBits(CastlingText(rights)) == rights & ALL_CASTLE
  {
    CastleBitsDistinct();
    var k := if rights & WK_CASTLE != 0 then "K" else "";
    var q := if rights & WQ_CASTLE != 0 then "Q" else "";
    var k' := if rights & BK_CASTLE != 0 then "k" else "";
    var q' := if rights & BQ_CASTLE != 0 then "q" else "";
    if rights != 0 {
      var t := CastlingText(rights);
      assert t == k + q + k' + q';
      assert 'K' in t <==> rights & WK_CASTLE != 0;
      assert 'Q' in t <==> rights & WQ_CASTLE != 0;
      assert 'k' in t <==> rights & BK_CASTLE != 0;
      assert 'q' in t <==> rights & BQ_CASTLE != 0;
      RightsFromBits(rights);
    }
  }

  /** A byte's four low bits are the union of the four castling bits it holds. */
  lemma RightsFromBits(r: bv8)
    ensures r & ALL_CASTLE
         == (if r & WK_CASTLE != 0 then WK_CASTLE else 0)
          | (if r & WQ_CASTLE != 0 then WQ_CASTLE else 0)
          | (if r & BK_CASTLE != 0 then BK_CASTLE else 0)
          | (if r & BQ_CASTLE != 0 then BQ_CASTLE else 0)
  {
  }

  /** Two sets of castling rights, both within the four right bits, print alike only when they are equal. */
  lemma CastlingTextInjective(r1: bv8, r2: bv8)
    requires r1 & ALL_CASTLE == r1 && r2 & ALL_CASTLE == r2
    requires CastlingText(r1) == CastlingText(r2)
    ensures r1 == r2
  {
    CastlingTextRoundTrip(r1);
    CastlingTextRoundTrip(r2);
  }

  /**
   * The en-passant field of `printBoard` (utils.h:115-124) without the
   * numeric suffix: "-" for -1, and otherwise the file letter 'a' + (ep & 7)
   * and the rank digit '1' + (ep >> 4). On the two's-complement `int` of
   * the source, `ep & 7` is the non-negative remainder by 8 and `ep >> 4`
   * the floor of ep / 16, which are Dafny's `%` and `/`; the rank digit is
   * narrowed to a byte as the `char` conversion does.
   */
  function EpText(ep: int): (t: string)
    ensures |t| == (if ep == -1 then 1 else 2)
  {
    if ep == -1 then "-"
    else [(('a' as int) + ep % 8) as char, ((('1' as int) + ep / 16) % 0x100) as char]
  }

  /** For an on-board square the field is its file letter a-h and rank digit 1-8. */
  lemma EpTextOfSquare(sq: int)
    requires IsOnBoard(sq)
    ensures 'a' <= EpText(sq)[0] <= 'h' && '1' <= EpText(sq)[1] <= '8'
    ensures EpText(sq)[0] as int - 'a' as int == FileOf(sq)
    ensures EpText(sq)[1] as int - '1' as int == RankOf(sq)
  {
  }

  /** Distinct en-passant values the position can hold print differently. */
  lemma EpTextInjective(e1: int, e2: int)
    requires e1 == -1 || IsOnBoard(e1)
    requires e2 == -1 || IsOnBoard(e2)
    requires EpText(e1) == EpText(e2)
    ensures e1 == e2
  {
    if e1 != -1 && e2 != -1 {
      EpTextOfSquare(e1);
      EpTextOfSquare(e2);
      OnBoardDecomposes(e1);
      OnBoardDecomposes(e2);
    }
  }
}
