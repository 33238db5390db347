/**
 * Where src/position.cpp departs from its evident intent, the code as
 * written against the corrected definition the rest of the model uses:
 *   - the pawn test of `inCheck` (position.cpp:45-56) looks for the
 *     attacking pawn on the wrong side of the king;
 *   - the diagonal loop of `inCheck` (position.cpp:70-81) never moves along
 *     the ray (`sq + off;` at line 73);
 *   - undoing white king-side castling (position.cpp:313) puts the rook on
 *     g1 instead of h1.
 * (The h8 rook capture of position.cpp:237 is in rules.dfy, beside the
 * function it concerns.)
 */
module Findings {
  import opened Types
  import opened Moves
  import opened Squares
  import opened Rules
  import opened RoundTrip
  import opened MoveGen

  // ---------------------------------------------------------------------------
  // The pawn test of inCheck

  /**
   * The corrected test finds exactly the pawns whose capture squares, as
   * the move generator forms them (`PawnCaps`), include `sq`.
   */
  lemma PawnHitMatchesCaptures(b: seq<int>, sq: int)
    requires |b| == 128
    ensures PawnHit(b, sq, White) <==> exists t :: PieceOn(b, t, WP) && sq in PawnCaps(t, true)
    ensures PawnHit(b, sq, Black) <==> exists t :: PieceOn(b, t, BP) && sq in PawnCaps(t, false)
  {
    if PawnHit(b, sq, White) {
      var t := if PieceOn(b, sq - 15, WP) then sq - 15 else sq - 17;
      assert sq in PawnCaps(t, true);
    }
    if PawnHit(b, sq, Black) {
      var t := if PieceOn(b, sq + 17, BP) then sq + 17 else sq + 15;
      assert sq in PawnCaps(t, false);
    }
  }

  /**
   * As written, the test finds the pawns that would capture onto `sq` if
   * they moved the way the other colour's pawns do.
   */
  lemma PawnHitAsWrittenReversed(b: seq<int>, sq: int)
    requires |b| == 128
    ensures PawnHitAsWritten(b, sq, White) <==> exists t :: PieceOn(b, t, WP) && sq in PawnCaps(t, false)
    ensures PawnHitAsWritten(b, sq, Black) <==> exists t :: PieceOn(b, t, BP) && sq in PawnCaps(t, true)
  {
    if PawnHitAsWritten(b, sq, White) {
      var t := if PieceOn(b, sq + 15, WP) then sq + 15 else sq + 17;
      assert sq in PawnCaps(t, false);
    }
    if PawnHitAsWritten(b, sq, Black) {
      var t := if PieceOn(b, sq - 17, BP) then sq - 17 else sq - 15;
      assert sq in PawnCaps(t, true);
    }
  }

  /** The black king on e8 and a white pawn on d7, nothing else. */
  function PawnCheckBoard(): (b: seq<int>)
    ensures |b| == 128
  {
    seq(128, i => if i == SQ_E8 then BK else if i == SQ_D8 - 16 then WP else EMPTY)
  }

  /**
   * The white pawn on d7 gives check to the black king on e8; the test as
   * written does not see it.
   */
  lemma PawnCheckMissedAsWritten()
    ensures PawnHit(PawnCheckBoard(), SQ_E8, White)
    ensures !PawnHitAsWritten(PawnCheckBoard(), SQ_E8, White)
  {
    var b := PawnCheckBoard();
    assert SQ_E8 == 116 && SQ_D8 - 16 == 99;
    assert b[116 - 17] == WP;
  }

  // ---------------------------------------------------------------------------
  // The diagonal loop of inCheck

  /** The `k`-th square from `sq` in direction `off`. */
  function RayCell(sq: int, off: int, k: int): int {
    sq + k * off
  }

  /** The first `n - 1` squares of the ray are on the board and empty. */
  predicate ClearBefore(b: seq<int>, sq: int, off: int, n: int)
    requires |b| == 128
  {
    forall k :: 1 <= k < n ==> IsOnBoard(RayCell(sq, off, k)) && b[RayCell(sq, off, k)] == EMPTY
  }

  /** The `n`-th square of the ray holds a piece of `attacker` of kind `k1` or `k2`, with nothing in between. */
  predicate SeesAt(b: seq<int>, sq: int, off: int, n: int, attacker: Color, k1: int, k2: int)
    requires |b| == 128
  {
    && n >= 1 && ClearBefore(b, sq, off, n)
    && IsOnBoard(RayCell(sq, off, n))
    && var p := b[RayCell(sq, off, n)];
       p != EMPTY && PieceColor(p) == attacker && (PieceType(p) == k1 || PieceType(p) == k2)
  }

  /**
   * The corrected ray test walks the ray: it holds exactly when, at some
   * distance, the ray meets such a piece with only empty squares before it.
   */
  lemma {:induction false} RayHitSees(b: seq<int>, sq: int, off: int, attacker: Color, k1: int, k2: int)
    requires |b| == 128 && 0 <= sq < 128 && off != 0
    ensures RayHit(b, sq, off, attacker, k1, k2) <==> exists n :: SeesAt(b, sq, off, n, attacker, k1, k2)
    decreases if off > 0 then 128 - sq else sq
  {
    var t := sq + off;
    assert RayCell(sq, off, 1) == t;
    if !IsOnBoard(t) {
    } else if b[t] != EMPTY {
      if RayHit(b, sq, off, attacker, k1, k2) {
        assert SeesAt(b, sq, off, 1, attacker, k1, k2);
      }
    } else {
      RayHitSees(b, t, off, attacker, k1, k2);
      forall n | SeesAt(b, t, off, n, attacker, k1, k2)
        ensures SeesAt(b, sq, off, n + 1, attacker, k1, k2)
      {
        SeesShift(b, sq, off, n + 1, attacker, k1, k2);
      }
      forall n | SeesAt(b, sq, off, n, attacker, k1, k2)
        ensures n >= 2 && SeesAt(b, t, off, n - 1, attacker, k1, k2)
      {
        assert n != 1;
        SeesShift(b, sq, off, n, attacker, k1, k2);
      }
    }
  }

  /** Past an empty first square, seeing at distance `n` from `sq` is seeing at `n - 1` from the next square. */
  lemma SeesShift(b: seq<int>, sq: int, off: int, n: int, attacker: Color, k1: int, k2: int)
    requires |b| == 128 && n >= 2
    requires IsOnBoard(sq + off) && b[sq + off] == EMPTY
    ensures SeesAt(b, sq, off, n, attacker, k1, k2) <==> SeesAt(b, sq + off, off, n - 1, attacker, k1, k2)
  {
    var t := sq + off;
    assert RayCell(t, off, n - 1) == RayCell(sq, off, n);
    assert RayCell(sq, off, 1) == t;
    if ClearBefore(b, t, off, n - 1) {
      forall k | 1 <= k < n
        ensures IsOnBoard(RayCell(sq, off, k)) && b[RayCell(sq, off, k)] == EMPTY
      {
        if k > 1 {
          assert RayCell(sq, off, k) == RayCell(t, off, k - 1);
        }
      }
    }
    if ClearBefore(b, sq, off, n) {
      forall k | 1 <= k < n - 1
        ensures IsOnBoard(RayCell(t, off, k)) && b[RayCell(t, off, k)] == EMPTY
      {
        assert RayCell(t, off, k) == RayCell(sq, off, k + 1);
      }
    }
  }

  /**
   * As written the loop inspects only the king's own square, so it never
   * reports a check: the king there is never an attacking bishop or queen.
   */
  lemma DiagonalRayAsWrittenBlind(b: seq<int>, sq: int, c: Color)
    requires |b| == 128 && 0 <= sq < 128 && c != NoColor && b[sq] == KingPiece(c)
    ensures !DiagonalRayAsWritten(b, sq, Opposite(c))
  {
  }

  /** The white king on e1 and a black bishop on h4, nothing else. */
  function BishopCheckBoard(): (b: seq<int>)
    ensures |b| == 128
  {
    seq(128, i => if i == SQ_E1 then WK else if i == SQ_E1 + 3 * 17 then BB else EMPTY)
  }

  /** The bishop on h4 gives check along the diagonal; the loop as written does not see it. */
  lemma BishopCheckMissedAsWritten()
    ensures AnyRayHit(BishopCheckBoard(), SQ_E1, BishopOffsets, 0, Black, WB, WQ)
    ensures !DiagonalRayAsWritten(BishopCheckBoard(), SQ_E1, Black)
  {
    var b := BishopCheckBoard();
    assert SQ_E1 == 4;
    assert b[21] == EMPTY && b[38] == EMPTY && b[55] == BB;
    assert RayHit(b, 38, 17, Black, WB, WQ);
    assert RayHit(b, 21, 17, Black, WB, WQ);
    assert RayHit(b, 4, 17, Black, WB, WQ);
  }

  // ---------------------------------------------------------------------------
  // Undoing white king-side castling

  /**
   * After white castles king-side, undoing it as position.cpp:313 writes
   * leaves h1 empty and the rook on g1, so the board is not the one the
   * move was made on; the corrected undo restores it (BoardRoundTrip).
   */
  lemma UncastleAsWrittenMisplacesRook(s: Snapshot, m: Move)
    requires Consistent(s) && WellFormedMove(s, m) && IsCastling(m) && m.piece == WK && m.to == SQ_G1
    ensures var a := AppliedBoard(s.board, m);
            var back := UncastleRookAsWritten(a[m.from := m.piece][m.to := EMPTY], m);
            back[SQ_H1] == EMPTY && back[SQ_G1] == WR && back != s.board
    ensures UndoneBoard(AppliedBoard(s.board, m),
                        State(s.castlingRights, s.epSquare, s.halfmoveClock, s.fullmoveNumber,
                              CapturedPieceOf(s.board, m), m))
         == s.board
  {
    BoardRoundTrip(s, m);
    var a := AppliedBoard(s.board, m);
    var back := UncastleRookAsWritten(a[m.from := m.piece][m.to := EMPTY], m);
    assert SQ_H1 == 7 && SQ_G1 == 6 && SQ_F1 == 5 && SQ_E1 == 4;
    assert back[SQ_H1] == a[SQ_H1];
    assert back[SQ_G1] == WR && s.board[SQ_G1] == EMPTY;
  }
}
