/**
 * What `undoMove` relies on, and the proof that it takes back `makeMove`.
 *
 * `Consistent` collects the facts every position reachable from the start
 * keeps: pieces are piece codes, a side is to move, the en-passant square is
 * empty, and each castling right still has its rook on its corner.
 * `WellFormedMove` collects what the move generator guarantees about a
 * move. For such a position and such a move, applying the move and undoing
 * it gives back exactly the position, and `makeMove` keeps the position
 * consistent whether it accepts or rejects the move.
 */
module RoundTrip {
  import opened Types
  import opened Moves
  import opened Squares
  import opened Rules

  predicate BoardCodes(b: seq<int>) {
    forall i :: 0 <= i < |b| ==> IsPieceCode(b[i])
  }

  /** Each castling right still has its rook on the right corner. */
  predicate RookRights(s: Snapshot)
    requires |s.board| == 128
  {
    && (s.castlingRights & WK_CASTLE != 0 ==> s.board[SQ_H1] == WR)
    && (s.castlingRights & WQ_CASTLE != 0 ==> s.board[SQ_A1] == WR)
    && (s.castlingRights & BK_CASTLE != 0 ==> s.board[SQ_H8] == BR)
    && (s.castlingRights & BQ_CASTLE != 0 ==> s.board[SQ_A8] == BR)
  }

  predicate Consistent(s: Snapshot) {
    && Shaped(s)
    && BoardCodes(s.board)
    && s.sideToMove != NoColor
    && (s.epSquare != -1 ==> s.board[s.epSquare] == EMPTY)
    && RookRights(s)
  }

  /** A castling king move from e1/e8 to g1/c1/g8/c8 with its right held and the crossed squares empty. */
  predicate CastleShape(s: Snapshot, m: Move)
    requires |s.board| == 128
  {
    var b := s.board;
    var rights := s.castlingRights;
    || (m.piece == WK && m.from == SQ_E1
        && ((m.to == SQ_G1 && rights & WK_CASTLE != 0 && b[SQ_F1] == EMPTY && b[SQ_G1] == EMPTY)
            || (m.to == SQ_C1 && rights & WQ_CASTLE != 0 && b[SQ_D1] == EMPTY && b[SQ_C1] == EMPTY)))
    || (m.piece == BK && m.from == SQ_E8
        && ((m.to == SQ_G8 && rights & BK_CASTLE != 0 && b[SQ_F8] == EMPTY && b[SQ_G8] == EMPTY)
            || (m.to == SQ_C8 && rights & BQ_CASTLE != 0 && b[SQ_D8] == EMPTY && b[SQ_C8] == EMPTY)))
  }

  /** An en-passant capture onto the en-passant square of a pawn standing beside the mover. */
  predicate EpShape(s: Snapshot, m: Move)
    requires |s.board| == 128 && MoveShaped(m) && IsEnPassant(m)
  {
    var c := EpCaptureSquare(m);
    && m.to == s.epSquare
    && (s.board[c] == WP || s.board[c] == BP)
    && c != m.from && c != m.to
  }

  /** What every generated move satisfies (see MoveGen.PseudoWellFormed). */
  predicate WellFormedMove(s: Snapshot, m: Move)
    requires Shaped(s)
  {
    && MoveShaped(m)
    && m.from != m.to
    && m.piece != EMPTY && s.board[m.from] == m.piece
    && IsPieceCode(m.promotion)
    && (IsCastling(m) ==> m.flags == MF_CASTLING && CastleShape(s, m))
    && (IsEnPassant(m) ==> EpShape(s, m))
    && (!IsCastling(m) && !IsEnPassant(m) && !IsCapture(m) ==> s.board[m.to] == EMPTY)
    && (IsDoublePawnPush(m) ==> m.flags == MF_NONE && s.board[(m.from + m.to) / 2] == EMPTY)
  }

  // ---------------------------------------------------------------------------
  // Undo after Apply

  /** Taking back a move on the board restores the board. */
  lemma BoardRoundTrip(s: Snapshot, m: Move)
    requires Consistent(s) && WellFormedMove(s, m)
    ensures UndoneBoard(AppliedBoard(s.board, m),
                        State(s.castlingRights, s.epSquare, s.halfmoveClock, s.fullmoveNumber,
                              CapturedPieceOf(s.board, m), m))
         == s.board
  {
    var b := s.board;
    var st := State(s.castlingRights, s.epSquare, s.halfmoveClock, s.fullmoveNumber,
                    CapturedPieceOf(b, m), m);
    var r := UndoneBoard(AppliedBoard(b, m), st);
    if IsCastling(m) {
      CastleRoundTrip(s, m);
    } else if IsEnPassant(m) {
      var c := EpCaptureSquare(m);
      assert b[m.to] == EMPTY;
      assert r == b[m.to := EMPTY][m.from := m.piece][c := b[c]];
      assert r == b;
    } else if IsCapture(m) {
      assert r == b[m.from := m.piece][m.to := b[m.to]];
      assert r == b;
    } else {
      assert r == b[m.to := EMPTY][m.from := m.piece];
      assert r == b;
    }
  }

  lemma CastleRoundTrip(s: Snapshot, m: Move)
    requires Consistent(s) && WellFormedMove(s, m) && IsCastling(m)
    ensures UndoneBoard(AppliedBoard(s.board, m),
                        State(s.castlingRights, s.epSquare, s.halfmoveClock, s.fullmoveNumber,
                              CapturedPieceOf(s.board, m), m))
         == s.board
  {
    var b := s.board;
    var st := State(s.castlingRights, s.epSquare, s.halfmoveClock, s.fullmoveNumber,
                    CapturedPieceOf(b, m), m);
    assert !IsCapture(m) && !IsEnPassant(m) && !IsPromotion(m);
    var moved := b[m.from := EMPTY][m.to := m.piece];
    assert MovedBoard(b, m) == moved;
    var r := UndoneBoard(AppliedBoard(b, m), st);
    if m.piece == WK && m.to == SQ_G1 {
      assert r == b[SQ_E1 := WK][SQ_G1 := EMPTY][SQ_H1 := WR][SQ_F1 := EMPTY];
    } else if m.piece == WK {
      assert r == b[SQ_E1 := WK][SQ_C1 := EMPTY][SQ_A1 := WR][SQ_D1 := EMPTY];
    } else if m.to == SQ_G8 {
      assert r == b[SQ_E8 := BK][SQ_G8 := EMPTY][SQ_H8 := BR][SQ_F8 := EMPTY];
    } else {
      assert r == b[SQ_E8 := BK][SQ_C8 := EMPTY][SQ_A8 := BR][SQ_D8 := EMPTY];
    }
    assert r == b;
  }

  /**
   * `undoMove` takes back `makeMove`'s changes: applying a generated move to
   * a consistent position and undoing it gives back the position exactly,
   * board, side, rights, en-passant square, clocks and stack.
   */
  lemma {:induction false} UndoApply(s: Snapshot, m: Move)
    requires Consistent(s) && WellFormedMove(s, m)
    ensures Undo(Apply(s, m)) == s
  {
    BoardRoundTrip(s, m);
    var a := Apply(s, m);
    assert a.stateStack[..|a.stateStack| - 1] == s.stateStack;
  }

  /** A rejected move leaves the position exactly as it was. */
  lemma RejectedMoveRestores(s: Snapshot, m: Move)
    requires Consistent(s) && WellFormedMove(s, m)
    ensures !MakeResult(s, m).ok ==> MakeResult(s, m).pos == s
  {
    UndoApply(s, m);
  }

  /** After a move `makeMove` accepted, `undoMove` gives back the position it started from. */
  lemma AcceptedMoveUndoes(s: Snapshot, m: Move)
    requires Consistent(s) && WellFormedMove(s, m)
    ensures MakeResult(s, m).ok ==> Undo(MakeResult(s, m).pos) == s
  {
    UndoApply(s, m);
  }

  // ---------------------------------------------------------------------------
  // Consistency is preserved

  /** A castling right that survives a move was held before, and the move disturbed neither its king nor its rook. */
  lemma RightKept(r0: bv8, piece: int, from: int, captured: int, sq: int)
    ensures var r := RightsAfterCapture(RightsAfterMove(r0, piece, from), captured, sq);
      && (r & WK_CASTLE != 0 ==>
            (r0 & WK_CASTLE != 0 && piece != WK
             && !(piece == WR && from == SQ_H1) && !(captured == WR && sq == SQ_H1)))
      && (r & WQ_CASTLE != 0 ==>
            (r0 & WQ_CASTLE != 0 && piece != WK
             && !(piece == WR && from == SQ_A1) && !(captured == WR && sq == SQ_A1)))
      && (r & BK_CASTLE != 0 ==>
            (r0 & BK_CASTLE != 0 && piece != BK
             && !(piece == BR && from == SQ_H8) && !(captured == BR && sq == SQ_H8)))
      && (r & BQ_CASTLE != 0 ==>
            (r0 & BQ_CASTLE != 0 && piece != BK
             && !(piece == BR && from == SQ_A8) && !(captured == BR && sq == SQ_A8)))
  {
    var r1 := RightsAfterMove(r0, piece, from);
    MoveKeepsBit(r0, piece, from);
    CaptureKeepsBit(r1, captured, sq);
  }

  lemma MoveKeepsBit(r0: bv8, piece: int, from: int)
    ensures var r := RightsAfterMove(r0, piece, from);
      && (r & WK_CASTLE != 0 ==> r0 & WK_CASTLE != 0 && piece != WK && !(piece == WR && from == SQ_H1))
      && (r & WQ_CASTLE != 0 ==> r0 & WQ_CASTLE != 0 && piece != WK && !(piece == WR && from == SQ_A1))
      && (r & BK_CASTLE != 0 ==> r0 & BK_CASTLE != 0 && piece != BK && !(piece == BR && from == SQ_H8))
      && (r & BQ_CASTLE != 0 ==> r0 & BQ_CASTLE != 0 && piece != BK && !(piece == BR && from == SQ_A8))
  {
    var c := MoveMask(piece, from);
    ClearKeeps(r0, c);
    assert RightsAfterMove(r0, piece, from) == r0 & !c;
  }

  lemma CaptureKeepsBit(r1: bv8, captured: int, sq: int)
    ensures var r := RightsAfterCapture(r1, captured, sq);
      && (r & WK_CASTLE != 0 ==> r1 & WK_CASTLE != 0 && !(captured == WR && sq == SQ_H1))
      && (r & WQ_CASTLE != 0 ==> r1 & WQ_CASTLE != 0 && !(captured == WR && sq == SQ_A1))
      && (r & BK_CASTLE != 0 ==> r1 & BK_CASTLE != 0 && !(captured == BR && sq == SQ_H8))
      && (r & BQ_CASTLE != 0 ==> r1 & BQ_CASTLE != 0 && !(captured == BR && sq == SQ_A8))
  {
    var c := CaptureMask(captured, sq);
    ClearKeeps(r1, c);
    assert RightsAfterCapture(r1, captured, sq) == r1 & !c;
  }

  /** A corner whose right survives the move still holds its rook. */
  lemma CornerKept(s: Snapshot, m: Move, corner: int, rook: int)
    requires Consistent(s) && WellFormedMove(s, m)
    requires corner in {SQ_H1, SQ_A1, SQ_H8, SQ_A8}
    requires rook == (if corner < 8 then WR else BR)
    requires s.board[corner] == rook
    requires m.from != corner
    requires !(IsCapture(m) && !IsEnPassant(m) && m.to == corner)
    requires !(IsCastling(m) && m.piece == (if corner < 8 then WK else BK))
    ensures AppliedBoard(s.board, m)[corner] == rook
  {
    var b := s.board;
    if IsEnPassant(m) {
      assert m.to != corner by {
        assert m.to == s.epSquare;
      }
    }
    assert MovedBoard(b, m)[corner] == rook;
  }

  lemma RookRightsKept(s: Snapshot, m: Move)
    requires Consistent(s) && WellFormedMove(s, m)
    ensures RookRights(Apply(s, m))
  {
    var a := Apply(s, m);
    var captured := CapturedPieceOf(s.board, m);
    RightKept(s.castlingRights, m.piece, m.from, captured, CapturedSquare(m));
    if a.castlingRights & WK_CASTLE != 0 {
      CornerKept(s, m, SQ_H1, WR);
    }
    if a.castlingRights & WQ_CASTLE != 0 {
      CornerKept(s, m, SQ_A1, WR);
    }
    if a.castlingRights & BK_CASTLE != 0 {
      CornerKept(s, m, SQ_H8, BR);
    }
    if a.castlingRights & BQ_CASTLE != 0 {
      CornerKept(s, m, SQ_A8, BR);
    }
  }

  /** The board after a well-formed move still holds only piece codes. */
  lemma CodesKept(s: Snapshot, m: Move)
    requires Consistent(s) && WellFormedMove(s, m)
    ensures BoardCodes(AppliedBoard(s.board, m))
  {
    assert IsPieceCode(PlacedPiece(m));
    assert BoardCodes(MovedBoard(s.board, m));
  }

  /** After a pawn's double step the skipped square is empty. */
  lemma EpSquareEmpty(s: Snapshot, m: Move)
    requires Consistent(s) && WellFormedMove(s, m)
    ensures var a := Apply(s, m); a.epSquare != -1 ==> a.board[a.epSquare] == EMPTY
  {
    if IsDoublePawnPush(m) {
      var mid := (m.from + m.to) / 2;
      assert mid != m.from && mid != m.to;
      assert MovedBoard(s.board, m)[mid] == EMPTY;
    }
  }

  lemma {:induction false} ApplyKeepsConsistent(s: Snapshot, m: Move)
    requires Consistent(s) && WellFormedMove(s, m)
    ensures Consistent(Apply(s, m))
  {
    RookRightsKept(s, m);
    CodesKept(s, m);
    EpSquareEmpty(s, m);
  }

  /**
   * `makeMove` keeps a consistent position consistent, whether it accepts
   * the move or rejects and undoes it.
   */
  lemma {:induction false} MakeKeepsConsistent(s: Snapshot, m: Move)
    requires Consistent(s) && WellFormedMove(s, m)
    ensures Consistent(MakeResult(s, m).pos)
  {
    ApplyKeepsConsistent(s, m);
    UndoApply(s, m);
  }

  /**
   * The start position is consistent. (A default-constructed position is
   * not: it holds all four rights on an empty board.)
   */
  lemma {:induction false} InitialConsistent()
    ensures Consistent(StartPosition())
    ensures !Consistent(DefaultPosition())
  {
    var s := StartPosition();
    assert s.board[SQ_H1] == WR && s.board[SQ_A1] == WR;
    assert s.board[SQ_H8] == BR && s.board[SQ_A8] == BR;
    assert BoardCodes(s.board) by {
      forall i | 0 <= i < 128 ensures IsPieceCode(s.board[i]) {
        if 112 <= i < 120 {
          assert 0 <= i - 112 < 8;
        }
      }
    }
  }
}
