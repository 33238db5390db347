/**
 * The `Position` class of src/position.h and src/position.cpp: a 128-cell
 * board array, scalar fields and a stack of undo records, all updated in
 * place. Each method is proved to compute what the functions of module
 * Rules say, on the snapshot `Model()` of the object.
 */
module Positions {
  import opened Types
  import opened Moves
  import opened Squares
  import opened Rules

  class Position {
    var board: array<int>
    var sideToMove: Color
    var castlingRights: bv8
    var epSquare: int
    var halfmoveClock: int
    var fullmoveNumber: int
    var stateStack: seq<State>

    /** The object's content as a value. */
    function Model(): Snapshot
      reads this, board
    {
      Snapshot(board[..], sideToMove, castlingRights, epSquare, halfmoveClock,
               fullmoveNumber, stateStack)
    }

    ghost predicate Valid()
      reads this
      ensures Valid() ==> Shaped(Model())
    {
      board.Length == 128 && ValidEp(epSquare) && StackShaped(stateStack)
    }

    /** `Position()`: an empty board and the member defaults (position.h:22-26, position.cpp:22-24). */
    constructor ()
      ensures Valid() && fresh(board)
      ensures Model() == DefaultPosition()
    {
      board := new int[128](_ => EMPTY);
      sideToMove := White;
      castlingRights := ALL_CASTLE;
      epSquare := -1;
      halfmoveClock := 0;
      fullmoveNumber := 1;
      stateStack := [];
      new;
      assert board[..] == seq(128, _ => EMPTY);
    }

    /** `Position tmp = pos;`: a copy with its own board. */
    constructor Copy(src: Position)
      requires src.Valid()
      ensures Valid() && fresh(board)
      ensures Model() == src.Model()
    {
      var a := new int[128];
      forall i | 0 <= i < 128 {
        a[i] := src.board[i];
      }
      board := a;
      sideToMove := src.sideToMove;
      castlingRights := src.castlingRights;
      epSquare := src.epSquare;
      halfmoveClock := src.halfmoveClock;
      fullmoveNumber := src.fullmoveNumber;
      stateStack := src.stateStack;
      new;
      assert board[..] == src.board[..];
    }

    function PieceAt(sq: int): int
      reads this, board
      requires Valid() && 0 <= sq < 128
    {
      board[sq]
    }

    /** `setPiece`: one cell changes, every other cell and field stays. */
    method SetPiece(sq: int, p: int)
      requires Valid() && 0 <= sq < 128
      modifies board
      ensures Valid()
      ensures PieceAt(sq) == p
      ensures forall i :: 0 <= i < 128 && i != sq ==> PieceAt(i) == old(PieceAt(i))
    {
      board[sq] := p;
    }

    /** `setStartPosition` (position.cpp:110-149). */
    method SetStartPosition()
      requires Valid()
      modifies this, board
      ensures Valid() && board == old(board)
      ensures Model() == StartPosition()
    {
      forall i | 0 <= i < 128 {
        board[i] := EMPTY;
      }
      PlaceWhitePieces();
      PlacePawns(1, WP);
      PlaceBlackPieces();
      PlacePawns(6, BP);

      sideToMove := White;
      castlingRights := WK_CASTLE | WQ_CASTLE | BK_CASTLE | BQ_CASTLE;
      epSquare := -1;
      halfmoveClock := 0;
      fullmoveNumber := 1;
      stateStack := [];
      assert board[..] == seq(128, sq => StartPiece(sq));
    }

    /** The white back rank of position.cpp:115-122. */
    method PlaceWhitePieces()
      requires Valid()
      modifies board
      ensures forall i :: 0 <= i < 128 ==> board[i] == if i < 8 then StartPiece(i) else old(board[i])
    {
      board[MakeSquare(0, 0)] := WR;
      board[MakeSquare(1, 0)] := WN;
      board[MakeSquare(2, 0)] := WB;
      board[MakeSquare(3, 0)] := WQ;
      board[MakeSquare(4, 0)] := WK;
      board[MakeSquare(5, 0)] := WB;
      board[MakeSquare(6, 0)] := WN;
      board[MakeSquare(7, 0)] := WR;
    }

    /** The black back rank of position.cpp:129-136. */
    method PlaceBlackPieces()
      requires Valid()
      modifies board
      ensures forall i :: 0 <= i < 128 ==> board[i] == if 112 <= i < 120 then StartPiece(i) else old(board[i])
    {
      board[MakeSquare(0, 7)] := BR;
      board[MakeSquare(1, 7)] := BN;
      board[MakeSquare(2, 7)] := BB;
      board[MakeSquare(3, 7)] := BQ;
      board[MakeSquare(4, 7)] := BK;
      board[MakeSquare(5, 7)] := BB;
      board[MakeSquare(6, 7)] := BN;
      board[MakeSquare(7, 7)] := BR;
    }

    /** The pawn loops of position.cpp:124-126 and 138-140: `p` on every file of `rank`. */
    method PlacePawns(rank: int, p: int)
      requires Valid() && 0 <= rank < 8
      modifies board
      ensures forall i :: 0 <= i < 128 ==>
        board[i] == if 16 * rank <= i < 16 * rank + 8 then p else old(board[i])
    {
      for file := 0 to 8
        invariant forall i :: 0 <= i < 128 ==>
          board[i] == if 16 * rank <= i < 16 * rank + file then p else old(board[i])
      {
        board[MakeSquare(file, rank)] := p;
      }
    }

    /**
     * `isSquareAttacked(sq, attacker)`, declared at position.h:54 and used by the
     * castling generator but not defined in the source: the attack test of
     * `inCheck` generalised from the king's square to any square.
     */
    method IsSquareAttacked(sq: int, attacker: Color) returns (r: bool)
      requires Valid() && IsOnBoard(sq)
      ensures r == Attacked(board[..], sq, attacker)
    {
      // Pawn attacks
      r := PawnAttack(sq, attacker);
      if r { return; }

      // Knight attacks
      r := StepAttack(sq, attacker, KnightOffsets, WN);
      if r { return; }

      // Sliding bishops / queens (diagonal)
      r := SliderAttack(sq, attacker, BishopOffsets, WB);
      if r { return; }

      // Sliding rooks / queens (orthogonal)
      r := SliderAttack(sq, attacker, RookOffsets, WR);
      if r { return; }

      // King adjacency
      r := StepAttack(sq, attacker, KingOffsets, WK);
    }

    /** The pawn lines of position.cpp:43-57, looking on the side the pawns capture from. */
    method PawnAttack(sq: int, attacker: Color) returns (r: bool)
      requires Valid() && IsOnBoard(sq)
      ensures r == PawnHit(board[..], sq, attacker)
    {
      if attacker == White {
        var sq1 := sq - 15;
        var sq2 := sq - 17;
        if IsOnBoard(sq1) && board[sq1] == WP { return true; }
        if IsOnBoard(sq2) && board[sq2] == WP { return true; }
      } else {
        var sq1 := sq + 17;
        var sq2 := sq + 15;
        if IsOnBoard(sq1) && board[sq1] == BP { return true; }
        if IsOnBoard(sq2) && board[sq2] == BP { return true; }
      }
      return false;
    }

    /** The knight and king loops of position.cpp:59-67 and 97-105: one step per offset. */
    method StepAttack(sq: int, attacker: Color, offs: seq<int>, kind: int) returns (r: bool)
      requires Valid() && IsOnBoard(sq)
      ensures r == AnyStepHit(board[..], sq, offs, 0, attacker, kind)
    {
      ghost var b := board[..];
      var i := 0;
      while i < |offs|
        invariant 0 <= i <= |offs|
        invariant AnyStepHit(b, sq, offs, 0, attacker, kind)
               == AnyStepHit(b, sq, offs, i, attacker, kind)
      {
        var t := sq + offs[i];
        if IsOnBoard(t) {
          var p := board[t];
          if p != EMPTY && PieceColor(p) == attacker && PieceType(p) == kind {
            return true;
          }
        }
        i := i + 1;
      }
      return false;
    }

    /** The ray loops of position.cpp:69-95 for one family of directions. */
    method SliderAttack(sq: int, attacker: Color, dirs: seq<int>, kind: int) returns (r: bool)
      requires Valid() && IsOnBoard(sq) && NonZero(dirs)
      ensures r == AnyRayHit(board[..], sq, dirs, 0, attacker, kind, WQ)
    {
      ghost var b := board[..];
      var d := 0;
      while d < |dirs|
        invariant 0 <= d <= |dirs|
        invariant AnyRayHit(b, sq, dirs, 0, attacker, kind, WQ)
               == AnyRayHit(b, sq, dirs, d, attacker, kind, WQ)
      {
        var off := dirs[d];
        var t := sq;
        while true
          invariant 0 <= t < 128
          invariant RayHit(b, sq, off, attacker, kind, WQ) == RayHit(b, t, off, attacker, kind, WQ)
          decreases if off > 0 then 128 - t else t
        {
          t := t + off;
          if !IsOnBoard(t) { break; }
          var p := board[t];
          if p == EMPTY { continue; }
          if PieceColor(p) == attacker && (PieceType(p) == kind || PieceType(p) == WQ) {
            return true;
          }
          break;
        }
        d := d + 1;
      }
      return false;
    }

    /**
     * `inCheck(c)` (position.cpp:26-108): find c's king by scanning the board
     * in square order, then test whether the other colour attacks it.
     */
    method InCheck(c: Color) returns (r: bool)
      requires Valid()
      ensures r == InCheckOf(board[..], c)
    {
      var kingPiece := if c == White then WK else BK;
      var kingSq := FindPiece(kingPiece);
      if kingSq == -1 {
        return false;
      }
      r := IsSquareAttacked(kingSq, Opposite(c));
    }

    /** The king scan of position.cpp:28-37: the first cell holding `kp`, or -1. */
    method FindPiece(kp: int) returns (k: int)
      requires Valid()
      ensures k == KingSquareFrom(board[..], kp, 0)
    {
      ghost var b := board[..];
      k := -1;
      var sq := 0;
      while sq < 128
        invariant 0 <= sq && sq % 16 <= 8
        invariant KingSquareFrom(b, kp, 0) == KingSquareFrom(b, kp, sq)
        decreases 128 - sq
      {
        if !IsOnBoard(sq) {
          KingScanSkip(b, kp, sq);
          sq := sq + 8;
          continue;
        }
        if board[sq] == kp {
          k := sq;
          return;
        }
        KingScanStep(b, kp, sq);
        sq := sq + 1;
      }
    }

    /**
     * `makeMove` (position.cpp:151-283): push an undo record, apply the move,
     * and if the side that moved is left in check, undo it and return false.
     */
    method MakeMove(m: Move) returns (ok: bool)
      requires Valid() && MoveShaped(m)
      modifies this, board
      ensures Valid() && board == old(board)
      ensures MakeOutcome(ok, Model()) == MakeResult(old(Model()), m)
    {
      ApplyMove(m);
      var us := if sideToMove == White then Black else White;
      var check := InCheck(us);
      if check {
        UndoMove();
        return false;
      }
      return true;
    }

    /** position.cpp:152-273: everything `makeMove` does before its legality check. */
    method ApplyMove(m: Move)
      requires Valid() && MoveShaped(m)
      modifies this, board
      ensures Valid() && board == old(board)
      ensures Model() == Apply(old(Model()), m)
    {
      ghost var s0 := Model();
      ghost var a := Apply(s0, m);
      var capturedPiece, capturedSq := CaptureOf(m);

      // Save state for undoMove
      stateStack := stateStack
        + [State(castlingRights, epSquare, halfmoveClock, fullmoveNumber, capturedPiece, m)];
      assert stateStack == a.stateStack;

      UpdateClocks(m);
      epSquare := -1;

      MovePieces(m, capturedSq);
      UpdateRights(m.piece, m.from, capturedPiece, capturedSq);
      if IsCastling(m) {
        PlaceCastlingRook(m);
      }
      assert board[..] == a.board;

      SetEpSquare(m);
      sideToMove := if sideToMove == White then Black else White;
      assert board[..] == a.board;
    }

    /** position.cpp:263-269: a pawn double step leaves the skipped square as the en-passant square. */
    method SetEpSquare(m: Move)
      requires MoveShaped(m) && epSquare == -1
      modifies this
      ensures epSquare == EpAfter(m) && ValidEp(epSquare)
      ensures board == old(board) && sideToMove == old(sideToMove) && castlingRights == old(castlingRights)
      ensures halfmoveClock == old(halfmoveClock) && fullmoveNumber == old(fullmoveNumber)
      ensures stateStack == old(stateStack)
    {
      if PieceType(m.piece) == WP {
        var diff := m.to - m.from;
        if diff == 32 || diff == -32 {
          epSquare := (m.from + m.to) / 2;
        }
      }
    }

    /** The piece a move takes and the square it stands on (position.cpp:155-170). */
    method CaptureOf(m: Move) returns (capturedPiece: int, capturedSq: int)
      requires Valid() && MoveShaped(m)
      ensures capturedPiece == CapturedPieceOf(board[..], m)
      ensures capturedSq == CapturedSquare(m)
    {
      capturedPiece := EMPTY;
      capturedSq := m.to;
      if IsEnPassant(m) {
        capturedSq := if PieceColor(m.piece) == White then m.to - 16 else m.to + 16;
        capturedPiece := board[capturedSq];
      } else if IsCapture(m) {
        capturedPiece := board[m.to];
      }
    }

    /** The clocks of position.cpp:180-190: the fifty-move counter and the move number. */
    method UpdateClocks(m: Move)
      modifies this
      ensures halfmoveClock == if PieceType(m.piece) == WP || IsCapture(m) then 0 else old(halfmoveClock) + 1
      ensures fullmoveNumber == if old(sideToMove) == Black then old(fullmoveNumber) + 1 else old(fullmoveNumber)
      ensures board == old(board) && sideToMove == old(sideToMove) && castlingRights == old(castlingRights)
      ensures epSquare == old(epSquare) && stateStack == old(stateStack)
    {
      if PieceType(m.piece) == WP || IsCapture(m) {
        halfmoveClock := 0;
      } else {
        halfmoveClock := halfmoveClock + 1;
      }
      if sideToMove == Black {
        fullmoveNumber := fullmoveNumber + 1;
      }
    }

    /** The castling-right updates of position.cpp:211-238. */
    method UpdateRights(piece: int, from: int, capturedPiece: int, capturedSq: int)
      modifies this
      ensures castlingRights
           == RightsAfterCapture(RightsAfterMove(old(castlingRights), piece, from), capturedPiece, capturedSq)
      ensures board == old(board) && sideToMove == old(sideToMove) && epSquare == old(epSquare)
      ensures halfmoveClock == old(halfmoveClock) && fullmoveNumber == old(fullmoveNumber)
      ensures stateStack == old(stateStack)
    {
      castlingRights := RightsAfterMove(castlingRights, piece, from);
      castlingRights := RightsAfterCapture(castlingRights, capturedPiece, capturedSq);
    }

    /** The capture and the piece's own move, position.cpp:194-207. */
    method MovePieces(m: Move, capturedSq: int)
      requires Valid() && MoveShaped(m) && capturedSq == CapturedSquare(m)
      modifies board
      ensures board[..] == MovedBoard(old(board[..]), m)
    {
      if IsEnPassant(m) {
        board[capturedSq] := EMPTY;
      } else if IsCapture(m) {
        board[m.to] := EMPTY;
      }
      board[m.from] := EMPTY;
      var placedPiece := m.piece;
      if IsPromotion(m) {
        placedPiece := m.promotion;
      }
      board[m.to] := placedPiece;
    }

    /** The rook's jump when a king castles, position.cpp:241-262. */
    method PlaceCastlingRook(m: Move)
      requires Valid()
      modifies board
      ensures board[..] == CastleRook(old(board[..]), m)
    {
      if m.piece == WK {
        if m.to == SQ_G1 {
          board[SQ_F1] := WR;
          board[SQ_H1] := EMPTY;
        } else if m.to == SQ_C1 {
          board[SQ_D1] := WR;
          board[SQ_A1] := EMPTY;
        }
      } else if m.piece == BK {
        if m.to == SQ_G8 {
          board[SQ_F8] := BR;
          board[SQ_H8] := EMPTY;
        } else if m.to == SQ_C8 {
          board[SQ_D8] := BR;
          board[SQ_A8] := EMPTY;
        }
      }
    }

    /** The rook's way back when castling is undone, position.cpp:311-330 with h1 for white king-side. */
    method ReturnCastlingRook(m: Move)
      requires Valid()
      modifies board
      ensures board[..] == UncastleRook(old(board[..]), m)
    {
      if m.piece == WK {
        if m.to == SQ_G1 {
          board[SQ_H1] := WR;
          board[SQ_F1] := EMPTY;
        } else if m.to == SQ_C1 {
          board[SQ_A1] := WR;
          board[SQ_D1] := EMPTY;
        }
      } else if m.piece == BK {
        if m.to == SQ_G8 {
          board[SQ_H8] := BR;
          board[SQ_F8] := EMPTY;
        } else if m.to == SQ_C8 {
          board[SQ_A8] := BR;
          board[SQ_D8] := EMPTY;
        }
      }
    }

    /** The board part of `undoMove`, position.cpp:306-345. */
    method UndoBoard(st: State)
      requires Valid() && MoveShaped(st.move)
      modifies board
      ensures board[..] == UndoneBoard(old(board[..]), st)
    {
      var m := st.move;
      if IsCastling(m) {
        board[m.from] := m.piece;
        board[m.to] := EMPTY;
        ReturnCastlingRook(m);
      } else {
        board[m.to] := EMPTY;
        board[m.from] := m.piece;
        if IsEnPassant(m) {
          var capturedSq := if PieceColor(m.piece) == White then m.to - 16 else m.to + 16;
          board[capturedSq] := st.capturedPiece;
        } else if IsCapture(m) {
          board[m.to] := st.capturedPiece;
        }
      }
    }

    /**
     * `undoMove()` in its parameterless form (position.h:52): the move is
     * taken from the top undo record. With an empty stack it does nothing.
     */
    method UndoMove()
      requires Valid()
      modifies this, board
      ensures Valid() && board == old(board)
      ensures Model() == Undo(old(Model()))
    {
      if |stateStack| == 0 {
        return;
      }
      ghost var s0 := Model();
      var st := stateStack[|stateStack| - 1];
      assert RecordShaped(st);
      stateStack := stateStack[..|stateStack| - 1];

      sideToMove := if sideToMove == White then Black else White;
      castlingRights := st.castlingRights;
      epSquare := st.epSquare;
      halfmoveClock := st.halfmoveClock;
      fullmoveNumber := st.fullmoveNumber;

      UndoBoard(st);
      assert Model() == Undo(s0);
    }
  }
}
