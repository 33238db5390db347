/**
 * The position state machine of src/position.cpp, stated on values.
 *
 * A `Snapshot` is everything a `Position` object holds: the 128 cells, the
 * side to move, the castling-right bits, the en-passant square, the two
 * clocks and the stack of undo records. The functions here say what
 * `makeMove`, `undoMove`, `inCheck` and `isSquareAttacked` compute; the class
 * in positions.dfy is proved to do exactly this in place.
 *
 * Where the source is evidently wrong the functions here follow the evident
 * intent, and an `...AsWritten` function beside each one models the code as
 * it stands, with a lemma exhibiting an input on which the two differ:
 *   - the pawn test of `inCheck` looks on the wrong side of the king
 *     (position.cpp:45-56), and two of its four lines subscript the function
 *     `isOnBoard` instead of calling it (they do not compile);
 *   - the diagonal ray of `inCheck` never advances (`sq + off;`, position.cpp:73);
 *   - capturing a black rook compares its square with h1 where h8 is meant
 *     (position.cpp:237);
 *   - undoing white king-side castling puts the rook on g1, not h1
 *     (position.cpp:313).
 */
module Rules {
  import opened Types
  import opened Moves
  import opened Squares

  /** One undo record (`Position::State`). */
  datatype State = State(castlingRights: bv8, epSquare: int, halfmoveClock: int,
                         fullmoveNumber: int, capturedPiece: int, move: Move)

  /** The whole content of a `Position` object. */
  datatype Snapshot = Snapshot(board: seq<int>, sideToMove: Color, castlingRights: bv8,
                               epSquare: int, halfmoveClock: int, fullmoveNumber: int,
                               stateStack: seq<State>)

  const MAX_PIECE_VALUE := 900

  predicate ValidEp(ep: int) {
    ep == -1 || IsOnBoard(ep)
  }

  /** The square of the pawn an en-passant capture removes: one rank behind `to`, seen from the mover. */
  function EpCaptureSquare(m: Move): int {
    if PieceColor(m.piece) == White then m.to - 16 else m.to + 16
  }

  /** The squares `makeMove` and `undoMove` index are cells of the board. */
  predicate MoveShaped(m: Move) {
    IsOnBoard(m.from) && IsOnBoard(m.to)
    && (IsEnPassant(m) ==> IsOnBoard(EpCaptureSquare(m)))
  }

  predicate RecordShaped(st: State) {
    ValidEp(st.epSquare) && MoveShaped(st.move)
  }

  predicate StackShaped(stack: seq<State>) {
    forall i :: 0 <= i < |stack| ==> RecordShaped(stack[i])
  }

  /** The facts every array access of the source relies on. */
  predicate Shaped(s: Snapshot) {
    && |s.board| == 128
    && ValidEp(s.epSquare)
    && StackShaped(s.stateStack)
  }

  // ---------------------------------------------------------------------------
  // Construction

  /** A default-constructed `Position`: an empty board and the member defaults. */
  function DefaultPosition(): (s: Snapshot)
    ensures Shaped(s)
  {
    Snapshot(seq(128, _ => EMPTY), White, ALL_CASTLE, -1, 0, 1, [])
  }

  /** The first rank of the initial layout, files a..h. */
  const BackRank: seq<int> := [WR, WN, WB, WQ, WK, WB, WN, WR]

  /** The piece `setStartPosition` puts on cell `sq`. */
  function StartPiece(sq: int): int {
    if 0 <= sq < 8 then BackRank[sq]                   // rank 1
    else if 16 <= sq < 24 then WP                       // rank 2
    else if 96 <= sq < 104 then BP                      // rank 7
    else if 112 <= sq < 120 then BackRank[sq - 112] + (BP - WP)  // rank 8
    else EMPTY
  }

  function StartPosition(): (s: Snapshot)
    ensures Shaped(s)
  {
    Snapshot(seq(128, sq => StartPiece(sq)), White, ALL_CASTLE, -1, 0, 1, [])
  }

  /**
   * The start layout: the standard back ranks and pawn ranks on ranks 0, 1,
   * 6 and 7, the black pieces mirroring the white ones file by file.
   */
  lemma StartLayout()
    ensures forall f :: 0 <= f < 8 ==>
      && StartPosition().board[MakeSquare(f, 0)] == BackRank[f]
      && StartPosition().board[MakeSquare(f, 1)] == WP
      && StartPosition().board[MakeSquare(f, 6)] == BP
      && StartPosition().board[MakeSquare(f, 7)] == Colored(BackRank[f], Black)
    ensures StartPosition().board[SQ_E1] == WK && StartPosition().board[SQ_E8] == BK
  {
    forall f | 0 <= f < 8
      ensures StartPosition().board[MakeSquare(f, 7)] == Colored(BackRank[f], Black)
    {
      assert MakeSquare(f, 7) - 112 == f;
    }
  }

  /** Every other cell of the start position is empty, the padding included. */
  lemma StartElsewhereEmpty(sq: int)
    requires 0 <= sq < 128 && StartPosition().board[sq] != EMPTY
    ensures IsOnBoard(sq) && RankOf(sq) in {0, 1, 6, 7}
  {
  }

  // ---------------------------------------------------------------------------
  // Attack test

  /** A single offset step from `sq` lands on a piece of colour `attacker` and kind `kind`. */
  predicate StepHit(b: seq<int>, sq: int, off: int, attacker: Color, kind: int)
    requires |b| == 128
  {
    var t := sq + off;
    IsOnBoard(t) && b[t] != EMPTY && PieceColor(b[t]) == attacker && PieceType(b[t]) == kind
  }

  /** Some step `offs[j]`, j >= i, hits. */
  predicate AnyStepHit(b: seq<int>, sq: int, offs: seq<int>, i: nat, attacker: Color, kind: int)
    requires |b| == 128 && i <= |offs|
    decreases |offs| - i
  {
    i < |offs| && (StepHit(b, sq, offs[i], attacker, kind) || AnyStepHit(b, sq, offs, i + 1, attacker, kind))
  }

  predicate NonZero(offs: seq<int>) {
    forall j :: 0 <= j < |offs| ==> offs[j] != 0
  }

  /**
   * The ray from `sq` (exclusive) in direction `off` meets, as its first
   * occupied square, a piece of colour `attacker` and kind `k1` or `k2`.
   */
  predicate RayHit(b: seq<int>, sq: int, off: int, attacker: Color, k1: int, k2: int)
    requires |b| == 128 && 0 <= sq < 128 && off != 0
    decreases if off > 0 then 128 - sq else sq
  {
    var t := sq + off;
    if !IsOnBoard(t) then false
    else if b[t] == EMPTY then RayHit(b, t, off, attacker, k1, k2)
    else PieceColor(b[t]) == attacker && (PieceType(b[t]) == k1 || PieceType(b[t]) == k2)
  }

  predicate AnyRayHit(b: seq<int>, sq: int, offs: seq<int>, i: nat, attacker: Color, k1: int, k2: int)
    requires |b| == 128 && 0 <= sq < 128 && i <= |offs| && NonZero(offs)
    decreases |offs| - i
  {
    i < |offs| && (RayHit(b, sq, offs[i], attacker, k1, k2) || AnyRayHit(b, sq, offs, i + 1, attacker, k1, k2))
  }

  predicate PieceOn(b: seq<int>, t: int, p: int)
    requires |b| == 128
  {
    IsOnBoard(t) && b[t] == p
  }

  /**
   * A pawn of colour `attacker` attacks `sq`. White pawns capture upward (+15, +17),
   * so the attacking white pawn stands on sq-15 or sq-17; black pawns capture
   * downward, so it stands on sq+15 or sq+17.
   */
  predicate PawnHit(b: seq<int>, sq: int, attacker: Color)
    requires |b| == 128
  {
    if attacker == White then PieceOn(b, sq - 15, WP) || PieceOn(b, sq - 17, WP)
    else PieceOn(b, sq + 17, BP) || PieceOn(b, sq + 15, BP)
  }

  /** The pawn test as position.cpp:45-56 writes it (with `isOnBoard` called). */
  predicate PawnHitAsWritten(b: seq<int>, sq: int, attacker: Color)
    requires |b| == 128
  {
    if attacker == White then PieceOn(b, sq + 15, WP) || PieceOn(b, sq + 17, WP)
    else PieceOn(b, sq - 17, BP) || PieceOn(b, sq - 15, BP)
  }

  /** `isSquareAttacked(sq, attacker)`: pawns, knights, diagonal and orthogonal sliders, king. */
  predicate Attacked(b: seq<int>, sq: int, attacker: Color)
    requires |b| == 128 && IsOnBoard(sq)
  {
    || PawnHit(b, sq, attacker)
    || AnyStepHit(b, sq, KnightOffsets, 0, attacker, WN)
    || AnyRayHit(b, sq, BishopOffsets, 0, attacker, WB, WQ)
    || AnyRayHit(b, sq, RookOffsets, 0, attacker, WR, WQ)
    || AnyStepHit(b, sq, KingOffsets, 0, attacker, WK)
  }

  /**
   * The diagonal loop of position.cpp:70-81 as written: `sq` never moves, so
   * the only cell it inspects is the king's own. (On an empty start cell the
   * loop would never end; `inCheck` only starts it on the king.)
   */
  predicate DiagonalRayAsWritten(b: seq<int>, sq: int, attacker: Color)
    requires |b| == 128 && 0 <= sq < 128 && b[sq] != EMPTY
  {
    PieceColor(b[sq]) == attacker && (PieceType(b[sq]) == WB || PieceType(b[sq]) == WQ)
  }

  function KingPiece(c: Color): int {
    if c == White then WK else BK
  }

  /**
   * The first on-board cell at or after `sq` holding `kp`, in scan order, or
   * -1. The scan skips the padding half of a rank in one jump, as
   * `sq += 7; continue;` does.
   */
  function KingSquareFrom(b: seq<int>, kp: int, sq: int): (k: int)
    requires |b| == 128 && 0 <= sq && sq % 16 <= 8
    ensures k == -1 || (sq <= k && IsOnBoard(k))
    decreases 128 - sq
  {
    if sq >= 128 then -1
    else if !IsOnBoard(sq) then KingSquareFrom(b, kp, sq + 8)
    else if b[sq] == kp then sq
    else KingSquareFrom(b, kp, sq + 1)
  }

  /**
   * The scan finds a cell holding `kp` and no earlier on-board cell holds it;
   * it reports -1 exactly when no on-board cell from `sq` on holds it.
   */
  lemma {:induction false} KingSquareFromFinds(b: seq<int>, kp: int, sq: int)
    requires |b| == 128 && 0 <= sq && sq % 16 <= 8
    ensures var k := KingSquareFrom(b, kp, sq);
      && (k != -1 ==> b[k] == kp)
      && forall t :: sq <= t < 128 && IsOnBoard(t) && (k == -1 || t < k) ==> b[t] != kp
    decreases 128 - sq
  {
    if sq >= 128 {
    } else if !IsOnBoard(sq) {
      var r := sq / 16;
      assert sq == 16 * r + 8 && sq + 8 == 16 * (r + 1);
      KingSquareFromFinds(b, kp, sq + 8);
      forall t | sq <= t < sq + 8
        ensures !IsOnBoard(t)
      {
        assert t / 16 == r;
      }
    } else if b[sq] == kp {
    } else {
      KingSquareFromFinds(b, kp, sq + 1);
    }
  }

  /** The scan jumps over the padding half of a rank. */
  lemma KingScanSkip(b: seq<int>, kp: int, sq: int)
    requires |b| == 128 && 0 <= sq < 128 && sq % 16 <= 8 && !IsOnBoard(sq)
    ensures (sq + 8) % 16 == 0
    ensures KingSquareFrom(b, kp, sq) == KingSquareFrom(b, kp, sq + 8)
  {
    var r := sq / 16;
    assert sq == 16 * r + 8 && sq + 8 == 16 * (r + 1);
  }

  /** The scan moves past an on-board cell that does not hold `kp`. */
  lemma KingScanStep(b: seq<int>, kp: int, sq: int)
    requires |b| == 128 && IsOnBoard(sq) && b[sq] != kp
    ensures (sq + 1) % 16 <= 8
    ensures KingSquareFrom(b, kp, sq) == KingSquareFrom(b, kp, sq + 1)
  {
  }

  function KingSquare(b: seq<int>, c: Color): (k: int)
    requires |b| == 128
  {
    KingSquareFrom(b, KingPiece(c), 0)
  }

  /** `inCheck(c)`: c's king is on the board and attacked by the other colour. */
  predicate InCheckOf(b: seq<int>, c: Color)
    requires |b| == 128
  {
    var k := KingSquare(b, c);
    k != -1 && Attacked(b, k, Opposite(c))
  }

  /** A position without c's king is never in check. */
  lemma NoKingNoCheck(b: seq<int>, c: Color)
    requires |b| == 128
    requires forall t :: 0 <= t < 128 && IsOnBoard(t) ==> b[t] != KingPiece(c)
    ensures !InCheckOf(b, c)
  {
    KingSquareFromFinds(b, KingPiece(c), 0);
  }

  // ---------------------------------------------------------------------------
  // makeMove

  /** The castling rights after the moving piece leaves `from` (position.cpp:211-228). */
  function RightsAfterMove(rights: bv8, piece: int, from: int): bv8 {
    if piece == WK then rights & !(WK_CASTLE | WQ_CASTLE)
    else if piece == BK then rights & !(BK_CASTLE | BQ_CASTLE)
    else if piece == WR then
      (if from == SQ_A1 then rights & !WQ_CASTLE
       else if from == SQ_H1 then rights & !WK_CASTLE
       else rights)
    else if piece == BR then
      (if from == SQ_A8 then rights & !BQ_CASTLE
       else if from == SQ_H8 then rights & !BK_CASTLE
       else rights)
    else rights
  }

  /** The castling rights after `captured` is taken on `sq`, with h8 for the black king-side rook. */
  function RightsAfterCapture(rights: bv8, captured: int, sq: int): bv8 {
    if captured == WR then
      (if sq == SQ_A1 then rights & !WQ_CASTLE
       else if sq == SQ_H1 then rights & !WK_CASTLE
       else rights)
    else if captured == BR then
      (if sq == SQ_A8 then rights & !BQ_CASTLE
       else if sq == SQ_H8 then rights & !BK_CASTLE
       else rights)
    else rights
  }

  /** position.cpp:230-238 as written: the black king-side rook is looked for on h1. */
  function RightsAfterCaptureAsWritten(rights: bv8, captured: int, sq: int): bv8 {
    if captured == WR then
      (if sq == SQ_A1 then rights & !WQ_CASTLE
       else if sq == SQ_H1 then rights & !WK_CASTLE
       else rights)
    else if captured == BR then
      (if sq == SQ_A8 then rights & !BQ_CASTLE
       else if sq == SQ_H1 then rights & !BK_CASTLE
       else rights)
    else rights
  }

  /** The piece that lands on `to`: the promotion piece when flagged, else the mover. */
  function PlacedPiece(m: Move): int {
    if IsPromotion(m) then m.promotion else m.piece
  }

  /** The castling rook's jump when a king castles (position.cpp:241-262). */
  function CastleRook(b: seq<int>, m: Move): (r: seq<int>)
    requires |b| == 128
    ensures |r| == 128
  {
    if m.piece == WK then
      (if m.to == SQ_G1 then b[SQ_F1 := WR][SQ_H1 := EMPTY]
       else if m.to == SQ_C1 then b[SQ_D1 := WR][SQ_A1 := EMPTY]
       else b)
    else if m.piece == BK then
      (if m.to == SQ_G8 then b[SQ_F8 := BR][SQ_H8 := EMPTY]
       else if m.to == SQ_C8 then b[SQ_D8 := BR][SQ_A8 := EMPTY]
       else b)
    else b
  }

  /** The rook's way back when castling is undone: to h1, a1, h8 or a8. */
  function UncastleRook(b: seq<int>, m: Move): (r: seq<int>)
    requires |b| == 128
    ensures |r| == 128
  {
    if m.piece == WK then
      (if m.to == SQ_G1 then b[SQ_H1 := WR][SQ_F1 := EMPTY]
       else if m.to == SQ_C1 then b[SQ_A1 := WR][SQ_D1 := EMPTY]
       else b)
    else if m.piece == BK then
      (if m.to == SQ_G8 then b[SQ_H8 := BR][SQ_F8 := EMPTY]
       else if m.to == SQ_C8 then b[SQ_A8 := BR][SQ_D8 := EMPTY]
       else b)
    else b
  }

  /** position.cpp:311-330 as written: white king-side castling puts the rook back on g1. */
  function UncastleRookAsWritten(b: seq<int>, m: Move): (r: seq<int>)
    requires |b| == 128
    ensures |r| == 128
  {
    if m.piece == WK then
      (if m.to == SQ_G1 then b[SQ_G1 := WR][SQ_F1 := EMPTY]
       else if m.to == SQ_C1 then b[SQ_A1 := WR][SQ_D1 := EMPTY]
       else b)
    else if m.piece == BK then
      (if m.to == SQ_G8 then b[SQ_H8 := BR][SQ_F8 := EMPTY]
       else if m.to == SQ_C8 then b[SQ_A8 := BR][SQ_D8 := EMPTY]
       else b)
    else b
  }

  /** The square whose piece a move removes: behind `to` for en passant, else `to`. */
  function CapturedSquare(m: Move): int {
    if IsEnPassant(m) then EpCaptureSquare(m) else m.to
  }

  function CapturedPieceOf(b: seq<int>, m: Move): int
    requires |b| == 128 && MoveShaped(m)
  {
    if IsEnPassant(m) then b[EpCaptureSquare(m)]
    else if IsCapture(m) then b[m.to]
    else EMPTY
  }

  /** The captured piece removed and the moving piece carried from `from` to `to` (position.cpp:194-207). */
  function MovedBoard(b: seq<int>, m: Move): (r: seq<int>)
    requires |b| == 128 && MoveShaped(m)
    ensures |r| == 128
  {
    var b1 := if IsEnPassant(m) then b[EpCaptureSquare(m) := EMPTY]
              else if IsCapture(m) then b[m.to := EMPTY]
              else b;
    b1[m.from := EMPTY][m.to := PlacedPiece(m)]
  }

  /** The board after the move, before the legality check (position.cpp:194-262). */
  function AppliedBoard(b: seq<int>, m: Move): (r: seq<int>)
    requires |b| == 128 && MoveShaped(m)
    ensures |r| == 128
  {
    var b2 := MovedBoard(b, m);
    if IsCastling(m) then CastleRook(b2, m) else b2
  }

  predicate IsDoublePawnPush(m: Move) {
    PieceType(m.piece) == WP && (m.to - m.from == 32 || m.to - m.from == -32)
  }

  /** The en-passant square after the move: the skipped square of a pawn double step, else none. */
  function EpAfter(m: Move): int {
    if IsDoublePawnPush(m) then (m.from + m.to) / 2 else -1
  }

  /**
   * The move applied, with its undo record pushed, before the legality
   * check: position.cpp:151-273.
   */
  function Apply(s: Snapshot, m: Move): (r: Snapshot)
    requires Shaped(s) && MoveShaped(m)
    ensures Shaped(r)
  {
    var captured := CapturedPieceOf(s.board, m);
    var st := State(s.castlingRights, s.epSquare, s.halfmoveClock, s.fullmoveNumber, captured, m);
    var rights := RightsAfterCapture(RightsAfterMove(s.castlingRights, m.piece, m.from),
                                     captured, CapturedSquare(m));
    Snapshot(
      AppliedBoard(s.board, m),
      Opposite(s.sideToMove),
      rights,
      EpAfter(m),
      if PieceType(m.piece) == WP || IsCapture(m) then 0 else s.halfmoveClock + 1,
      if s.sideToMove == Black then s.fullmoveNumber + 1 else s.fullmoveNumber,
      s.stateStack + [st])
  }

  /** The board with the last recorded move taken back (position.cpp:306-345). */
  function UndoneBoard(b: seq<int>, st: State): (r: seq<int>)
    requires |b| == 128 && MoveShaped(st.move)
    ensures |r| == 128
  {
    var m := st.move;
    if IsCastling(m) then UncastleRook(b[m.from := m.piece][m.to := EMPTY], m)
    else
      var b1 := b[m.to := EMPTY][m.from := m.piece];
      if IsEnPassant(m) then b1[EpCaptureSquare(m) := st.capturedPiece]
      else if IsCapture(m) then b1[m.to := st.capturedPiece]
      else b1
  }

  /**
   * `undoMove()`: pop the top record and reverse its move; with an empty
   * stack nothing happens.
   */
  function Undo(s: Snapshot): (r: Snapshot)
    requires Shaped(s)
    ensures Shaped(r)
    ensures |s.stateStack| == 0 ==> r == s
    ensures |s.stateStack| > 0 ==> r.stateStack == s.stateStack[..|s.stateStack| - 1]
  {
    if |s.stateStack| == 0 then s
    else
      var st := s.stateStack[|s.stateStack| - 1];
      Snapshot(UndoneBoard(s.board, st), Opposite(s.sideToMove), st.castlingRights,
               st.epSquare, st.halfmoveClock, st.fullmoveNumber,
               s.stateStack[..|s.stateStack| - 1])
  }

  datatype MakeOutcome = MakeOutcome(ok: bool, pos: Snapshot)

  /** The colour that moved in a position produced by `Apply`: the one before the flip. */
  function Mover(a: Snapshot): Color {
    Opposite(a.sideToMove)
  }

  /**
   * `makeMove(m)`: apply the move, and if the side that moved is then in
   * check, undo it and report false.
   */
  function MakeResult(s: Snapshot, m: Move): (r: MakeOutcome)
    requires Shaped(s) && MoveShaped(m)
    ensures Shaped(r.pos)
  {
    var a := Apply(s, m);
    if InCheckOf(a.board, Mover(a)) then MakeOutcome(false, Undo(a))
    else MakeOutcome(true, a)
  }

  predicate Accepts(s: Snapshot, m: Move)
    requires Shaped(s) && MoveShaped(m)
  {
    MakeResult(s, m).ok
  }

  // ---------------------------------------------------------------------------
  // Properties of makeMove and undoMove on all inputs

  /** The mover of an applied position is the side that was to move (for a real colour). */
  lemma MoverIsSideToMove(s: Snapshot, m: Move)
    requires Shaped(s) && MoveShaped(m) && s.sideToMove != NoColor
    ensures Mover(Apply(s, m)) == s.sideToMove
  {
  }

  /**
   * makeMove accepts exactly when the side that moved is not in check
   * afterwards; an accepted move pushes one record holding the prior rights,
   * en-passant square, clocks, the captured piece and the move, and a
   * rejected one leaves the stack depth unchanged.
   */
  lemma MakeResultStack(s: Snapshot, m: Move)
    requires Shaped(s) && MoveShaped(m)
    ensures var a := Apply(s, m);
      MakeResult(s, m).ok <==> !InCheckOf(a.board, Mover(a))
    ensures MakeResult(s, m).ok ==>
      var r := MakeResult(s, m).pos;
      && |r.stateStack| == |s.stateStack| + 1
      && r.stateStack[..|s.stateStack|] == s.stateStack
      && r.stateStack[|s.stateStack|]
         == State(s.castlingRights, s.epSquare, s.halfmoveClock, s.fullmoveNumber,
                  CapturedPieceOf(s.board, m), m)
    ensures !MakeResult(s, m).ok ==> MakeResult(s, m).pos.stateStack == s.stateStack
  {
    var a := Apply(s, m);
    assert a.stateStack[..|a.stateStack| - 1] == s.stateStack;
  }

  /**
   * After an accepted move the en-passant square is the square between from
   * and to exactly when a pawn moved two ranks, and none otherwise; the
   * halfmove clock restarts on a pawn move or a capture and counts up
   * otherwise; the fullmove number grows exactly after Black's move; the
   * side to move flips.
   */
  lemma AppliedScalars(s: Snapshot, m: Move)
    requires Shaped(s) && MoveShaped(m)
    ensures var a := Apply(s, m);
      && ((PieceType(m.piece) == WP && (m.to == m.from + 32 || m.to == m.from - 32)) ==>
            a.epSquare == (m.from + m.to) / 2 && IsOnBoard(a.epSquare))
      && (!(PieceType(m.piece) == WP && (m.to == m.from + 32 || m.to == m.from - 32)) ==>
            a.epSquare == -1)
      && ((PieceType(m.piece) == WP || IsCapture(m)) ==> a.halfmoveClock == 0)
      && (!(PieceType(m.piece) == WP || IsCapture(m)) ==> a.halfmoveClock == s.halfmoveClock + 1)
      && (a.fullmoveNumber == s.fullmoveNumber + 1 <==> s.sideToMove == Black)
      && (a.fullmoveNumber == s.fullmoveNumber <==> s.sideToMove != Black)
      && (s.sideToMove == White ==> a.sideToMove == Black)
      && (s.sideToMove == Black ==> a.sideToMove == White)
  {
  }

  /** Castling rights only ever lose bits. */
  lemma RightsNeverGrow(s: Snapshot, m: Move)
    requires Shaped(s) && MoveShaped(m)
    ensures Apply(s, m).castlingRights & !s.castlingRights == 0
    ensures MakeResult(s, m).pos.castlingRights & !s.castlingRights == 0
  {
    AppliedRightsShrink(s, m);
    UndoneRights(s, m);
  }

  lemma AppliedRightsShrink(s: Snapshot, m: Move)
    requires Shaped(s) && MoveShaped(m)
    ensures Apply(s, m).castlingRights & !s.castlingRights == 0
  {
    var r0 := s.castlingRights;
    var r1 := RightsAfterMove(r0, m.piece, m.from);
    var r2 := RightsAfterCapture(r1, CapturedPieceOf(s.board, m), CapturedSquare(m));
    MoveRightsShrink(r0, m.piece, m.from);
    CaptureRightsShrink(r1, CapturedPieceOf(s.board, m), CapturedSquare(m));
    SubsetTransitive(r2, r1, r0);
  }

  /** Taking back an applied move restores the castling rights it recorded. */
  lemma UndoneRights(s: Snapshot, m: Move)
    requires Shaped(s) && MoveShaped(m)
    ensures Undo(Apply(s, m)).castlingRights == s.castlingRights
  {
    var a := Apply(s, m);
    assert a.stateStack[|a.stateStack| - 1].castlingRights == s.castlingRights;
  }

  lemma MoveRightsShrink(rights: bv8, piece: int, from: int)
    ensures RightsAfterMove(rights, piece, from) & !rights == 0
  {
    var c := MoveMask(piece, from);
    ClearKeeps(rights, c);
    assert RightsAfterMove(rights, piece, from) == rights & !c;
  }

  lemma CaptureRightsShrink(rights: bv8, captured: int, sq: int)
    ensures RightsAfterCapture(rights, captured, sq) & !rights == 0
  {
    var c := CaptureMask(captured, sq);
    ClearKeeps(rights, c);
    assert RightsAfterCapture(rights, captured, sq) == rights & !c;
  }

  /** The rights a move of `piece` from `from` clears. */
  function MoveMask(piece: int, from: int): bv8 {
    if piece == WK then WK_CASTLE | WQ_CASTLE
    else if piece == BK then BK_CASTLE | BQ_CASTLE
    else if piece == WR && from == SQ_A1 then WQ_CASTLE
    else if piece == WR && from == SQ_H1 then WK_CASTLE
    else if piece == BR && from == SQ_A8 then BQ_CASTLE
    else if piece == BR && from == SQ_H8 then BK_CASTLE
    else 0
  }

  /** The rights taking `captured` on `sq` clears. */
  function CaptureMask(captured: int, sq: int): bv8 {
    if captured == WR && sq == SQ_A1 then WQ_CASTLE
    else if captured == WR && sq == SQ_H1 then WK_CASTLE
    else if captured == BR && sq == SQ_A8 then BQ_CASTLE
    else if captured == BR && sq == SQ_H8 then BK_CASTLE
    else 0
  }

  /** Clearing the bits of `c` removes them, adds nothing and keeps every right outside `c`. */
  lemma ClearKeeps(r: bv8, c: bv8)
    ensures (r & !c) & c == 0 && (r & !c) & !r == 0
    ensures c & WK_CASTLE == 0 ==> ((r & !c) & WK_CASTLE != 0 <==> r & WK_CASTLE != 0)
    ensures c & WQ_CASTLE == 0 ==> ((r & !c) & WQ_CASTLE != 0 <==> r & WQ_CASTLE != 0)
    ensures c & BK_CASTLE == 0 ==> ((r & !c) & BK_CASTLE != 0 <==> r & BK_CASTLE != 0)
    ensures c & BQ_CASTLE == 0 ==> ((r & !c) & BQ_CASTLE != 0 <==> r & BQ_CASTLE != 0)
  {
  }

  lemma SubsetTransitive(x: bv8, y: bv8, z: bv8)
    requires x & !y == 0 && y & !z == 0
    ensures x & !z == 0
  {
  }

  /**
   * A king move clears both of its side's bits; a rook leaving a1/h1/a8/h8
   * clears the matching bit; no other move changes the rights.
   */
  lemma MoveRightsUpdates(rights: bv8, piece: int, from: int)
    ensures piece == WK ==> RightsAfterMove(rights, piece, from) & (WK_CASTLE | WQ_CASTLE) == 0
    ensures piece == BK ==> RightsAfterMove(rights, piece, from) & (BK_CASTLE | BQ_CASTLE) == 0
    ensures piece == WR && from == SQ_A1 ==> RightsAfterMove(rights, piece, from) == rights & !WQ_CASTLE
    ensures piece == WR && from == SQ_H1 ==> RightsAfterMove(rights, piece, from) == rights & !WK_CASTLE
    ensures piece == BR && from == SQ_A8 ==> RightsAfterMove(rights, piece, from) == rights & !BQ_CASTLE
    ensures piece == BR && from == SQ_H8 ==> RightsAfterMove(rights, piece, from) == rights & !BK_CASTLE
    ensures piece !in {WK, BK, WR, BR} ==> RightsAfterMove(rights, piece, from) == rights
  {
    var c := MoveMask(piece, from);
    ClearKeeps(rights, c);
  }

  /**
   * Taking a rook on a1/h1/a8/h8 clears the matching bit; no other capture
   * changes the rights.
   */
  lemma CaptureRightsUpdates(rights: bv8, captured: int, sq: int)
    ensures captured == WR && sq == SQ_A1 ==> RightsAfterCapture(rights, captured, sq) == rights & !WQ_CASTLE
    ensures captured == WR && sq == SQ_H1 ==> RightsAfterCapture(rights, captured, sq) == rights & !WK_CASTLE
    ensures captured == BR && sq == SQ_A8 ==> RightsAfterCapture(rights, captured, sq) == rights & !BQ_CASTLE
    ensures captured == BR && sq == SQ_H8 ==> RightsAfterCapture(rights, captured, sq) == rights & !BK_CASTLE
    ensures captured !in {WR, BR} ==> RightsAfterCapture(rights, captured, sq) == rights
  {
  }

  /** Finding: the source keeps the black king-side right when the rook on h8 is captured. */
  lemma H8CaptureKeepsRightAsWritten()
    ensures RightsAfterCaptureAsWritten(ALL_CASTLE, BR, SQ_H8) & BK_CASTLE != 0
    ensures RightsAfterCapture(ALL_CASTLE, BR, SQ_H8) & BK_CASTLE == 0
  {
    assert SQ_H8 == 119 && SQ_A8 == 112 && SQ_H1 == 7;
    assert RightsAfterCaptureAsWritten(ALL_CASTLE, BR, SQ_H8) == ALL_CASTLE;
    assert RightsAfterCapture(ALL_CASTLE, BR, SQ_H8) == ALL_CASTLE & !BK_CASTLE;
  }

  /** undoMove on an empty stack changes nothing. */
  lemma UndoEmptyIsNoOp(s: Snapshot)
    requires Shaped(s) && |s.stateStack| == 0
    ensures Undo(s) == s
  {
  }

}
