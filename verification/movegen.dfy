/**
 * Pseudo-legal and legal move generation (src/movegen.cpp).
 *
 * The functions say which moves, in which order, each generator appends;
 * the methods walk the `Position` board with the source's loops and are
 * proved to append exactly those moves. The vector the source fills is a
 * `seq<Move>` passed in and returned.
 */
module MoveGen {
  import opened Types
  import opened Moves
  import opened Squares
  import opened Rules
  import opened RoundTrip
  import opened Positions

  const WhitePromotions: seq<int> := [WQ, WR, WB, WN]
  const BlackPromotions: seq<int> := [BQ, BR, BB, BN]

  /**
   * A move of `piece` from `sq` onto an empty square, or a capture of a
   * piece of the other colour there; never a promotion.
   */
  predicate SimpleMove(b: seq<int>, sq: int, piece: int, m: Move)
    requires |b| == 128
  {
    && m.from == sq && IsOnBoard(m.to) && m.to != sq
    && m.piece == piece % 0x100 && m.promotion == EMPTY
    && ((m.flags == MF_NONE && b[m.to] == EMPTY && m.captured == EMPTY)
        || (m.flags == MF_CAPTURE && b[m.to] != EMPTY && PieceColor(b[m.to]) != PieceColor(piece)
            && m.captured == b[m.to] % 0x100))
  }

  /** A simple move of the non-pawn piece standing on `sq` is well formed. */
  lemma SimpleMoveWellFormed(s: Snapshot, sq: int, m: Move)
    requires Shaped(s) && IsOnBoard(sq)
    requires IsPieceCode(s.board[sq]) && s.board[sq] != EMPTY && PieceType(s.board[sq]) != WP
    requires SimpleMove(s.board, sq, s.board[sq], m)
    ensures WellFormedMove(s, m)
  {
  }

  // ---------------------------------------------------------------------------
  // Knights and kings: one step per offset (movegen.cpp:131-144, 170-183)

  /** The quiet move or capture onto `to`, or nothing when a piece of the mover's colour stands there. */
  function StepMove(s: Snapshot, sq: int, to: int, piece: int): (r: seq<Move>)
    requires Shaped(s) && IsOnBoard(sq) && IsOnBoard(to) && to != sq
    ensures |r| <= 1
    ensures r == [] <==> s.board[to] != EMPTY && PieceColor(s.board[to]) == PieceColor(piece)
    ensures r != [] ==> SimpleMove(s.board, sq, piece, r[0]) && r[0].to == to
  {
    var target := s.board[to];
    if target == EMPTY then [NewMove(sq, to, piece)]
    else if PieceColor(target) != PieceColor(piece) then [NewMove(sq, to, piece, target, EMPTY, MF_CAPTURE)]
    else []
  }

  /** The moves for offsets `offs[i..]`, in offset order. */
  function StepMoves(s: Snapshot, sq: int, piece: int, offs: seq<int>, i: nat): seq<Move>
    requires Shaped(s) && IsOnBoard(sq) && NonZero(offs) && i <= |offs|
    decreases |offs| - i
  {
    if i == |offs| then []
    else
      var to := sq + offs[i];
      (if IsOnBoard(to) then StepMove(s, sq, to, piece) else []) + StepMoves(s, sq, piece, offs, i + 1)
  }

  /** Every step move is a simple move along one of the offsets. */
  lemma {:induction false} StepMovesShape(s: Snapshot, sq: int, piece: int, offs: seq<int>, i: nat)
    requires Shaped(s) && IsOnBoard(sq) && NonZero(offs) && i <= |offs|
    ensures forall m :: m in StepMoves(s, sq, piece, offs, i) ==>
              SimpleMove(s.board, sq, piece, m) && m.to - sq in offs[i..]
    decreases |offs| - i
  {
    if i < |offs| {
      StepMovesShape(s, sq, piece, offs, i + 1);
      assert offs[i..] == [offs[i]] + offs[i + 1..];
    }
  }

  /**
   * Every offset whose target is on the board and not held by the mover's
   * colour yields exactly one move, to that target.
   */
  lemma {:induction false} StepMovesComplete(s: Snapshot, sq: int, piece: int, offs: seq<int>, i: nat, j: int)
    requires Shaped(s) && IsOnBoard(sq) && NonZero(offs) && i <= j < |offs|
    requires IsOnBoard(sq + offs[j])
    requires s.board[sq + offs[j]] == EMPTY || PieceColor(s.board[sq + offs[j]]) != PieceColor(piece)
    ensures exists m :: m in StepMoves(s, sq, piece, offs, i) && m.to == sq + offs[j]
    decreases j - i
  {
    if i == j {
      var m := StepMove(s, sq, sq + offs[j], piece)[0];
      assert m in StepMoves(s, sq, piece, offs, i);
    } else {
      StepMovesComplete(s, sq, piece, offs, i + 1, j);
      var m :| m in StepMoves(s, sq, piece, offs, i + 1) && m.to == sq + offs[j];
      assert m in StepMoves(s, sq, piece, offs, i);
    }
  }

  // ---------------------------------------------------------------------------
  // Sliders (movegen.cpp:146-168)

  /**
   * The rest of a ray in direction `delta` beyond `to`: the empty squares,
   * then a capture if the first occupied square holds the other colour.
   */
  function RayMoves(s: Snapshot, sq: int, piece: int, to: int, delta: int): seq<Move>
    requires Shaped(s) && IsOnBoard(sq) && 0 <= to < 128 && delta != 0
    requires if delta > 0 then to >= sq else to <= sq
    decreases if delta > 0 then 128 - to else to
  {
    var t := to + delta;
    if !IsOnBoard(t) then []
    else if s.board[t] == EMPTY then [NewMove(sq, t, piece)] + RayMoves(s, sq, piece, t, delta)
    else if PieceColor(s.board[t]) != PieceColor(piece) then [NewMove(sq, t, piece, s.board[t], EMPTY, MF_CAPTURE)]
    else []
  }

  /**
   * Stepping by `delta` from `t` reaches `target` on the board, over empty
   * squares only.
   */
  predicate PathClear(b: seq<int>, t: int, target: int, delta: int)
    requires |b| == 128 && 0 <= t < 128 && delta != 0
    decreases if delta > 0 then 128 - t else t
  {
    var n := t + delta;
    IsOnBoard(n) && (n == target || (b[n] == EMPTY && PathClear(b, n, target, delta)))
  }

  /** Every ray move is a simple move whose path from `to` is clear. */
  lemma {:induction false} RayMovesShape(s: Snapshot, sq: int, piece: int, to: int, delta: int)
    requires Shaped(s) && IsOnBoard(sq) && 0 <= to < 128 && delta != 0
    requires if delta > 0 then to >= sq else to <= sq
    ensures forall m :: m in RayMoves(s, sq, piece, to, delta) ==>
              SimpleMove(s.board, sq, piece, m) && PathClear(s.board, to, m.to, delta)
    decreases if delta > 0 then 128 - to else to
  {
    var t := to + delta;
    if IsOnBoard(t) && s.board[t] == EMPTY {
      var rest := RayMoves(s, sq, piece, t, delta);
      RayMovesShape(s, sq, piece, t, delta);
      assert RayMoves(s, sq, piece, to, delta) == [NewMove(sq, t, piece)] + rest;
      forall m | m in RayMoves(s, sq, piece, to, delta)
        ensures SimpleMove(s.board, sq, piece, m) && PathClear(s.board, to, m.to, delta)
      {
        if m != NewMove(sq, t, piece) {
          assert m in rest;
        }
      }
    }
  }

  /**
   * Conversely, every square the ray reaches over empty squares yields a
   * move unless a piece of the mover's colour stands there.
   */
  lemma {:induction false} RayMovesComplete(s: Snapshot, sq: int, piece: int, to: int, delta: int, target: int)
    requires Shaped(s) && IsOnBoard(sq) && 0 <= to < 128 && delta != 0
    requires if delta > 0 then to >= sq else to <= sq
    requires IsOnBoard(target) && PathClear(s.board, to, target, delta)
    requires s.board[target] == EMPTY || PieceColor(s.board[target]) != PieceColor(piece)
    ensures exists m :: m in RayMoves(s, sq, piece, to, delta) && m.to == target
    decreases if delta > 0 then 128 - to else to
  {
    var t := to + delta;
    if t == target {
      assert RayMoves(s, sq, piece, to, delta)[0].to == target;
    } else {
      RayMovesComplete(s, sq, piece, t, delta, target);
      var m :| m in RayMoves(s, sq, piece, t, delta) && m.to == target;
      assert m in RayMoves(s, sq, piece, to, delta);
    }
  }

  /** The rays for directions `dirs[d..]`, in direction order. */
  function SliderMoves(s: Snapshot, sq: int, piece: int, dirs: seq<int>, d: nat): seq<Move>
    requires Shaped(s) && IsOnBoard(sq) && NonZero(dirs) && d <= |dirs|
    decreases |dirs| - d
  {
    if d == |dirs| then [] else RayMoves(s, sq, piece, sq, dirs[d]) + SliderMoves(s, sq, piece, dirs, d + 1)
  }

  lemma {:induction false} SliderMovesShape(s: Snapshot, sq: int, piece: int, dirs: seq<int>, d: nat)
    requires Shaped(s) && IsOnBoard(sq) && NonZero(dirs) && d <= |dirs|
    ensures forall m :: m in SliderMoves(s, sq, piece, dirs, d) ==> SimpleMove(s.board, sq, piece, m)
    decreases |dirs| - d
  {
    if d < |dirs| {
      RayMovesShape(s, sq, piece, sq, dirs[d]);
      SliderMovesShape(s, sq, piece, dirs, d + 1);
    }
  }

  // ---------------------------------------------------------------------------
  // Pawns (movegen.cpp:12-129)

  /** The four promotion moves, queen, rook, bishop, knight. */
  function PromotionMoves(from: int, to: int, piece: int, captured: int, flags: bv8, promos: seq<int>): seq<Move>
    requires |promos| == 4
  {
    [NewMove(from, to, piece, captured, promos[0], flags),
     NewMove(from, to, piece, captured, promos[1], flags),
     NewMove(from, to, piece, captured, promos[2], flags),
     NewMove(from, to, piece, captured, promos[3], flags)]
  }

  /** The pawn's direction of travel, the two squares it captures on, its start and last ranks. */
  function PawnDir(white: bool): int { if white then 16 else -16 }
  function PawnCaps(sq: int, white: bool): seq<int> { if white then [sq + 15, sq + 17] else [sq - 17, sq - 15] }
  function StartRank(white: bool): int { if white then 1 else 6 }
  function PromoRank(white: bool): int { if white then 6 else 1 }
  function Promos(white: bool): seq<int> { if white then WhitePromotions else BlackPromotions }

  /** The single push (four promotions on the last rank) and the double push from the start rank. */
  function PawnPushes(s: Snapshot, sq: int, white: bool): seq<Move>
    requires Shaped(s) && IsOnBoard(sq)
  {
    var b := s.board;
    var piece := b[sq];
    var one := sq + PawnDir(white);
    var two := sq + 2 * PawnDir(white);
    if IsOnBoard(one) && b[one] == EMPTY then
      if RankOf(sq) == PromoRank(white) then PromotionMoves(sq, one, piece, EMPTY, MF_PROMOTION, Promos(white))
      else [NewMove(sq, one, piece)]
           + (if RankOf(sq) == StartRank(white) && b[two] == EMPTY then [NewMove(sq, two, piece)] else [])
    else []
  }

  /** The diagonal capture onto `to` (four promotions on the last rank). */
  function PawnCapture(s: Snapshot, sq: int, to: int, white: bool): seq<Move>
    requires Shaped(s) && IsOnBoard(sq)
  {
    var b := s.board;
    if !IsOnBoard(to) then []
    else
      var target := b[to];
      if target != EMPTY && PieceColor(target) == (if white then Black else White) then
        if RankOf(sq) == PromoRank(white) then
          PromotionMoves(sq, to, b[sq], target, MF_PROMOTION | MF_CAPTURE, Promos(white))
        else [NewMove(sq, to, b[sq], target, EMPTY, MF_CAPTURE)]
      else []
  }

  function PawnCaptures(s: Snapshot, sq: int, white: bool, i: nat): seq<Move>
    requires Shaped(s) && IsOnBoard(sq) && i <= 2
    decreases 2 - i
  {
    if i == 2 then [] else PawnCapture(s, sq, PawnCaps(sq, white)[i], white) + PawnCaptures(s, sq, white, i + 1)
  }

  /** The pawn an en-passant capture onto `to` removes stands one rank behind `to`, on the board. */
  lemma BehindOnBoard(sq: int, to: int, white: bool)
    requires IsOnBoard(sq) && IsOnBoard(to) && to in PawnCaps(sq, white)
    ensures IsOnBoard(to - PawnDir(white))
  {
    if white {
      assert to >= 15 && to % 16 < 8;
      assert (to - 16) % 16 == to % 16;
    } else {
      assert to <= sq - 15;
      assert (to + 16) % 16 == to % 16;
    }
  }

  /** The en-passant capture onto `to` when `to` is the en-passant square and the enemy pawn stands behind it. */
  function PawnEnPassant(s: Snapshot, sq: int, to: int, white: bool): seq<Move>
    requires Shaped(s) && IsOnBoard(sq) && to in PawnCaps(sq, white) && s.epSquare != -1
  {
    if to == s.epSquare then
      BehindOnBoard(sq, to, white);
      var behind := to - PawnDir(white);
      var capturedPiece := s.board[behind];
      if capturedPiece == (if white then BP else WP) then
        [NewMove(sq, to, s.board[sq], capturedPiece, EMPTY, MF_EN_PASSANT | MF_CAPTURE)]
      else []
    else []
  }

  function PawnEnPassants(s: Snapshot, sq: int, white: bool, i: nat): seq<Move>
    requires Shaped(s) && IsOnBoard(sq) && i <= 2 && s.epSquare != -1
    decreases 2 - i
  {
    if i == 2 then [] else PawnEnPassant(s, sq, PawnCaps(sq, white)[i], white) + PawnEnPassants(s, sq, white, i + 1)
  }

  /** `gen_white_pawns` / `gen_black_pawns`: pushes, then captures, then en passant. */
  function PawnMoves(s: Snapshot, sq: int, white: bool): seq<Move>
    requires Shaped(s) && IsOnBoard(sq)
  {
    PawnPushes(s, sq, white)
    + PawnCaptures(s, sq, white, 0)
    + (if s.epSquare != -1 then PawnEnPassants(s, sq, white, 0) else [])
  }

  /** The pawn of the given colour stands on `sq`. */
  predicate PawnOn(s: Snapshot, sq: int, white: bool)
    requires Shaped(s) && IsOnBoard(sq)
  {
    s.board[sq] == (if white then WP else BP)
  }

  /** A push onto an empty square, a promotion or not; a double push also crosses an empty square. */
  lemma PushWellFormed(s: Snapshot, sq: int, white: bool, to: int, promo: int, flags: bv8)
    requires Shaped(s) && IsOnBoard(sq) && PawnOn(s, sq, white) && IsOnBoard(to) && s.board[to] == EMPTY
    requires || to == sq + PawnDir(white)
             || (to == sq + 2 * PawnDir(white) && s.board[sq + PawnDir(white)] == EMPTY && flags == MF_NONE)
    requires (flags == MF_NONE && promo == EMPTY) || (flags == MF_PROMOTION && IsPieceCode(promo))
    ensures WellFormedMove(s, NewMove(sq, to, s.board[sq], EMPTY, promo, flags))
  {
    var m := NewMove(sq, to, s.board[sq], EMPTY, promo, flags);
    assert !IsCastling(m) && !IsEnPassant(m) && !IsCapture(m);
  }

  /** A diagonal capture of a piece of the other colour, a promotion or not. */
  lemma PawnTakeWellFormed(s: Snapshot, sq: int, white: bool, to: int, promo: int, flags: bv8)
    requires Shaped(s) && IsOnBoard(sq) && PawnOn(s, sq, white) && IsOnBoard(to) && to in PawnCaps(sq, white)
    requires s.board[to] != EMPTY
    requires (flags == MF_CAPTURE && promo == EMPTY) || (flags == MF_PROMOTION | MF_CAPTURE && IsPieceCode(promo))
    ensures WellFormedMove(s, NewMove(sq, to, s.board[sq], s.board[to], promo, flags))
  {
    var m := NewMove(sq, to, s.board[sq], s.board[to], promo, flags);
    assert !IsCastling(m) && !IsEnPassant(m) && IsCapture(m);
  }

  /** The four promotions of one pawn move are well formed when each of them is. */
  lemma PromotionsShape(s: Snapshot, sq: int, to: int, white: bool, captured: int, flags: bv8)
    requires Shaped(s) && IsOnBoard(sq)
    requires forall k :: 0 <= k < 4 ==> WellFormedMove(s, NewMove(sq, to, s.board[sq], captured, Promos(white)[k], flags))
    ensures forall m :: m in PromotionMoves(sq, to, s.board[sq], captured, flags, Promos(white)) ==>
              WellFormedMove(s, m) && m.from == sq && m.to == to % 0x1_0000
  {
    var ms := PromotionMoves(sq, to, s.board[sq], captured, flags, Promos(white));
    forall m | m in ms
      ensures WellFormedMove(s, m) && m.from == sq && m.to == to % 0x1_0000
    {
      var k :| 0 <= k < 4 && ms[k] == m;
    }
  }

  /** Pushes are quiet moves (or promotions) onto empty squares; a double push crosses an empty square. */
  lemma PawnPushesShape(s: Snapshot, sq: int, white: bool)
    requires Shaped(s) && IsOnBoard(sq) && PawnOn(s, sq, white)
    ensures forall m :: m in PawnPushes(s, sq, white) ==> WellFormedMove(s, m) && m.from == sq
  {
    var b := s.board;
    var one := sq + PawnDir(white);
    var two := sq + 2 * PawnDir(white);
    if IsOnBoard(one) && b[one] == EMPTY {
      if RankOf(sq) == PromoRank(white) {
        forall k | 0 <= k < 4
          ensures WellFormedMove(s, NewMove(sq, one, b[sq], EMPTY, Promos(white)[k], MF_PROMOTION))
        {
          PushWellFormed(s, sq, white, one, Promos(white)[k], MF_PROMOTION);
        }
        PromotionsShape(s, sq, one, white, EMPTY, MF_PROMOTION);
      } else {
        QuietPushesShape(s, sq, white);
      }
    }
  }

  /** Off the last rank a pawn pushes one square, and two from its start rank. */
  lemma QuietPushesShape(s: Snapshot, sq: int, white: bool)
    requires Shaped(s) && IsOnBoard(sq) && PawnOn(s, sq, white)
    requires IsOnBoard(sq + PawnDir(white)) && s.board[sq + PawnDir(white)] == EMPTY
    requires RankOf(sq) != PromoRank(white)
    ensures forall m :: m in PawnPushes(s, sq, white) ==> WellFormedMove(s, m) && m.from == sq
  {
    var b := s.board;
    var one := sq + PawnDir(white);
    var two := sq + 2 * PawnDir(white);
    var single := NewMove(sq, one, b[sq]);
    var double := NewMove(sq, two, b[sq]);
    var ms := PawnPushes(s, sq, white);
    var doubled := RankOf(sq) == StartRank(white) && b[two] == EMPTY;
    assert ms == [single] + (if doubled then [double] else []);
    PushWellFormed(s, sq, white, one, EMPTY, MF_NONE);
    NarrowSquare(sq);
    if doubled {
      DoublePushOnBoard(sq, white);
      PushWellFormed(s, sq, white, two, EMPTY, MF_NONE);
    }
    forall m | m in ms
      ensures WellFormedMove(s, m) && m.from == sq
    {
      assert m == single || (doubled && m == double);
    }
  }

  lemma PawnCaptureShape(s: Snapshot, sq: int, to: int, white: bool)
    requires Shaped(s) && IsOnBoard(sq) && PawnOn(s, sq, white) && to in PawnCaps(sq, white)
    ensures forall m :: m in PawnCapture(s, sq, to, white) ==> WellFormedMove(s, m) && m.from == sq && m.to == to
  {
    var b := s.board;
    if IsOnBoard(to) && b[to] != EMPTY && PieceColor(b[to]) == (if white then Black else White) {
      if RankOf(sq) == PromoRank(white) {
        forall k | 0 <= k < 4
          ensures WellFormedMove(s, NewMove(sq, to, b[sq], b[to], Promos(white)[k], MF_PROMOTION | MF_CAPTURE))
        {
          PawnTakeWellFormed(s, sq, white, to, Promos(white)[k], MF_PROMOTION | MF_CAPTURE);
        }
        PromotionsShape(s, sq, to, white, b[to], MF_PROMOTION | MF_CAPTURE);
        assert PawnCapture(s, sq, to, white)
            == PromotionMoves(sq, to, b[sq], b[to], MF_PROMOTION | MF_CAPTURE, Promos(white));
        NarrowSquare(to);
      } else {
        PawnTakeWellFormed(s, sq, white, to, EMPTY, MF_CAPTURE);
        var m := NewMove(sq, to, b[sq], b[to], EMPTY, MF_CAPTURE);
        assert PawnCapture(s, sq, to, white) == [m];
        NarrowSquare(sq);
        NarrowSquare(to);
      }
    }
  }

  /** From its start rank a pawn's double push lands on the board. */
  lemma DoublePushOnBoard(sq: int, white: bool)
    requires IsOnBoard(sq) && RankOf(sq) == StartRank(white)
    ensures IsOnBoard(sq + 2 * PawnDir(white))
  {
  }

  /** The uint16_t cast of `make_move` keeps an on-board square. */
  lemma NarrowSquare(sq: int)
    requires IsOnBoard(sq)
    ensures sq % 0x1_0000 == sq
  {
  }

  lemma {:induction false} PawnCapturesShape(s: Snapshot, sq: int, white: bool, i: nat)
    requires Shaped(s) && IsOnBoard(sq) && PawnOn(s, sq, white) && i <= 2
    ensures forall m :: m in PawnCaptures(s, sq, white, i) ==> WellFormedMove(s, m) && m.from == sq
    decreases 2 - i
  {
    if i < 2 {
      PawnCaptureShape(s, sq, PawnCaps(sq, white)[i], white);
      PawnCapturesShape(s, sq, white, i + 1);
    }
  }

  /** An en-passant move lands on the en-passant square and removes the enemy pawn behind it. */
  lemma PawnEnPassantShape(s: Snapshot, sq: int, to: int, white: bool)
    requires Shaped(s) && IsOnBoard(sq) && PawnOn(s, sq, white) && to in PawnCaps(sq, white) && s.epSquare != -1
    ensures forall m :: m in PawnEnPassant(s, sq, to, white) ==>
              WellFormedMove(s, m) && m.from == sq && m.to == s.epSquare && IsEnPassant(m)
  {
    if to == s.epSquare {
      BehindOnBoard(sq, to, white);
      var behind := to - PawnDir(white);
      if s.board[behind] == (if white then BP else WP) {
        var m := NewMove(sq, to, s.board[sq], s.board[behind], EMPTY, MF_EN_PASSANT | MF_CAPTURE);
        assert PawnEnPassant(s, sq, to, white) == [m];
        EnPassantWellFormed(s, sq, to, white, m);
      }
    }
  }

  lemma EnPassantWellFormed(s: Snapshot, sq: int, to: int, white: bool, m: Move)
    requires Shaped(s) && IsOnBoard(sq) && PawnOn(s, sq, white) && IsOnBoard(to) && to in PawnCaps(sq, white)
    requires to == s.epSquare && IsOnBoard(to - PawnDir(white))
    requires s.board[to - PawnDir(white)] == (if white then BP else WP)
    requires m == NewMove(sq, to, s.board[sq], s.board[to - PawnDir(white)], EMPTY, MF_EN_PASSANT | MF_CAPTURE)
    ensures WellFormedMove(s, m) && IsEnPassant(m)
  {
    assert !IsCastling(m) && IsEnPassant(m) && IsCapture(m);
    assert EpCaptureSquare(m) == to - PawnDir(white);
  }

  lemma {:induction false} PawnEnPassantsShape(s: Snapshot, sq: int, white: bool, i: nat)
    requires Shaped(s) && IsOnBoard(sq) && PawnOn(s, sq, white) && i <= 2 && s.epSquare != -1
    ensures forall m :: m in PawnEnPassants(s, sq, white, i) ==> WellFormedMove(s, m) && m.from == sq
    decreases 2 - i
  {
    if i < 2 {
      PawnEnPassantShape(s, sq, PawnCaps(sq, white)[i], white);
      PawnEnPassantsShape(s, sq, white, i + 1);
    }
  }

  lemma PawnMovesShape(s: Snapshot, sq: int, white: bool)
    requires Shaped(s) && IsOnBoard(sq) && PawnOn(s, sq, white)
    ensures forall m :: m in PawnMoves(s, sq, white) ==> WellFormedMove(s, m) && m.from == sq
  {
    PawnPushesShape(s, sq, white);
    PawnCapturesShape(s, sq, white, 0);
    if s.epSquare != -1 {
      PawnEnPassantsShape(s, sq, white, 0);
    }
  }

  // ---------------------------------------------------------------------------
  // Castling (movegen.cpp:185-240)

  /** The castling move from `from` to `to` when `ok`. */
  function CastleMove(ok: bool, from: int, to: int, kingPiece: int): seq<Move>
  {
    if ok then [NewMove(from, to, kingPiece, EMPTY, EMPTY, MF_CASTLING)] else []
  }

  /** The squares b..g of the king's home rank, around `e`, are on the board. */
  predicate HomeRank(e: int) {
    && IsOnBoard(e - 3) && IsOnBoard(e - 2) && IsOnBoard(e - 1)
    && IsOnBoard(e) && IsOnBoard(e + 1) && IsOnBoard(e + 2)
  }

  lemma HomeRankOnBoard(e: int)
    requires e == SQ_E1 || e == SQ_E8
    ensures HomeRank(e)
  {
  }

  /**
   * King-side castling from `e`: the right is held, f and g are empty, and
   * none of e, f, g is attacked by `them`.
   */
  predicate ShortCastleOk(b: seq<int>, rights: bv8, bit: bv8, e: int, them: Color)
    requires |b| == 128 && HomeRank(e)
  {
    var f := e + 1;
    var g := e + 2;
    rights & bit != 0 && b[f] == EMPTY && b[g] == EMPTY
    && !Attacked(b, e, them) && !Attacked(b, f, them) && !Attacked(b, g, them)
  }

  /**
   * Queen-side castling from `e`: the right is held, d, c and b are empty,
   * and none of e, d, c is attacked by `them` (b may be).
   */
  predicate LongCastleOk(b: seq<int>, rights: bv8, bit: bv8, e: int, them: Color)
    requires |b| == 128 && HomeRank(e)
  {
    var d := e - 1;
    var c := e - 2;
    var bsq := e - 3;
    rights & bit != 0 && b[d] == EMPTY && b[c] == EMPTY && b[bsq] == EMPTY
    && !Attacked(b, e, them) && !Attacked(b, d, them) && !Attacked(b, c, them)
  }

  /** One colour's castling moves for a king on `e`: king side first, then queen side. */
  function CastleSides(s: Snapshot, e: int, kingPiece: int, shortBit: bv8, longBit: bv8, them: Color): seq<Move>
    requires Shaped(s) && HomeRank(e)
  {
    CastleMove(ShortCastleOk(s.board, s.castlingRights, shortBit, e, them), e, e + 2, kingPiece)
    + CastleMove(LongCastleOk(s.board, s.castlingRights, longBit, e, them), e, e - 2, kingPiece)
  }

  /** `gen_castling`: only a king on e1 (White) or e8 (Black) castles. */
  function CastlingMoves(s: Snapshot, kingSq: int, kingPiece: int): seq<Move>
    requires Shaped(s) && IsOnBoard(kingSq)
  {
    var us := PieceColor(kingPiece);
    var them := Opposite(us);
    if us == White && kingSq == SQ_E1 then CastleSides(s, SQ_E1, kingPiece, WK_CASTLE, WQ_CASTLE, them)
    else if us == Black && kingSq == SQ_E8 then CastleSides(s, SQ_E8, kingPiece, BK_CASTLE, BQ_CASTLE, them)
    else []
  }

  /** The king-side castling move, when allowed, has the shape `makeMove` relies on. */
  lemma ShortCastleShape(s: Snapshot, e: int, kingPiece: int, bit: bv8, ok: bool)
    requires Shaped(s)
    requires (e == SQ_E1 && kingPiece == WK && bit == WK_CASTLE) || (e == SQ_E8 && kingPiece == BK && bit == BK_CASTLE)
    requires s.board[e] == kingPiece
    requires ok ==> s.castlingRights & bit != 0 && s.board[e + 1] == EMPTY && s.board[e + 2] == EMPTY
    ensures forall m :: m in CastleMove(ok, e, e + 2, kingPiece) ==> WellFormedMove(s, m) && m.from == e
  {
    if ok {
      var m := NewMove(e, e + 2, kingPiece, EMPTY, EMPTY, MF_CASTLING);
      assert IsCastling(m) && !IsEnPassant(m);
      assert CastleShape(s, m);
    }
  }

  /** The queen-side castling move, when allowed, has the shape `makeMove` relies on. */
  lemma LongCastleShape(s: Snapshot, e: int, kingPiece: int, bit: bv8, ok: bool)
    requires Shaped(s)
    requires (e == SQ_E1 && kingPiece == WK && bit == WQ_CASTLE) || (e == SQ_E8 && kingPiece == BK && bit == BQ_CASTLE)
    requires s.board[e] == kingPiece
    requires ok ==> s.castlingRights & bit != 0 && s.board[e - 1] == EMPTY && s.board[e - 2] == EMPTY
    ensures forall m :: m in CastleMove(ok, e, e - 2, kingPiece) ==> WellFormedMove(s, m) && m.from == e
  {
    if ok {
      var m := NewMove(e, e - 2, kingPiece, EMPTY, EMPTY, MF_CASTLING);
      assert IsCastling(m) && !IsEnPassant(m);
      assert CastleShape(s, m);
    }
  }

  /** Both castling moves of one colour, when allowed, have the shape `makeMove` relies on. */
  lemma CastleSidesShape(s: Snapshot, e: int, kingPiece: int, shortBit: bv8, longBit: bv8, them: Color)
    requires Shaped(s)
    requires || (e == SQ_E1 && kingPiece == WK && shortBit == WK_CASTLE && longBit == WQ_CASTLE)
             || (e == SQ_E8 && kingPiece == BK && shortBit == BK_CASTLE && longBit == BQ_CASTLE)
    requires s.board[e] == kingPiece
    ensures forall m :: m in CastleSides(s, e, kingPiece, shortBit, longBit, them) ==> WellFormedMove(s, m) && m.from == e
  {
    ShortSideShape(s, e, kingPiece, shortBit, them);
    LongSideShape(s, e, kingPiece, longBit, them);
    WellFormedConcat(s, CastleMove(ShortCastleOk(s.board, s.castlingRights, shortBit, e, them), e, e + 2, kingPiece),
                     CastleMove(LongCastleOk(s.board, s.castlingRights, longBit, e, them), e, e - 2, kingPiece), e);
  }

  lemma ShortSideShape(s: Snapshot, e: int, kingPiece: int, bit: bv8, them: Color)
    requires Shaped(s)
    requires (e == SQ_E1 && kingPiece == WK && bit == WK_CASTLE) || (e == SQ_E8 && kingPiece == BK && bit == BK_CASTLE)
    requires s.board[e] == kingPiece
    ensures forall m :: m in CastleMove(ShortCastleOk(s.board, s.castlingRights, bit, e, them), e, e + 2, kingPiece) ==>
              WellFormedMove(s, m) && m.from == e
  {
    ShortCastleShape(s, e, kingPiece, bit, ShortCastleOk(s.board, s.castlingRights, bit, e, them));
  }

  lemma LongSideShape(s: Snapshot, e: int, kingPiece: int, bit: bv8, them: Color)
    requires Shaped(s)
    requires (e == SQ_E1 && kingPiece == WK && bit == WQ_CASTLE) || (e == SQ_E8 && kingPiece == BK && bit == BQ_CASTLE)
    requires s.board[e] == kingPiece
    ensures forall m :: m in CastleMove(LongCastleOk(s.board, s.castlingRights, bit, e, them), e, e - 2, kingPiece) ==>
              WellFormedMove(s, m) && m.from == e
  {
    LongCastleShape(s, e, kingPiece, bit, LongCastleOk(s.board, s.castlingRights, bit, e, them));
  }

  /** Two lists of well-formed moves from `from` concatenate to one. */
  lemma WellFormedConcat(s: Snapshot, a: seq<Move>, b: seq<Move>, from: int)
    requires Shaped(s)
    requires forall m :: m in a ==> WellFormedMove(s, m) && m.from == from
    requires forall m :: m in b ==> WellFormedMove(s, m) && m.from == from
    ensures forall m :: m in a + b ==> WellFormedMove(s, m) && m.from == from
  {
    forall m | m in a + b
      ensures WellFormedMove(s, m) && m.from == from
    {
      assert m in a || m in b;
    }
  }

  /**
   * A generated castling move has the shape `makeMove` relies on: the king
   * on e1/e8 moves two squares towards a corner whose right is held, over
   * empty squares.
   */
  lemma CastlingMovesShape(s: Snapshot, kingSq: int)
    requires Shaped(s) && IsOnBoard(kingSq) && PieceType(s.board[kingSq]) == WK
    ensures forall m :: m in CastlingMoves(s, kingSq, s.board[kingSq]) ==>
              WellFormedMove(s, m) && m.from == kingSq
  {
    var kingPiece := s.board[kingSq];
    var us := PieceColor(kingPiece);
    var them := Opposite(us);
    if us == White && kingSq == SQ_E1 {
      CastleSidesShape(s, SQ_E1, WK, WK_CASTLE, WQ_CASTLE, them);
    } else if us == Black && kingSq == SQ_E8 {
      CastleSidesShape(s, SQ_E8, BK, BK_CASTLE, BQ_CASTLE, them);
    }
  }

  // ---------------------------------------------------------------------------
  // The board scan (movegen.cpp:243-292)

  /** The moves of the piece on `sq` if it belongs to the side to move. */
  function PieceMoves(s: Snapshot, sq: int): seq<Move>
    requires Shaped(s) && IsOnBoard(sq)
  {
    var piece := s.board[sq];
    var us := s.sideToMove;
    if piece == EMPTY || PieceColor(piece) != us then []
    else
      var pt := PieceType(piece);
      if pt == WP then PawnMoves(s, sq, us == White)
      else if pt == WN then StepMoves(s, sq, piece, KnightOffsets, 0)
      else if pt == WB then SliderMoves(s, sq, piece, BishopOffsets, 0)
      else if pt == WR then SliderMoves(s, sq, piece, RookOffsets, 0)
      else if pt == WQ then SliderMoves(s, sq, piece, BishopOffsets, 0) + SliderMoves(s, sq, piece, RookOffsets, 0)
      else if pt == WK then StepMoves(s, sq, piece, KingOffsets, 0) + CastlingMoves(s, sq, piece)
      else []
  }

  /** Every move of `ms` is well formed and moves a piece of the side to move from `sq`. */
  predicate MovesFrom(s: Snapshot, sq: int, ms: seq<Move>)
    requires Shaped(s)
  {
    forall m :: m in ms ==> WellFormedMove(s, m) && m.from == sq && PieceColor(m.piece) == s.sideToMove
  }

  /** Every move of a piece is well formed and moves a piece of the side to move from its square. */
  lemma PieceMovesShape(s: Snapshot, sq: int)
    requires Shaped(s) && IsOnBoard(sq)
    ensures forall m :: m in PieceMoves(s, sq) ==>
              WellFormedMove(s, m) && m.from == sq && PieceColor(m.piece) == s.sideToMove
  {
    var piece := s.board[sq];
    if piece != EMPTY && PieceColor(piece) == s.sideToMove {
      var pt := PieceType(piece);
      if pt == WP {
        PawnPieceShape(s, sq);
      } else if pt == WN || pt == WK {
        StepPieceShape(s, sq);
      } else if pt == WB || pt == WR || pt == WQ {
        SliderPieceShape(s, sq);
      }
    }
  }

  lemma PawnPieceShape(s: Snapshot, sq: int)
    requires Shaped(s) && IsOnBoard(sq) && s.board[sq] != EMPTY && PieceColor(s.board[sq]) == s.sideToMove
    requires PieceType(s.board[sq]) == WP
    ensures MovesFrom(s, sq, PieceMoves(s, sq))
  {
    PawnMovesShape(s, sq, s.sideToMove == White);
  }

  lemma StepPieceShape(s: Snapshot, sq: int)
    requires Shaped(s) && IsOnBoard(sq) && s.board[sq] != EMPTY && PieceColor(s.board[sq]) == s.sideToMove
    requires PieceType(s.board[sq]) == WN || PieceType(s.board[sq]) == WK
    ensures MovesFrom(s, sq, PieceMoves(s, sq))
  {
    var piece := s.board[sq];
    if PieceType(piece) == WN {
      var n := StepMoves(s, sq, piece, KnightOffsets, 0);
      StepMovesShape(s, sq, piece, KnightOffsets, 0);
      SimpleMovesWellFormed(s, sq, n);
    } else {
      var k := StepMoves(s, sq, piece, KingOffsets, 0);
      StepMovesShape(s, sq, piece, KingOffsets, 0);
      SimpleMovesWellFormed(s, sq, k);
      CastlingMovesShape(s, sq);
    }
  }

  lemma SliderPieceShape(s: Snapshot, sq: int)
    requires Shaped(s) && IsOnBoard(sq) && s.board[sq] != EMPTY && PieceColor(s.board[sq]) == s.sideToMove
    requires PieceType(s.board[sq]) == WB || PieceType(s.board[sq]) == WR || PieceType(s.board[sq]) == WQ
    ensures MovesFrom(s, sq, PieceMoves(s, sq))
  {
    var piece := s.board[sq];
    var b, r := SliderMoves(s, sq, piece, BishopOffsets, 0), SliderMoves(s, sq, piece, RookOffsets, 0);
    SliderMovesShape(s, sq, piece, BishopOffsets, 0);
    SliderMovesShape(s, sq, piece, RookOffsets, 0);
    SimpleMovesWellFormed(s, sq, b + r);
  }

  /** `SimpleMoveWellFormed` for every move of a list. */
  lemma SimpleMovesWellFormed(s: Snapshot, sq: int, ms: seq<Move>)
    requires Shaped(s) && IsOnBoard(sq)
    requires IsPieceCode(s.board[sq]) && s.board[sq] != EMPTY && PieceType(s.board[sq]) != WP
    requires forall m :: m in ms ==> SimpleMove(s.board, sq, s.board[sq], m)
    ensures forall m :: m in ms ==> WellFormedMove(s, m) && m.from == sq
  {
    forall m | m in ms
      ensures WellFormedMove(s, m)
    {
      SimpleMoveWellFormed(s, sq, m);
    }
  }

  /** The moves of every square from `sq` on, in square order, skipping the padding half of each rank. */
  function ScanFrom(s: Snapshot, sq: int): seq<Move>
    requires Shaped(s) && 0 <= sq && sq % 16 <= 8
    decreases 128 - sq
  {
    if sq >= 128 then []
    else if !IsOnBoard(sq) then ScanFrom(s, sq + 8)
    else PieceMoves(s, sq) + ScanFrom(s, sq + 1)
  }

  lemma {:induction false} ScanFromShape(s: Snapshot, sq: int)
    requires Shaped(s) && 0 <= sq && sq % 16 <= 8
    ensures forall m :: m in ScanFrom(s, sq) ==>
              WellFormedMove(s, m) && sq <= m.from && PieceColor(m.piece) == s.sideToMove
    decreases 128 - sq
  {
    if sq < 128 {
      if !IsOnBoard(sq) {
        ScanFromShape(s, sq + 8);
      } else {
        PieceMovesShape(s, sq);
        ScanFromShape(s, sq + 1);
      }
    }
  }

  /** `GeneratePseudoLegalMoves`. */
  function Pseudo(s: Snapshot): seq<Move>
    requires Shaped(s)
  {
    ScanFrom(s, 0)
  }

  /**
   * Every pseudo-legal move moves a piece of the side to move and has the
   * shape `makeMove` and `undoMove` rely on (RoundTrip.WellFormedMove).
   */
  lemma PseudoWellFormed(s: Snapshot)
    requires Shaped(s)
    ensures forall m :: m in Pseudo(s) ==> WellFormedMove(s, m) && PieceColor(m.piece) == s.sideToMove
  {
    ScanFromShape(s, 0);
  }

  lemma PseudoShaped(s: Snapshot)
    requires Shaped(s)
    ensures forall m :: m in Pseudo(s) ==> MoveShaped(m)
  {
    PseudoWellFormed(s);
  }

  /** The pseudo-legal moves in `ms` that `makeMove` accepts, in order. */
  function LegalFilter(s: Snapshot, ms: seq<Move>): (r: seq<Move>)
    requires Shaped(s) && forall m :: m in ms ==> MoveShaped(m)
    ensures |r| <= |ms|
  {
    if |ms| == 0 then []
    else (if Accepts(s, ms[0]) then [ms[0]] else []) + LegalFilter(s, ms[1..])
  }

  /** A move survives the filter exactly when it was offered and `makeMove` accepts it. */
  lemma {:induction false} LegalFilterMembers(s: Snapshot, ms: seq<Move>)
    requires Shaped(s) && forall m :: m in ms ==> MoveShaped(m)
    ensures forall m :: m in LegalFilter(s, ms) <==> m in ms && Accepts(s, m)
  {
    if |ms| > 0 {
      LegalFilterMembers(s, ms[1..]);
      assert ms == [ms[0]] + ms[1..];
    }
  }

  /** `GenerateLegalMoves`. */
  function LegalMoves(s: Snapshot): seq<Move>
    requires Shaped(s)
  {
    PseudoShaped(s);
    LegalFilter(s, Pseudo(s))
  }

  /** The legal moves are the pseudo-legal moves that do not leave the mover in check. */
  lemma LegalMovesMembers(s: Snapshot)
    requires Shaped(s)
    ensures forall m :: m in Pseudo(s) ==> MoveShaped(m)
    ensures forall m :: m in LegalMoves(s) <==> m in Pseudo(s) && Accepts(s, m)
  {
    PseudoShaped(s);
    LegalFilterMembers(s, Pseudo(s));
  }

  // ---------------------------------------------------------------------------
  // The generators as the source writes them, on a Position

  /** The single and double pushes of `gen_white_pawns` / `gen_black_pawns`. */
  method GenPawnPushes(pos: Position, sq: int, white: bool) returns (r: seq<Move>)
    requires pos.Valid() && IsOnBoard(sq)
    ensures r == PawnPushes(pos.Model(), sq, white)
  {
    var piece := pos.board[sq];
    var rank := RankOf(sq);
    var oneStep := sq + PawnDir(white);
    var twoStep := sq + 2 * PawnDir(white);
    var promos := Promos(white);
    r := [];
    // Single push
    if IsOnBoard(oneStep) && pos.board[oneStep] == EMPTY {
      if rank == PromoRank(white) {
        // Promotions
        r := r + [NewMove(sq, oneStep, piece, EMPTY, promos[0], MF_PROMOTION)];
        r := r + [NewMove(sq, oneStep, piece, EMPTY, promos[1], MF_PROMOTION)];
        r := r + [NewMove(sq, oneStep, piece, EMPTY, promos[2], MF_PROMOTION)];
        r := r + [NewMove(sq, oneStep, piece, EMPTY, promos[3], MF_PROMOTION)];
      } else {
        r := r + [NewMove(sq, oneStep, piece)];
        // Double push from the start rank
        if rank == StartRank(white) && pos.board[twoStep] == EMPTY {
          r := r + [NewMove(sq, twoStep, piece)];
        }
      }
    }
  }

  /** One iteration of the capture loop: the capture onto `to`, if any. */
  method GenPawnCapture(pos: Position, sq: int, to: int, white: bool) returns (r: seq<Move>)
    requires pos.Valid() && IsOnBoard(sq)
    ensures r == PawnCapture(pos.Model(), sq, to, white)
  {
    r := [];
    if !IsOnBoard(to) {
      return;
    }
    var piece := pos.board[sq];
    var promos := Promos(white);
    var target := pos.board[to];
    if target != EMPTY && PieceColor(target) == (if white then Black else White) {
      if RankOf(sq) == PromoRank(white) {
        // Promotions with captures
        r := r + [NewMove(sq, to, piece, target, promos[0], MF_PROMOTION | MF_CAPTURE)];
        r := r + [NewMove(sq, to, piece, target, promos[1], MF_PROMOTION | MF_CAPTURE)];
        r := r + [NewMove(sq, to, piece, target, promos[2], MF_PROMOTION | MF_CAPTURE)];
        r := r + [NewMove(sq, to, piece, target, promos[3], MF_PROMOTION | MF_CAPTURE)];
      } else {
        r := r + [NewMove(sq, to, piece, target, EMPTY, MF_CAPTURE)];
      }
    }
  }

  /** One iteration of the en-passant loop. */
  method GenPawnEnPassant(pos: Position, sq: int, to: int, white: bool) returns (r: seq<Move>)
    requires pos.Valid() && IsOnBoard(sq) && to in PawnCaps(sq, white) && pos.epSquare != -1
    ensures r == PawnEnPassant(pos.Model(), sq, to, white)
  {
    r := [];
    if to == pos.epSquare {
      BehindOnBoard(sq, to, white);
      var behind := to - PawnDir(white);
      var capturedPiece := pos.board[behind];
      if capturedPiece == (if white then BP else WP) {
        r := [NewMove(sq, to, pos.board[sq], capturedPiece, EMPTY, MF_EN_PASSANT | MF_CAPTURE)];
      }
    }
  }

  /** The capture loop of `gen_white_pawns` / `gen_black_pawns`. */
  method GenPawnCaptures(pos: Position, moves: seq<Move>, sq: int, white: bool) returns (res: seq<Move>)
    requires pos.Valid() && IsOnBoard(sq)
    ensures res == moves + PawnCaptures(pos.Model(), sq, white, 0)
  {
    ghost var s := pos.Model();
    var caps := PawnCaps(sq, white);
    res := moves;
    for i := 0 to 2
      invariant res + PawnCaptures(s, sq, white, i) == moves + PawnCaptures(s, sq, white, 0)
    {
      var cap := GenPawnCapture(pos, sq, caps[i], white);
      assert PawnCaptures(s, sq, white, i) == cap + PawnCaptures(s, sq, white, i + 1);
      AppendAssoc3(res, cap, PawnCaptures(s, sq, white, i + 1));
      res := res + cap;
    }
  }

  /** The en-passant loop of `gen_white_pawns` / `gen_black_pawns`, run when an en-passant square is set. */
  method GenPawnEnPassants(pos: Position, moves: seq<Move>, sq: int, white: bool) returns (res: seq<Move>)
    requires pos.Valid() && IsOnBoard(sq) && pos.epSquare != -1
    ensures res == moves + PawnEnPassants(pos.Model(), sq, white, 0)
  {
    ghost var s := pos.Model();
    var caps := PawnCaps(sq, white);
    res := moves;
    for i := 0 to 2
      invariant res + PawnEnPassants(s, sq, white, i) == moves + PawnEnPassants(s, sq, white, 0)
    {
      var ep := GenPawnEnPassant(pos, sq, caps[i], white);
      assert PawnEnPassants(s, sq, white, i) == ep + PawnEnPassants(s, sq, white, i + 1);
      AppendAssoc3(res, ep, PawnEnPassants(s, sq, white, i + 1));
      res := res + ep;
    }
  }

  /**
   * `gen_white_pawns` and `gen_black_pawns` (movegen.cpp:12-129), which
   * differ only in direction: pushes, then the two captures, then en passant.
   */
  method GenPawnMoves(pos: Position, moves: seq<Move>, sq: int, white: bool) returns (res: seq<Move>)
    requires pos.Valid() && IsOnBoard(sq)
    ensures res == moves + PawnMoves(pos.Model(), sq, white)
  {
    ghost var s := pos.Model();
    var pushes := GenPawnPushes(pos, sq, white);
    res := GenPawnCaptures(pos, moves + pushes, sq, white);
    ghost var eps: seq<Move> := [];
    if pos.epSquare != -1 {
      eps := PawnEnPassants(s, sq, white, 0);
      res := GenPawnEnPassants(pos, res, sq, white);
    }
    AppendAssoc(moves, pushes, PawnCaptures(s, sq, white, 0), eps);
  }

  lemma AppendAssoc<T>(a: seq<T>, b: seq<T>, c: seq<T>, d: seq<T>)
    ensures a + b + c + d == a + (b + c + d)
  {
  }

  lemma AppendAssoc3<T>(a: seq<T>, b: seq<T>, c: seq<T>)
    ensures a + b + c == a + (b + c)
  {
  }

  /** `gen_knight_moves` and `gen_king_moves` (movegen.cpp:131-144, 170-183): one step per offset. */
  method GenStepMoves(pos: Position, moves: seq<Move>, sq: int, piece: int, offs: seq<int>)
    returns (res: seq<Move>)
    requires pos.Valid() && IsOnBoard(sq) && NonZero(offs)
    ensures res == moves + StepMoves(pos.Model(), sq, piece, offs, 0)
  {
    ghost var s := pos.Model();
    res := moves;
    for i := 0 to |offs|
      invariant res + StepMoves(s, sq, piece, offs, i) == moves + StepMoves(s, sq, piece, offs, 0)
    {
      var to := sq + offs[i];
      StepMovesStep(s, sq, piece, offs, i);
      if !IsOnBoard(to) {
        continue;
      }
      ghost var res0 := res;
      res := GenStep(pos, res, sq, to, piece);
      AppendAssoc3(res0, StepMove(s, sq, to, piece), StepMoves(s, sq, piece, offs, i + 1));
    }
  }

  /** The offsets are taken one at a time, skipping those that leave the board. */
  lemma StepMovesStep(s: Snapshot, sq: int, piece: int, offs: seq<int>, i: nat)
    requires Shaped(s) && IsOnBoard(sq) && NonZero(offs) && i < |offs|
    ensures !IsOnBoard(sq + offs[i]) ==> StepMoves(s, sq, piece, offs, i) == StepMoves(s, sq, piece, offs, i + 1)
    ensures IsOnBoard(sq + offs[i]) ==>
              StepMoves(s, sq, piece, offs, i) == StepMove(s, sq, sq + offs[i], piece) + StepMoves(s, sq, piece, offs, i + 1)
  {
    if !IsOnBoard(sq + offs[i]) {
      assert StepMoves(s, sq, piece, offs, i) == [] + StepMoves(s, sq, piece, offs, i + 1);
    }
  }

  /** One offset of `gen_step_moves`: a quiet move to an empty square, a capture of the other colour. */
  method GenStep(pos: Position, moves: seq<Move>, sq: int, to: int, piece: int) returns (res: seq<Move>)
    requires pos.Valid() && IsOnBoard(sq) && IsOnBoard(to) && to != sq
    ensures res == moves + StepMove(pos.Model(), sq, to, piece)
  {
    var target := pos.board[to];
    if target == EMPTY {
      res := moves + [NewMove(sq, to, piece)];
    } else if PieceColor(target) != PieceColor(piece) {
      res := moves + [NewMove(sq, to, piece, target, EMPTY, MF_CAPTURE)];
    } else {
      res := moves;
      assert res == moves + [];
    }
  }

  /** `gen_slider_moves` (movegen.cpp:146-168): each ray until the board edge or the first piece. */
  method GenSliderMoves(pos: Position, moves: seq<Move>, sq: int, piece: int, dirs: seq<int>)
    returns (res: seq<Move>)
    requires pos.Valid() && IsOnBoard(sq) && NonZero(dirs)
    ensures res == moves + SliderMoves(pos.Model(), sq, piece, dirs, 0)
  {
    ghost var s := pos.Model();
    res := moves;
    for d := 0 to |dirs|
      invariant res + SliderMoves(s, sq, piece, dirs, d) == moves + SliderMoves(s, sq, piece, dirs, 0)
    {
      ghost var res0 := res;
      res := GenRay(pos, res, sq, piece, dirs[d]);
      AppendAssoc3(res0, RayMoves(s, sq, piece, sq, dirs[d]), SliderMoves(s, sq, piece, dirs, d + 1));
    }
  }

  /** One direction of `gen_slider_moves`: empty squares, then a capture of the first enemy piece. */
  method GenRay(pos: Position, moves: seq<Move>, sq: int, piece: int, delta: int) returns (res: seq<Move>)
    requires pos.Valid() && IsOnBoard(sq) && delta != 0
    ensures res == moves + RayMoves(pos.Model(), sq, piece, sq, delta)
  {
    ghost var s := pos.Model();
    var us := PieceColor(piece);
    var to := sq;
    res := moves;
    while true
      invariant 0 <= to < 128 && (if delta > 0 then to >= sq else to <= sq)
      invariant res + RayMoves(s, sq, piece, to, delta) == moves + RayMoves(s, sq, piece, sq, delta)
      decreases if delta > 0 then 128 - to else to
    {
      ghost var from := to;
      ghost var res0 := res;
      to := to + delta;
      if !IsOnBoard(to) {
        assert res == moves + RayMoves(s, sq, piece, sq, delta);
        break;
      }
      var target := pos.board[to];
      if target == EMPTY {
        res := res + [NewMove(sq, to, piece)];
        assert RayMoves(s, sq, piece, from, delta) == [NewMove(sq, to, piece)] + RayMoves(s, sq, piece, to, delta);
      } else {
        if PieceColor(target) != us {
          res := res + [NewMove(sq, to, piece, target, EMPTY, MF_CAPTURE)];
        }
        assert res == res0 + RayMoves(s, sq, piece, from, delta);
        assert res == moves + RayMoves(s, sq, piece, sq, delta);
        break;
      }
    }
  }

  /** The three `isSquareAttacked` tests of one castling side, stopping at the first attacked square. */
  method NoneAttacked(pos: Position, a: int, b: int, c: int, them: Color) returns (ok: bool)
    requires pos.Valid() && IsOnBoard(a) && IsOnBoard(b) && IsOnBoard(c)
    ensures ok == (!Attacked(pos.board[..], a, them) && !Attacked(pos.board[..], b, them)
                   && !Attacked(pos.board[..], c, them))
  {
    var attacked := pos.IsSquareAttacked(a, them);
    if attacked { return false; }
    attacked := pos.IsSquareAttacked(b, them);
    if attacked { return false; }
    attacked := pos.IsSquareAttacked(c, them);
    return !attacked;
  }

  /** The king-side half of one colour's block of `gen_castling`. */
  method GenShortCastle(pos: Position, e: int, kingPiece: int, bit: bv8, them: Color) returns (r: seq<Move>)
    requires pos.Valid() && HomeRank(e)
    ensures r == CastleMove(ShortCastleOk(pos.board[..], pos.castlingRights, bit, e, them), e, e + 2, kingPiece)
  {
    var f := e + 1;
    var g := e + 2;
    r := [];
    if pos.castlingRights & bit != 0 {
      if pos.board[f] == EMPTY && pos.board[g] == EMPTY {
        var safe := NoneAttacked(pos, e, f, g, them);
        if safe {
          r := [NewMove(e, g, kingPiece, EMPTY, EMPTY, MF_CASTLING)];
        }
      }
    }
  }

  /** The queen-side half: b may be attacked, but must be empty. */
  method GenLongCastle(pos: Position, e: int, kingPiece: int, bit: bv8, them: Color) returns (r: seq<Move>)
    requires pos.Valid() && HomeRank(e)
    ensures r == CastleMove(LongCastleOk(pos.board[..], pos.castlingRights, bit, e, them), e, e - 2, kingPiece)
  {
    var d := e - 1;
    var c := e - 2;
    var bsq := e - 3;
    r := [];
    if pos.castlingRights & bit != 0 {
      if pos.board[d] == EMPTY && pos.board[c] == EMPTY && pos.board[bsq] == EMPTY {
        var safe := NoneAttacked(pos, e, d, c, them);
        if safe {
          r := [NewMove(e, c, kingPiece, EMPTY, EMPTY, MF_CASTLING)];
        }
      }
    }
  }

  /** One colour's block of `gen_castling` (movegen.cpp:190-239): king side, then queen side. */
  method GenCastleSides(pos: Position, moves: seq<Move>, e: int, kingPiece: int,
                        shortBit: bv8, longBit: bv8, them: Color) returns (res: seq<Move>)
    requires pos.Valid() && HomeRank(e)
    ensures res == moves + CastleSides(pos.Model(), e, kingPiece, shortBit, longBit, them)
  {
    var short := GenShortCastle(pos, e, kingPiece, shortBit, them);
    var long := GenLongCastle(pos, e, kingPiece, longBit, them);
    res := moves + short + long;
  }

  /** `gen_castling` (movegen.cpp:185-240). */
  method GenCastling(pos: Position, moves: seq<Move>, kingSq: int, kingPiece: int) returns (res: seq<Move>)
    requires pos.Valid() && IsOnBoard(kingSq)
    ensures res == moves + CastlingMoves(pos.Model(), kingSq, kingPiece)
  {
    var us := PieceColor(kingPiece);
    var them := Opposite(us);
    if us == White && kingSq == MakeSquare(4, 0) {
      res := GenCastleSides(pos, moves, kingSq, kingPiece, WK_CASTLE, WQ_CASTLE, them);
    } else if us == Black && kingSq == MakeSquare(4, 7) {
      res := GenCastleSides(pos, moves, kingSq, kingPiece, BK_CASTLE, BQ_CASTLE, them);
    } else {
      res := moves;
    }
  }

  /** The `switch` on the piece type in `GeneratePseudoLegalMoves` (movegen.cpp:251-290). */
  method GenPieceMoves(pos: Position, moves: seq<Move>, sq: int) returns (res: seq<Move>)
    requires pos.Valid() && IsOnBoard(sq)
    ensures res == moves + PieceMoves(pos.Model(), sq)
  {
    var us := pos.sideToMove;
    var piece := pos.board[sq];
    if piece == EMPTY || PieceColor(piece) != us {
      return moves;
    }
    var pt := PieceType(piece);
    if pt == WP {
      res := GenPawnMoves(pos, moves, sq, us == White);
    } else if pt == WN {
      res := GenStepMoves(pos, moves, sq, piece, KnightOffsets);
    } else if pt == WB {
      res := GenSliderMoves(pos, moves, sq, piece, BishopOffsets);
    } else if pt == WR {
      res := GenSliderMoves(pos, moves, sq, piece, RookOffsets);
    } else if pt == WQ {
      res := GenSliderMoves(pos, moves, sq, piece, BishopOffsets);
      res := GenSliderMoves(pos, res, sq, piece, RookOffsets);
      AppendAssoc3(moves, SliderMoves(pos.Model(), sq, piece, BishopOffsets, 0),
                   SliderMoves(pos.Model(), sq, piece, RookOffsets, 0));
    } else if pt == WK {
      res := GenStepMoves(pos, moves, sq, piece, KingOffsets);
      res := GenCastling(pos, res, sq, piece);
      AppendAssoc3(moves, StepMoves(pos.Model(), sq, piece, KingOffsets, 0), CastlingMoves(pos.Model(), sq, piece));
    } else {
      res := moves;
    }
  }

  /** `GeneratePseudoLegalMoves` (movegen.cpp:243-292): every piece of the side to move, in square order. */
  method GeneratePseudoLegalMoves(pos: Position) returns (moves: seq<Move>)
    requires pos.Valid()
    ensures moves == Pseudo(pos.Model())
  {
    ghost var s := pos.Model();
    moves := [];
    var sq := 0;
    while sq < 128
      invariant 0 <= sq && sq % 16 <= 8
      invariant moves + ScanFrom(s, sq) == ScanFrom(s, 0)
      decreases 128 - sq
    {
      if !IsOnBoard(sq) {
        ScanSkips(s, sq);
        sq := sq + 8;
        continue;
      }
      ghost var moves0 := moves;
      moves := GenPieceMoves(pos, moves, sq);
      ScanSteps(s, sq);
      AppendAssoc3(moves0, PieceMoves(s, sq), ScanFrom(s, sq + 1));
      sq := sq + 1;
    }
  }

  /** The scan passes over the padding half of a rank. */
  lemma ScanSkips(s: Snapshot, sq: int)
    requires Shaped(s) && 0 <= sq < 128 && sq % 16 <= 8 && !IsOnBoard(sq)
    ensures (sq + 8) % 16 == 0
    ensures ScanFrom(s, sq) == ScanFrom(s, sq + 8)
  {
    var r := sq / 16;
    assert sq == 16 * r + 8;
    assert sq + 8 == 16 * (r + 1);
  }

  /** The scan takes the moves of an on-board square, then moves on to the next square. */
  lemma ScanSteps(s: Snapshot, sq: int)
    requires Shaped(s) && IsOnBoard(sq)
    ensures (sq + 1) % 16 <= 8
    ensures ScanFrom(s, sq) == PieceMoves(s, sq) + ScanFrom(s, sq + 1)
  {
    NextSquare(sq);
    ScanUnfolds(s, sq);
  }

  lemma NextSquare(sq: int)
    requires IsOnBoard(sq)
    ensures 0 <= sq + 1 && (sq + 1) % 16 <= 8
  {
  }

  lemma ScanUnfolds(s: Snapshot, sq: int)
    requires Shaped(s) && IsOnBoard(sq) && 0 <= sq + 1 && (sq + 1) % 16 <= 8
    ensures ScanFrom(s, sq) == PieceMoves(s, sq) + ScanFrom(s, sq + 1)
  {
  }

  /** `Position tmp = pos; tmp.makeMove(m)`: whether `makeMove` accepts `m` on a copy of `pos`. */
  method TryOnCopy(pos: Position, m: Move) returns (ok: bool)
    requires pos.Valid() && MoveShaped(m)
    ensures ok == Accepts(pos.Model(), m)
  {
    var tmp := new Position.Copy(pos);
    ok := tmp.MakeMove(m);
  }

  /** The filter decides on `ms[i]`, then goes on with the rest. */
  lemma LegalFilterStep(s: Snapshot, ms: seq<Move>, i: int)
    requires Shaped(s) && (forall m :: m in ms ==> MoveShaped(m)) && 0 <= i < |ms|
    ensures LegalFilter(s, ms[i..]) == (if Accepts(s, ms[i]) then [ms[i]] else []) + LegalFilter(s, ms[i + 1..])
  {
    assert ms[i..][1..] == ms[i + 1..];
  }

  /**
   * `GenerateLegalMoves` (movegen.cpp:295-305): each pseudo-legal move is
   * tried on a copy of the position and kept when `makeMove` accepts it.
   */
  method GenerateLegalMoves(pos: Position) returns (moves: seq<Move>)
    requires pos.Valid()
    ensures moves == LegalMoves(pos.Model())
  {
    ghost var s := pos.Model();
    var pseudo := GeneratePseudoLegalMoves(pos);
    PseudoShaped(s);
    moves := [];
    for i := 0 to |pseudo|
      invariant moves + LegalFilter(s, pseudo[i..]) == LegalFilter(s, pseudo)
    {
      ghost var moves0 := moves;
      moves := KeepIfLegal(pos, moves, pseudo[i]);
      LegalFilterStep(s, pseudo, i);
      AppendAssoc3(moves0, if Accepts(s, pseudo[i]) then [pseudo[i]] else [], LegalFilter(s, pseudo[i + 1..]));
    }
    assert pseudo[|pseudo|..] == [];
  }

  /** One step of the legality filter: append `m` when `makeMove` accepts it on a copy. */
  method KeepIfLegal(pos: Position, moves: seq<Move>, m: Move) returns (res: seq<Move>)
    requires pos.Valid() && MoveShaped(m)
    ensures res == moves + (if Accepts(pos.Model(), m) then [m] else [])
  {
    var ok := TryOnCopy(pos, m);
    if ok {
      res := moves + [m];
    } else {
      res := moves;
      assert res == moves + [];
    }
  }
}
