/**
 * The game session of src/engine_session.h and src/engine_session.cpp: one
 * `Position`, the side the human plays, and the engine configuration. The
 * human's move arrives as coordinate text ("e2e4", "e7e8q") and is matched
 * against the legal move list; the engine's move comes from the search.
 *
 * The wall clock follows the search's tick model: reading it sees the
 * current count and advances it by one, and the think time is a number of
 * ticks.
 */
module Session {
  import opened Types
  import opened Moves
  import opened Squares
  import opened Rules
  import opened RoundTrip
  import opened Positions
  import opened MoveGen
  import opened Search
  import opened Display

  datatype GameResult = Ongoing | Checkmate | Stalemate

  /** `EngineConfig` (engine_session.h:11-14). */
  datatype EngineConfig = EngineConfig(maxDepth: int, thinkTimeMs: int)

  /** The configuration the session is built with when none is given. */
  const DefaultConfig := EngineConfig(10, 2000)

  /** What `applyHumanMove` reports: the move it played, or the error text it stored. */
  datatype HumanMoveResult = Applied(move: Move) | Rejected(error: string)

  // ---------------------------------------------------------------------------
  // Parsing

  /** `parseSquare` (engine_session.cpp:5-14): a file letter a-h and a rank digit 1-8, or -1. */
  function ParseSquare(t: string): (sq: int)
    ensures sq == -1 || IsOnBoard(sq)
  {
    if |t| != 2 then -1
    else if t[0] < 'a' || t[0] > 'h' then -1
    else if t[1] < '1' || t[1] > '8' then -1
    else
      var file := t[0] as int - 'a' as int;
      var rank := t[1] as int - '1' as int;
      MakeSquareRoundTrip(file, rank);
      MakeSquare(file, rank)
  }

  /**
   * `parseSquare` accepts exactly the two-character names of the 64
   * squares, and the square it returns has the named file and rank.
   */
  lemma ParseSquareAccepts(t: string)
    ensures ParseSquare(t) != -1 <==> |t| == 2 && 'a' <= t[0] <= 'h' && '1' <= t[1] <= '8'
    ensures ParseSquare(t) != -1 ==>
              FileOf(ParseSquare(t)) == t[0] as int - 'a' as int && RankOf(ParseSquare(t)) == t[1] as int - '1' as int
  {
    if |t| == 2 && 'a' <= t[0] <= 'h' && '1' <= t[1] <= '8' {
      MakeSquareRoundTrip(t[0] as int - 'a' as int, t[1] as int - '1' as int);
    }
  }

  /**
   * Square names and on-board squares correspond one to one: the name
   * `printBoard` writes for a square parses back to it, and a name that
   * parses is the name of the square it gives.
   */
  lemma SquareNameRoundTrip(sq: int, t: string)
    ensures IsOnBoard(sq) ==> ParseSquare(EpText(sq)) == sq
    ensures ParseSquare(t) != -1 ==> EpText(ParseSquare(t)) == t
  {
    if IsOnBoard(sq) {
      EpTextOfSquare(sq);
      OnBoardDecomposes(sq);
      ParseSquareAccepts(EpText(sq));
    }
    if ParseSquare(t) != -1 {
      ParseSquareAccepts(t);
      var p := ParseSquare(t);
      EpTextOfSquare(p);
      assert EpText(p)[0] == t[0] && EpText(p)[1] == t[1];
    }
  }

  /** `promotionFromChar` (engine_session.cpp:16-24): q, r, b, n in either case, as a piece of `side`. */
  function PromotionFromChar(c: char, side: Color): int {
    if c == 'q' || c == 'Q' then (if side == White then WQ else BQ)
    else if c == 'r' || c == 'R' then (if side == White then WR else BR)
    else if c == 'b' || c == 'B' then (if side == White then WB else BB)
    else if c == 'n' || c == 'N' then (if side == White then WN else BN)
    else EMPTY
  }

  /** ASCII lower case. */
  function LowerAscii(c: char): char {
    if 'A' <= c <= 'Z' then (c as int + 32) as char else c
  }

  /**
   * A promotion letter gives a queen, rook, bishop or knight of `side`
   * (Black for any side other than White), written with the same letter
   * by `pieceToChar`; every other character gives EMPTY.
   */
  lemma PromotionLetters(c: char, side: Color)
    ensures PromotionFromChar(c, side) != EMPTY <==> c in "qrbnQRBN"
    ensures var p := PromotionFromChar(c, side);
      p != EMPTY ==>
        && PieceColor(p) == (if side == White then White else Black)
        && PieceType(p) in {WQ, WR, WB, WN}
        && LowerAscii(PieceToChar(p)[0]) == LowerAscii(c)
  {
  }

  // ---------------------------------------------------------------------------
  // Matching the human's move

  /** The test of engine_session.cpp:55-61: same squares, and a promotion letter exactly for a promotion. */
  predicate Matches(m: Move, from: int, to: int, promo: int) {
    && m.from == from && m.to == to
    && (if IsPromotion(m) then promo != EMPTY && m.promotion == promo else promo == EMPTY)
  }

  /** The first move of `ms` that matches, as the loop of engine_session.cpp:54-69 finds it. */
  function FirstMatch(ms: seq<Move>, from: int, to: int, promo: int): (r: Option<Move>)
    ensures r.Some? ==> r.value in ms && Matches(r.value, from, to, promo)
    ensures r.None? <==> forall m :: m in ms ==> !Matches(m, from, to, promo)
  {
    if |ms| == 0 then None
    else if Matches(ms[0], from, to, promo) then Some(ms[0])
    else FirstMatch(ms[1..], from, to, promo)
  }

  /** The fifth character, when there is one, read as a promotion piece for the side to move. */
  function PromotionOf(input: string, side: Color): int {
    if |input| >= 5 then PromotionFromChar(input[4], side) else EMPTY
  }

  /** What `applyHumanMove` does: its report, and the position after it. */
  datatype HumanTurn = HumanTurn(result: HumanMoveResult, after: Snapshot)

  /** `applyHumanMove` (engine_session.cpp:26-73) on the position `s`. */
  function HumanMove(s: Snapshot, input: string): HumanTurn
    requires Shaped(s)
  {
    if |input| < 4 then HumanTurn(Rejected("Move too short"), s)
    else
      var from := ParseSquare(input[0..2]);
      var to := ParseSquare(input[2..4]);
      if from == -1 || to == -1 then HumanTurn(Rejected("Invalid square"), s)
      else
        var promo := PromotionOf(input, s.sideToMove);
        if |input| >= 5 && promo == EMPTY then HumanTurn(Rejected("Invalid promotion piece"), s)
        else
          LegalWellFormed(s);
          match FirstMatch(LegalMoves(s), from, to, promo)
          case None => HumanTurn(Rejected("Move not found in legal moves"), s)
          case Some(m) =>
            var made := MakeResult(s, m);
            HumanTurn(if made.ok then Applied(m) else Rejected("Illegal move (makeMove rejected)"), made.pos)
  }

  /**
   * A move `applyHumanMove` plays is a legal move from the named square to
   * the named square, carrying the named promotion piece exactly when it
   * is a promotion, and `makeMove` accepts it; the "makeMove rejected"
   * error is never produced.
   */
  lemma HumanMoveIsLegal(s: Snapshot, input: string)
    requires Shaped(s)
    ensures forall m :: m in LegalMoves(s) ==> MoveShaped(m)
    ensures HumanMove(s, input).result != Rejected("Illegal move (makeMove rejected)")
    ensures var r := HumanMove(s, input).result;
      r.Applied? ==>
        && |input| >= 4
        && r.move in LegalMoves(s)
        && MakeResult(s, r.move).ok
        && HumanMove(s, input).after == MakeResult(s, r.move).pos
        && Matches(r.move, ParseSquare(input[0..2]), ParseSquare(input[2..4]), PromotionOf(input, s.sideToMove))
  {
    LegalMovesMembers(s);
    LegalWellFormed(s);
  }

  /**
   * On a position the engine can reach, every error leaves the position
   * as it was, and a played move leaves one it can reach again.
   */
  lemma HumanMoveKeepsPosition(s: Snapshot, input: string)
    requires Consistent(s)
    ensures HumanMove(s, input).result.Rejected? ==> HumanMove(s, input).after == s
    ensures Consistent(HumanMove(s, input).after)
  {
    LegalWellFormed(s);
    if |input| >= 4 {
      var from := ParseSquare(input[0..2]);
      var to := ParseSquare(input[2..4]);
      var promo := PromotionOf(input, s.sideToMove);
      var f := FirstMatch(LegalMoves(s), from, to, promo);
      if f.Some? {
        RejectedMoveRestores(s, f.value);
        MakeKeepsConsistent(s, f.value);
      }
    }
  }

  /** A move is reported exactly when the text parses and no legal move matches it. */
  lemma HumanMoveNotFound(s: Snapshot, input: string)
    requires Shaped(s)
    ensures HumanMove(s, input).result == Rejected("Move not found in legal moves") <==>
      && |input| >= 4
      && ParseSquare(input[0..2]) != -1 && ParseSquare(input[2..4]) != -1
      && (|input| >= 5 ==> PromotionOf(input, s.sideToMove) != EMPTY)
      && forall m :: m in LegalMoves(s) ==>
           !Matches(m, ParseSquare(input[0..2]), ParseSquare(input[2..4]), PromotionOf(input, s.sideToMove))
  {
  }

  /** Characters after the fifth are ignored. */
  lemma TrailingIgnored(s: Snapshot, input: string)
    requires Shaped(s) && |input| >= 5
    ensures HumanMove(s, input) == HumanMove(s, input[..5])
  {
    var short := input[..5];
    assert short[0..2] == input[0..2] && short[2..4] == input[2..4] && short[4] == input[4];
  }

  /**
   * Every legal move can be entered: its two square names, followed for a
   * promotion by a letter naming its promotion piece, are accepted and
   * play a legal move with the same squares and promotion piece.
   */
  lemma LegalMoveCanBeTyped(s: Snapshot, m: Move, c: char)
    requires Shaped(s) && m in LegalMoves(s)
    requires IsPromotion(m) ==> PromotionFromChar(c, s.sideToMove) == m.promotion != EMPTY
    ensures var input := EpText(m.from) + EpText(m.to) + (if IsPromotion(m) then [c] else []);
      var r := HumanMove(s, input).result;
      && r.Applied?
      && r.move.from == m.from && r.move.to == m.to
      && (IsPromotion(m) ==> r.move.promotion == m.promotion)
  {
    LegalMovesMembers(s);
    var input := EpText(m.from) + EpText(m.to) + (if IsPromotion(m) then [c] else []);
    SquareNameRoundTrip(m.from, "");
    SquareNameRoundTrip(m.to, "");
    assert input[0..2] == EpText(m.from) && input[2..4] == EpText(m.to);
    var promo := PromotionOf(input, s.sideToMove);
    assert IsPromotion(m) ==> promo == m.promotion;
    assert !IsPromotion(m) ==> promo == EMPTY;
    assert Matches(m, m.from, m.to, promo);
    HumanMoveIsLegal(s, input);
  }

  // ---------------------------------------------------------------------------
  // Game result and the engine's move

  /** `getGameResult` (engine_session.h:33-40) on the position `s`. */
  function ResultOf(s: Snapshot): GameResult
    requires Shaped(s)
  {
    if |LegalMoves(s)| > 0 then Ongoing
    else if InCheckOf(s.board, s.sideToMove) then Checkmate
    else Stalemate
  }

  /**
   * The session's verdict agrees with the search: on a finished game,
   * `alphaBeta` above the horizon scores the position -MATE_SCORE when it
   * is checkmate and 0 when it is stalemate, for any window.
   */
  lemma ResultMatchesSearch(s: Snapshot, depth: nat, alpha: int, beta: int, limits: SearchLimits, timeUp: bool, clock: int)
    requires Shaped(s) && depth > 0 && ResultOf(s) != Ongoing
    requires !limits.useTime || clock < limits.endTime
    ensures Node(TreeOf(s, depth), alpha, beta, limits, timeUp, clock).score
         == (if ResultOf(s) == Checkmate then -MATE_SCORE else 0)
  {
    ExpandLength(s, depth);
    OrderedMembers(s);
    assert TreeOf(s, depth) == Branch(s, depth);
  }

  /** Every move of the legal list is one the move generator shapes, so `makeMove` and `undoMove` handle it. */
  lemma LegalWellFormed(s: Snapshot)
    requires Shaped(s)
    ensures forall m :: m in LegalMoves(s) ==> MoveShaped(m) && WellFormedMove(s, m)
  {
    LegalMovesMembers(s);
    PseudoWellFormed(s);
  }

  /** The search loop of `applyHumanMove` (engine_session.cpp:54-70): the first move that matches, if any. */
  method FindMatch(moves: seq<Move>, from: int, to: int, promo: int) returns (r: Option<Move>)
    ensures r == FirstMatch(moves, from, to, promo)
  {
    for i := 0 to |moves|
      invariant FirstMatch(moves[i..], from, to, promo) == FirstMatch(moves, from, to, promo)
    {
      var m := moves[i];
      assert moves[i..][1..] == moves[i + 1..];
      if m.from == from && m.to == to {
        if HasFlag(m, MF_PROMOTION) {
          if promo == EMPTY {
            continue;
          }
          if m.promotion != promo {
            continue;
          }
        } else {
          if promo != EMPTY {
            continue;
          }
        }
        return Some(m);
      }
    }
    assert moves[|moves|..] == [];
    return None;
  }

  // ---------------------------------------------------------------------------
  // The session object

  class EngineSession {
    const config: EngineConfig
    var pos: Position
    var humanColor: Color

    ghost predicate Valid()
      reads this, pos, pos.board
    {
      pos.Valid() && Consistent(pos.Model())
    }

    /** `EngineSession(cfg)` (engine_session.h:18-21): the start position, the human playing White. */
    constructor (cfg: EngineConfig)
      ensures Valid() && fresh(pos) && fresh(pos.board)
      ensures config == cfg && humanColor == White
      ensures pos.Model() == StartPosition()
    {
      config := cfg;
      pos := new Position();
      humanColor := White;
      new;
      pos.SetStartPosition();
      InitialConsistent();
    }

    /** `newGame(humanSide)` (engine_session.h:23-26): the same position object, reset to the start. */
    method NewGame(humanSide: Color)
      requires Valid()
      modifies this, pos, pos.board
      ensures Valid() && pos == old(pos) && pos.board == old(pos.board)
      ensures humanColor == humanSide
      ensures pos.Model() == StartPosition()
    {
      pos.SetStartPosition();
      humanColor := humanSide;
      InitialConsistent();
    }

    /** `position()` (engine_session.h:28): the session's one position object, the same across new games. */
    function CurrentPosition(): Position
      reads this
    {
      pos
    }

    /** `sideToMove()` (engine_session.h:30): the side to move of the position the session holds. */
    function SideToMove(): Color
      reads this, pos
    {
      pos.sideToMove
    }

    /** `getHumanColor()` (engine_session.h:31). */
    function GetHumanColor(): Color
      reads this
    {
      humanColor
    }

    /** `getGameResult` (engine_session.h:33-40): it reads the position and changes nothing. */
    method GetGameResult() returns (r: GameResult)
      requires Valid()
      ensures r == ResultOf(pos.Model())
    {
      var moves := GenerateLegalMoves(pos);
      if |moves| > 0 {
        return Ongoing;
      }
      var check := pos.InCheck(pos.sideToMove);
      return if check then Checkmate else Stalemate;
    }

    /**
     * `applyHumanMove(input, outMove, error)` (engine_session.cpp:26-73):
     * the position advances by the move played, and stays as it was on
     * every error.
     */
    method ApplyHumanMove(input: string) returns (result: HumanMoveResult)
      requires Valid()
      modifies pos, pos.board
      ensures Valid() && pos.board == old(pos.board)
      ensures HumanTurn(result, pos.Model()) == HumanMove(old(pos.Model()), input)
    {
      ghost var s := pos.Model();
      if |input| < 4 {
        return Rejected("Move too short");
      }
      var fromSq := ParseSquare(input[0..2]);
      var toSq := ParseSquare(input[2..4]);
      if fromSq == -1 || toSq == -1 {
        return Rejected("Invalid square");
      }
      var promoPiece := EMPTY;
      if |input| >= 5 {
        promoPiece := PromotionFromChar(input[4], pos.sideToMove);
        if promoPiece == EMPTY {
          return Rejected("Invalid promotion piece");
        }
      }
      var moves := GenerateLegalMoves(pos);
      LegalWellFormed(s);
      var found := FindMatch(moves, fromSq, toSq, promoPiece);
      if found.None? {
        return Rejected("Move not found in legal moves");
      }
      var m := found.value;
      RejectedMoveRestores(s, m);
      MakeKeepsConsistent(s, m);
      var made := pos.MakeMove(m);
      if !made {
        return Rejected("Illegal move (makeMove rejected)");
      }
      return Applied(m);
    }

    /**
     * `applyEngineMove(outMove)` (engine_session.cpp:75-90) with the clock
     * at `clock`: the search runs to the configured depth with the deadline
     * `thinkTimeMs` ticks ahead, starting from the zero move. The engine
     * plays exactly when the search finds a move; that move is legal, and
     * `makeMove` always accepts it, so the second failure return is never
     * taken. Without a move the position stays as it was.
     */
    method ApplyEngineMove(clock: int) returns (ok: bool, outMove: Move, clockOut: int)
      requires Valid()
      modifies pos, pos.board
      ensures Valid() && pos.board == old(pos.board)
      ensures SearchOutcome(ok, outMove, clockOut)
           == BestMove(old(pos.Model()), config.maxDepth, SearchLimits(true, clock + config.thinkTimeMs), NoMove, clock + 1)
      ensures ok ==> outMove in LegalMoves(old(pos.Model())) && pos.Model() == MakeResult(old(pos.Model()), outMove).pos
      ensures !ok ==> pos.Model() == old(pos.Model())
    {
      ghost var s := pos.Model();
      var found, best, now := SearchBestMove(pos, config.maxDepth, SearchLimits(true, clock + config.thinkTimeMs), NoMove, clock + 1);
      if !found {
        return false, best, now;
      }
      LegalWellFormed(s);
      LegalMovesMembers(s);
      MakeKeepsConsistent(s, best);
      var made := pos.MakeMove(best);
      if !made {
        assert false;
      }
      return true, best, now;
    }
  }
}