/**
 * The perft node counter of src/perft.cpp: the number of move sequences of
 * a given length from a position, each move generated pseudo-legally and
 * kept when `makeMove` accepts it. It is the oracle that checks the move
 * generator and the make/undo pair against published counts.
 */
module Perfts {
  import opened Types
  import opened Moves
  import opened Rules
  import opened RoundTrip
  import opened Positions
  import opened MoveGen

  /** `Perft(pos, depth)` (perft.cpp:4-27) on the position `s`. */
  function PerftCount(s: Snapshot, depth: nat): nat
    requires Shaped(s)
    decreases depth, 3, 0
  {
    if depth == 0 then 1 else PerftAll(s, depth)
  }

  /** Above depth 0: the count over every pseudo-legal move. */
  function PerftAll(s: Snapshot, depth: nat): nat
    requires Shaped(s) && depth > 0
    decreases depth, 2, 0
  {
    PseudoShaped(s);
    PerftSum(s, depth, Pseudo(s))
  }

  /** The loop of `Perft` over `ms`: each move `makeMove` accepts adds the count below it. */
  function PerftSum(s: Snapshot, depth: nat, ms: seq<Move>): nat
    requires Shaped(s) && depth > 0 && forall m :: m in ms ==> MoveShaped(m)
    decreases depth, 1, |ms|
  {
    if |ms| == 0 then 0 else MoveCount(s, depth, ms[0]) + PerftSum(s, depth, ms[1..])
  }

  /** What one move adds: the count below it, or nothing when `makeMove` refuses it. */
  function MoveCount(s: Snapshot, depth: nat, m: Move): nat
    requires Shaped(s) && depth > 0 && MoveShaped(m)
    decreases depth, 0, 0
  {
    if Accepts(s, m) then PerftCount(MakeResult(s, m).pos, depth - 1) else 0
  }

  /**
   * Counting over the pseudo-legal moves and skipping the ones `makeMove`
   * refuses is counting over the legal moves.
   */
  lemma {:induction false} PerftSumFilter(s: Snapshot, depth: nat, ms: seq<Move>)
    requires Shaped(s) && depth > 0 && forall m :: m in ms ==> MoveShaped(m)
    ensures forall m :: m in LegalFilter(s, ms) ==> MoveShaped(m)
    ensures PerftSum(s, depth, LegalFilter(s, ms)) == PerftSum(s, depth, ms)
  {
    LegalFilterMembers(s, ms);
    if |ms| > 0 {
      var x := ms[0];
      var rest := LegalFilter(s, ms[1..]);
      PerftSumFilter(s, depth, ms[1..]);
      assert x in ms;
      assert LegalFilter(s, ms) == (if Accepts(s, x) then [x] else []) + rest;
      if Accepts(s, x) {
        var f := [x] + rest;
        assert f[0] == x && f[1..] == rest;
        assert PerftSum(s, depth, f) == MoveCount(s, depth, x) + PerftSum(s, depth, rest);
      } else {
        assert MoveCount(s, depth, x) == 0;
        assert [] + rest == rest;
      }
    }
  }

  /** `Perft(pos, depth)` for depth > 0 sums the counts below the legal moves. */
  lemma PerftOverLegal(s: Snapshot, depth: nat)
    requires Shaped(s) && depth > 0
    ensures forall m :: m in LegalMoves(s) ==> MoveShaped(m)
    ensures PerftCount(s, depth) == PerftSum(s, depth, LegalMoves(s))
  {
    PseudoShaped(s);
    PerftSumFilter(s, depth, Pseudo(s));
    assert PerftCount(s, depth) == PerftAll(s, depth);
  }

  /** Over moves that are all accepted, counting one ply deep counts the moves. */
  lemma {:induction false} PerftSumOnes(s: Snapshot, ms: seq<Move>)
    requires Shaped(s) && forall m :: m in ms ==> MoveShaped(m) && Accepts(s, m)
    ensures PerftSum(s, 1, ms) == |ms|
  {
    if |ms| > 0 {
      assert ms[0] in ms;
      assert MoveCount(s, 1, ms[0]) == 1;
      PerftSumOnes(s, ms[1..]);
    }
  }

  /** `Perft(pos, 1)` is the number of legal moves. */
  lemma PerftOne(s: Snapshot)
    requires Shaped(s)
    ensures PerftCount(s, 1) == |LegalMoves(s)|
  {
    PerftOverLegal(s, 1);
    LegalMovesMembers(s);
    PerftSumOnes(s, LegalMoves(s));
  }

  /**
   * `Perft(pos, depth)` (perft.cpp:4-27): it counts in place and leaves the
   * position, its undo stack included, exactly as it found it, so the
   * stack-balance abort is never reached.
   */
  method Perft(pos: Position, depth: nat) returns (nodes: nat)
    requires pos.Valid() && Consistent(pos.Model())
    modifies pos, pos.board
    ensures pos.Valid() && pos.board == old(pos.board) && pos.Model() == old(pos.Model())
    ensures nodes == PerftCount(old(pos.Model()), depth)
    decreases depth, 2
  {
    if depth == 0 {
      return 1;
    }
    var stackBefore := |pos.stateStack|;
    var moves := GeneratePseudoLegalMoves(pos);
    nodes := CountMoves(pos, depth, moves);
    if |pos.stateStack| != stackBefore {
      assert false;
    }
  }

  /** The move loop shared by `Perft` and `PerftDivide` (perft.cpp:13-19, 33-41): the counts below each move, added up. */
  method CountMoves(pos: Position, depth: nat, moves: seq<Move>) returns (nodes: nat)
    requires pos.Valid() && Consistent(pos.Model()) && depth > 0 && moves == Pseudo(pos.Model())
    modifies pos, pos.board
    ensures pos.Valid() && pos.board == old(pos.board) && pos.Model() == old(pos.Model())
    ensures nodes == PerftCount(old(pos.Model()), depth)
    decreases depth, 1
  {
    ghost var s := pos.Model();
    PseudoWellFormed(s);
    nodes := 0;
    for i := 0 to |moves|
      invariant pos.Valid() && pos.board == old(pos.board) && pos.Model() == s
      invariant nodes + PerftSum(s, depth, moves[i..]) == PerftSum(s, depth, moves)
    {
      assert moves[i] in moves;
      var n := PerftMove(pos, s, depth, moves[i]);
      nodes := nodes + n;
    }
    assert moves[|moves|..] == [];
    assert PerftCount(s, depth) == PerftAll(s, depth);
  }

  /**
   * One pass of the move loop of `Perft` and `PerftDivide`
   * (perft.cpp:15-18, 35-39): make the move, count below it if `makeMove`
   * accepted it, and take it back.
   */
  method PerftMove(pos: Position, ghost s: Snapshot, depth: nat, m: Move) returns (n: nat)
    requires pos.Valid() && pos.Model() == s && Consistent(s) && depth > 0
    requires MoveShaped(m) && WellFormedMove(s, m)
    modifies pos, pos.board
    ensures pos.Valid() && pos.board == old(pos.board) && pos.Model() == s
    ensures n == MoveCount(s, depth, m)
    decreases depth, 0
  {
    RejectedMoveRestores(s, m);
    MoveCountOf(s, depth, m);
    var ok := pos.MakeMove(m);
    if ok {
      n := PerftReply(pos, s, m, depth - 1);
    } else {
      n := 0;
    }
  }

  /** What `MoveCount` is, in the two cases of `makeMove`. */
  lemma MoveCountOf(s: Snapshot, depth: nat, m: Move)
    requires Shaped(s) && depth > 0 && MoveShaped(m)
    ensures !MakeResult(s, m).ok ==> MoveCount(s, depth, m) == 0
    ensures MakeResult(s, m).ok ==> MoveCount(s, depth, m) == PerftCount(MakeResult(s, m).pos, depth - 1)
  {
  }

  /** After a move `makeMove` accepted (perft.cpp:16-17, 36-38): count below it and take it back. */
  method PerftReply(pos: Position, ghost s: Snapshot, ghost m: Move, depth: nat) returns (n: nat)
    requires Consistent(s) && MoveShaped(m) && WellFormedMove(s, m) && MakeResult(s, m).ok
    requires pos.Valid() && pos.Model() == MakeResult(s, m).pos
    modifies pos, pos.board
    ensures pos.Valid() && pos.board == old(pos.board) && pos.Model() == s
    ensures n == MoveCount(s, depth + 1, m)
    decreases depth, 3
  {
    AcceptedMoveUndoes(s, m);
    MakeKeepsConsistent(s, m);
    MoveCountOf(s, depth + 1, m);
    n := Perft(pos, depth);
    pos.UndoMove();
  }

  /**
   * `PerftDivide(pos, depth)` (perft.cpp:29-46) without its printing: the
   * per-move counts add up to `Perft(pos, depth)`. A depth of 0 would ask
   * `Perft` for depth -1, so the depth must be at least 1.
   */
  method PerftDivide(pos: Position, depth: nat) returns (total: nat)
    requires pos.Valid() && Consistent(pos.Model()) && depth >= 1
    modifies pos, pos.board
    ensures pos.Valid() && pos.board == old(pos.board) && pos.Model() == old(pos.Model())
    ensures total == PerftCount(old(pos.Model()), depth)
  {
    var moves := GeneratePseudoLegalMoves(pos);
    total := CountMoves(pos, depth, moves);
  }
}
