/**
 * Material evaluation, move ordering and the negamax alpha-beta search with
 * iterative deepening (src/search.cpp).
 *
 * The wall clock is replaced by a tick counter: every time the search reads
 * the clock it sees the current count and the count goes up by one, and the
 * deadline `endTime` is a count. The search is specified by the functions
 * Node, Loop, RootPass and Deepen on snapshots; the methods, which make and
 * undo moves on one shared `Position`, are proved to compute them and to
 * hand the position back unchanged.
 *
 * Scores are 32-bit `int`s in the source; the unary minus of the search is
 * Neg32, which sends INT_MIN to itself as two's complement does. The root
 * window of search.cpp:157 starts at INT_MIN and its negation at line 167
 * wraps; RootWindowAsWritten shows the move this costs, and the model starts
 * the window at -INT_MAX instead.
 */
module Search {
  import opened Types
  import opened Moves
  import opened Squares
  import opened Rules
  import opened RoundTrip
  import opened Positions
  import opened MoveGen

  const PAWN_VALUE := 100
  const KNIGHT_VALUE := 320
  const BISHOP_VALUE := 330
  const ROOK_VALUE := 500
  const QUEEN_VALUE := 900
  const MATE_SCORE := 100000

  const INT_MIN := -0x8000_0000
  const INT_MAX := 0x7fff_ffff

  /** The largest material sum a board can hold: 64 queens. */
  const MAX_MATERIAL := 64 * QUEEN_VALUE

  // ---------------------------------------------------------------------------
  // Material evaluation

  /** What one cell adds to White's material balance (search.cpp:26-62); kings and other codes count 0. */
  function PieceValue(p: int): int {
    if p == WP then PAWN_VALUE
    else if p == WN then KNIGHT_VALUE
    else if p == WB then BISHOP_VALUE
    else if p == WR then ROOK_VALUE
    else if p == WQ then QUEEN_VALUE
    else if p == BP then -PAWN_VALUE
    else if p == BN then -KNIGHT_VALUE
    else if p == BB then -BISHOP_VALUE
    else if p == BR then -ROOK_VALUE
    else if p == BQ then -QUEEN_VALUE
    else 0
  }

  /** The balance of the cells from `sq` on, in the scan order of `evaluateMaterial`. */
  function MaterialFrom(b: seq<int>, sq: int): int
    requires |b| == 128 && 0 <= sq && sq % 16 <= 8
    decreases 128 - sq
  {
    if sq >= 128 then 0
    else if !IsOnBoard(sq) then MaterialFrom(b, sq + 8)
    else PieceValue(b[sq]) + MaterialFrom(b, sq + 1)
  }

  /** `evaluateMaterial`: the balance, from the side to move's point of view. */
  function Evaluation(s: Snapshot): int
    requires |s.board| == 128
  {
    if s.sideToMove == White then MaterialFrom(s.board, 0) else -MaterialFrom(s.board, 0)
  }

  /** Each white piece but the king is worth something, its black twin as much against, anything else nothing. */
  lemma PieceValueSigns(p: int)
    ensures WP <= p < WK ==> PieceValue(p) > 0
    ensures WP <= p <= WK ==> PieceValue(p) == -PieceValue(p + (BP - WP))
    ensures p == WK || p == BK || !IsPieceCode(p) || p == EMPTY ==> PieceValue(p) == 0
    ensures -QUEEN_VALUE <= PieceValue(p) <= QUEEN_VALUE
  {
  }

  /** The number of on-board cells the scan still visits from cell `16 * r + f`. */
  function CellsLeft(r: int, f: int): int {
    64 - 8 * r - (if f < 8 then f else 8)
  }

  lemma DivMod16(sq: int, r: int, f: int)
    requires sq == 16 * r + f && 0 <= f < 16
    ensures sq / 16 == r && sq % 16 == f
  {
  }

  /** No board is worth more than 64 queens to either side. */
  lemma {:induction false} MaterialBounded(b: seq<int>, r: int, f: int)
    requires |b| == 128 && 0 <= r && 0 <= f <= 8 && (r < 8 || (r == 8 && f == 0))
    ensures -QUEEN_VALUE * CellsLeft(r, f) <= MaterialFrom(b, 16 * r + f) <= QUEEN_VALUE * CellsLeft(r, f)
    decreases 8 - r, 8 - f
  {
    var sq := 16 * r + f;
    DivMod16(sq, r, f);
    if r == 8 {
    } else if f == 8 {
      DivMod16(sq + 8, r + 1, 0);
      MaterialBounded(b, r + 1, 0);
    } else {
      DivMod16(sq + 1, r, f + 1);
      MaterialBounded(b, r, f + 1);
    }
  }

  /** The evaluation of any position lies strictly between the mate scores. */
  lemma EvaluationBounded(s: Snapshot)
    requires |s.board| == 128
    ensures -MAX_MATERIAL <= Evaluation(s) <= MAX_MATERIAL < MATE_SCORE
  {
    MaterialBounded(s.board, 0, 0);
  }

  /** The balance of one rank, files `f` to h. */
  function RankMaterial(b: seq<int>, r: int, f: int): int
    requires |b| == 128 && 0 <= r < 8 && 0 <= f <= 8
    decreases 8 - f
  {
    if f == 8 then 0 else PieceValue(b[16 * r + f]) + RankMaterial(b, r, f + 1)
  }

  /** The scan sums rank by rank. */
  lemma {:induction false} MaterialByRank(b: seq<int>, r: int, f: int)
    requires |b| == 128 && 0 <= r < 8 && 0 <= f <= 8
    ensures MaterialFrom(b, 16 * r + f) == RankMaterial(b, r, f) + MaterialFrom(b, 16 * (r + 1))
    decreases 8 - f
  {
    var sq := 16 * r + f;
    DivMod16(sq, r, f);
    if f == 8 {
      assert sq + 8 == 16 * (r + 1);
    } else {
      MaterialByRank(b, r, f + 1);
    }
  }

  /** File `g` of rank `r2` holds the black twin of the white piece on file `g` of rank `r1`. */
  predicate Mirrors(b: seq<int>, r1: int, r2: int, g: int)
    requires |b| == 128 && 0 <= r1 < 8 && 0 <= r2 < 8 && 0 <= g < 8
  {
    WP <= b[16 * r1 + g] <= WK && b[16 * r2 + g] == b[16 * r1 + g] + (BP - WP)
  }

  predicate EmptyCell(b: seq<int>, r: int, g: int)
    requires |b| == 128 && 0 <= r < 8 && 0 <= g < 8
  {
    b[16 * r + g] == EMPTY
  }

  /** A black rank mirroring a white one has the negated balance. */
  lemma {:induction false} MirroredRank(b: seq<int>, r1: int, r2: int, f: int)
    requires |b| == 128 && 0 <= r1 < 8 && 0 <= r2 < 8 && 0 <= f <= 8
    requires forall g :: f <= g < 8 ==> Mirrors(b, r1, r2, g)
    ensures RankMaterial(b, r2, f) == -RankMaterial(b, r1, f)
    decreases 8 - f
  {
    if f < 8 {
      assert Mirrors(b, r1, r2, f);
      PieceValueSigns(b[16 * r1 + f]);
      MirroredRank(b, r1, r2, f + 1);
    }
  }

  /** An empty rank is worth nothing. */
  lemma {:induction false} EmptyRank(b: seq<int>, r: int, f: int)
    requires |b| == 128 && 0 <= r < 8 && 0 <= f <= 8
    requires forall g :: f <= g < 8 ==> EmptyCell(b, r, g)
    ensures RankMaterial(b, r, f) == 0
    decreases 8 - f
  {
    if f < 8 {
      assert EmptyCell(b, r, f);
      EmptyRank(b, r, f + 1);
    }
  }

  /**
   * A board whose ranks 8 and 7 mirror its ranks 1 and 2 piece for piece,
   * with ranks 3 to 6 empty, is materially level.
   */
  lemma LevelWhenMirrored(b: seq<int>)
    requires |b| == 128
    requires forall g :: 0 <= g < 8 ==> Mirrors(b, 0, 7, g) && Mirrors(b, 1, 6, g)
    requires forall r, g :: 2 <= r < 6 && 0 <= g < 8 ==> EmptyCell(b, r, g)
    ensures MaterialFrom(b, 0) == 0
  {
    MaterialByRank(b, 0, 0);
    MaterialByRank(b, 1, 0);
    MaterialByRank(b, 2, 0);
    MaterialByRank(b, 3, 0);
    MaterialByRank(b, 4, 0);
    MaterialByRank(b, 5, 0);
    MaterialByRank(b, 6, 0);
    MaterialByRank(b, 7, 0);
    assert MaterialFrom(b, 128) == 0;
    MirroredRank(b, 0, 7, 0);
    MirroredRank(b, 1, 6, 0);
    forall r | 2 <= r < 6 ensures RankMaterial(b, r, 0) == 0 {
      EmptyRank(b, r, 0);
    }
  }

  /** The start position is materially level. */
  lemma StartIsLevel()
    ensures Evaluation(StartPosition()) == 0
  {
    var b := StartPosition().board;
    forall g | 0 <= g < 8 ensures Mirrors(b, 0, 7, g) && Mirrors(b, 1, 6, g) {
      assert b[16 * 7 + g] == BackRank[g] + (BP - WP);
    }
    forall r, g | 2 <= r < 6 && 0 <= g < 8 ensures EmptyCell(b, r, g) {
      assert b[16 * r + g] == StartPiece(16 * r + g);
    }
    LevelWhenMirrored(b);
  }

  /**
   * `evaluateMaterial` (search.cpp:17-70): sum the cells in square order,
   * jumping over the padding half of each rank, and negate for Black.
   */
  method EvaluateMaterial(pos: Position) returns (score: int)
    requires pos.Valid()
    ensures score == Evaluation(pos.Model())
  {
    ghost var b := pos.board[..];
    score := 0;
    var sq := 0;
    while sq < 128
      invariant 0 <= sq && sq % 16 <= 8
      invariant score + MaterialFrom(b, sq) == MaterialFrom(b, 0)
      decreases 128 - sq
    {
      if !IsOnBoard(sq) {
        PaddingSkip(b, sq);
        sq := sq + 8;
        continue;
      }
      score := score + PieceValue(pos.board[sq]);
      NextSquare(sq);
      sq := sq + 1;
    }
    if pos.sideToMove != White {
      score := -score;
    }
  }

  lemma PaddingSkip(b: seq<int>, sq: int)
    requires |b| == 128 && 0 <= sq < 128 && sq % 16 <= 8 && !IsOnBoard(sq)
    ensures (sq + 8) % 16 == 0
    ensures MaterialFrom(b, sq) == MaterialFrom(b, sq + 8)
  {
    var r := sq / 16;
    assert sq == 16 * r + 8 && sq + 8 == 16 * (r + 1);
  }

  // ---------------------------------------------------------------------------
  // Move ordering

  function Captures(ms: seq<Move>): (r: seq<Move>)
    ensures |r| <= |ms|
  {
    if |ms| == 0 then [] else (if IsCapture(ms[0]) then [ms[0]] else []) + Captures(ms[1..])
  }

  function Quiets(ms: seq<Move>): (r: seq<Move>)
    ensures |r| <= |ms|
  {
    if |ms| == 0 then [] else (if IsCapture(ms[0]) then [] else [ms[0]]) + Quiets(ms[1..])
  }

  /**
   * What `std::stable_sort` with the comparator "capture before non-capture"
   * leaves in the vector (search.cpp:103-107, 144-148): the captures in
   * generation order, then the other moves in generation order.
   */
  function CapturesFirst(ms: seq<Move>): seq<Move> {
    Captures(ms) + Quiets(ms)
  }

  /** No non-capture comes before a capture. */
  predicate CapturesLead(r: seq<Move>) {
    forall i, j :: 0 <= i < j < |r| && IsCapture(r[j]) ==> IsCapture(r[i])
  }

  lemma {:induction false} CapturesAreCaptures(ms: seq<Move>)
    ensures forall m :: m in Captures(ms) ==> IsCapture(m)
    ensures forall m :: m in Quiets(ms) ==> !IsCapture(m)
  {
    if |ms| > 0 {
      CapturesAreCaptures(ms[1..]);
    }
  }

  lemma {:induction false} SplitIsPermutation(ms: seq<Move>)
    ensures multiset(Captures(ms)) + multiset(Quiets(ms)) == multiset(ms)
  {
    if |ms| > 0 {
      SplitIsPermutation(ms[1..]);
      SplitConsCounts(ms);
      MultisetCons(ms);
    }
  }

  lemma MultisetCons(ms: seq<Move>)
    requires |ms| > 0
    ensures multiset(ms) == multiset{ms[0]} + multiset(ms[1..])
  {
    assert ms == [ms[0]] + ms[1..];
  }

  /** One step of SplitIsPermutation: the head of `ms` lands in exactly one of the two groups. */
  lemma SplitConsCounts(ms: seq<Move>)
    requires |ms| > 0
    ensures multiset(Captures(ms)) + multiset(Quiets(ms))
         == multiset{ms[0]} + (multiset(Captures(ms[1..])) + multiset(Quiets(ms[1..])))
  {
    var x, c, q := ms[0], Captures(ms[1..]), Quiets(ms[1..]);
    if IsCapture(x) {
      assert Captures(ms) == [x] + c;
      assert Quiets(ms) == [] + q == q;
    } else {
      assert Captures(ms) == [] + c == c;
      assert Quiets(ms) == [x] + q;
    }
  }

  /** The reordering is a permutation of the generated moves. */
  lemma CapturesFirstPermutes(ms: seq<Move>)
    ensures multiset(CapturesFirst(ms)) == multiset(ms)
    ensures forall m :: m in CapturesFirst(ms) <==> m in ms
  {
    SplitIsPermutation(ms);
    assert forall m :: m in CapturesFirst(ms) <==> m in multiset(CapturesFirst(ms));
  }

  /** In the reordering every capture precedes every non-capture. */
  lemma CapturesFirstLead(ms: seq<Move>)
    ensures CapturesLead(CapturesFirst(ms))
  {
    var c, q := Captures(ms), Quiets(ms);
    CapturesAreCaptures(ms);
    var r := c + q;
    forall k | |c| <= k < |r| ensures !IsCapture(r[k]) {
      assert r[k] == q[k - |c|];
    }
    forall i, j | 0 <= i < j < |r| && IsCapture(r[j]) ensures IsCapture(r[i]) {
      assert r[i] == c[i];
      assert r[i] in c;
    }
  }

  /** The reordering keeps the captures, and the other moves, in generation order. */
  lemma CapturesFirstStable(ms: seq<Move>)
    ensures Captures(CapturesFirst(ms)) == Captures(ms)
    ensures Quiets(CapturesFirst(ms)) == Quiets(ms)
  {
    var c, q := Captures(ms), Quiets(ms);
    CapturesAreCaptures(ms);
    AllCaptures(c);
    NoCaptures(q);
    CapturesConcat(c, q);
    QuietsConcat(c, q);
  }

  lemma {:induction false} AllCaptures(c: seq<Move>)
    requires forall m :: m in c ==> IsCapture(m)
    ensures Captures(c) == c && Quiets(c) == []
  {
    if |c| > 0 {
      AllCaptures(c[1..]);
    }
  }

  lemma {:induction false} NoCaptures(q: seq<Move>)
    requires forall m :: m in q ==> !IsCapture(m)
    ensures Captures(q) == [] && Quiets(q) == q
  {
    if |q| > 0 {
      NoCaptures(q[1..]);
    }
  }

  lemma {:induction false} CapturesConcat(a: seq<Move>, b: seq<Move>)
    ensures Captures(a + b) == Captures(a) + Captures(b)
  {
    if |a| > 0 {
      assert (a + b)[1..] == a[1..] + b;
      CapturesConcat(a[1..], b);
    } else {
      assert a + b == b;
    }
  }

  lemma {:induction false} QuietsConcat(a: seq<Move>, b: seq<Move>)
    ensures Quiets(a + b) == Quiets(a) + Quiets(b)
  {
    if |a| > 0 {
      assert (a + b)[1..] == a[1..] + b;
      QuietsConcat(a[1..], b);
    } else {
      assert a + b == b;
    }
  }

  /**
   * The stable captures-first order is the only one of its kind: any
   * sequence whose captures come first and whose two groups are those of
   * `ms`, in the same order, is `CapturesFirst(ms)`.
   */
  lemma {:induction false} StableOrderUnique(ms: seq<Move>, r: seq<Move>)
    requires CapturesLead(r)
    requires Captures(r) == Captures(ms) && Quiets(r) == Quiets(ms)
    ensures r == CapturesFirst(ms)
  {
    LeadSplits(r);
  }

  /** A sequence whose captures lead is its captures followed by its non-captures. */
  lemma {:induction false} LeadSplits(r: seq<Move>)
    requires CapturesLead(r)
    ensures r == Captures(r) + Quiets(r)
  {
    if |r| > 0 {
      LeadTail(r);
      LeadSplits(r[1..]);
      SplitCons(r);
      assert r == [r[0]] + r[1..];
    }
  }

  /** One step of LeadSplits: the split of `r` is its head in front of the split of its tail. */
  lemma SplitCons(r: seq<Move>)
    requires |r| > 0
    requires !IsCapture(r[0]) ==> forall m :: m in r[1..] ==> !IsCapture(m)
    ensures Captures(r) + Quiets(r) == [r[0]] + (Captures(r[1..]) + Quiets(r[1..]))
  {
    if IsCapture(r[0]) {
      SplitConsCapture(r);
    } else {
      NoCaptures(r[1..]);
      SplitConsQuiet(r);
    }
  }

  lemma SplitConsCapture(r: seq<Move>)
    requires |r| > 0 && IsCapture(r[0])
    ensures Captures(r) + Quiets(r) == [r[0]] + (Captures(r[1..]) + Quiets(r[1..]))
  {
    var x, c, q := r[0], Captures(r[1..]), Quiets(r[1..]);
    assert Captures(r) == [x] + c;
    assert Quiets(r) == [] + q == q;
    AppendAssoc3([x], c, q);
  }

  lemma SplitConsQuiet(r: seq<Move>)
    requires |r| > 0 && !IsCapture(r[0]) && Captures(r[1..]) == []
    ensures Captures(r) + Quiets(r) == [r[0]] + (Captures(r[1..]) + Quiets(r[1..]))
  {
    assert Captures(r) == [];
    assert Quiets(r) == [r[0]] + Quiets(r[1..]);
  }

  /** The tail of a sequence whose captures lead has its captures leading too, and none at all after a non-capture head. */
  lemma LeadTail(r: seq<Move>)
    requires CapturesLead(r) && |r| > 0
    ensures CapturesLead(r[1..])
    ensures !IsCapture(r[0]) ==> forall m :: m in r[1..] ==> !IsCapture(m)
  {
    var rest := r[1..];
    forall i, j | 0 <= i < j < |rest| && IsCapture(rest[j]) ensures IsCapture(rest[i]) {
      assert rest[j] == r[j + 1] && rest[i] == r[i + 1];
    }
    if !IsCapture(r[0]) {
      forall m | m in rest ensures !IsCapture(m) {
        var j :| 0 <= j < |rest| && rest[j] == m;
        assert r[j + 1] == m;
      }
    }
  }

  // ---------------------------------------------------------------------------
  // Alpha-beta, as functions on the game tree

  /** `SearchLimits`: whether a deadline applies, and the clock count at which it falls. */
  datatype SearchLimits = SearchLimits(useTime: bool, endTime: int)

  /** What `alphaBeta` returns, the value it leaves in `timeUp`, and the clock count after it. */
  datatype NodeResult = NodeResult(score: int, timeUp: bool, clock: int)

  datatype Option<T> = None | Some(value: T)

  /**
   * What the search sees of a position: at the horizon, its evaluation;
   * above it, whether the side to move is in check and, for each move of
   * the ordered legal list, the subtree `makeMove` leads to (None when
   * `makeMove` refuses the move).
   */
  datatype GameTree = Leaf(eval: int) | Inner(inCheck: bool, kids: seq<Option<GameTree>>)

  function Max(a: int, b: int): int { if a >= b then a else b }

  /**
   * Unary minus on a 32-bit `int`. The search negates only values between
   * INT_MIN and INT_MAX; INT_MIN has no negation among them and, on the
   * two's-complement targets the program is built for, comes back unchanged.
   */
  function Neg32(x: int): int {
    if x == INT_MIN then INT_MIN else -x
  }

  /** The moves `alphaBeta` and `searchBestMove` loop over: the legal moves, captures first. */
  function Ordered(s: Snapshot): (ms: seq<Move>)
    requires Shaped(s)
    ensures forall m :: m in ms ==> MoveShaped(m)
  {
    LegalMovesMembers(s);
    CapturesFirstPermutes(LegalMoves(s));
    CapturesFirst(LegalMoves(s))
  }

  /** The tree the rules give a position, `depth` plies deep. */
  function TreeOf(s: Snapshot, depth: nat): (t: GameTree)
    requires Shaped(s)
    ensures depth == 0 <==> t.Leaf?
    decreases depth, 4
  {
    if depth == 0 then Leaf(Evaluation(s)) else Branch(s, depth)
  }

  /** A node above the horizon: whether the side to move is in check, and its subtrees. */
  function Branch(s: Snapshot, depth: nat): (t: GameTree)
    requires Shaped(s) && depth > 0
    ensures t.Inner?
    decreases depth, 3
  {
    Inner(InCheckOf(s.board, s.sideToMove), Expand(s, depth))
  }

  /** One subtree per ordered move. */
  function Expand(s: Snapshot, depth: nat): seq<Option<GameTree>>
    requires Shaped(s) && depth > 0
    decreases depth, 2
  {
    Subtrees(s, depth, Ordered(s))
  }

  /** One subtree per move of `ms`, in order. */
  function Subtrees(s: Snapshot, depth: nat, ms: seq<Move>): (kids: seq<Option<GameTree>>)
    requires Shaped(s) && depth > 0 && forall m :: m in ms ==> MoveShaped(m)
    ensures |kids| == |ms|
    decreases depth, 1
  {
    seq(|ms|, i requires 0 <= i < |ms| => ChildTree(s, depth, ms[i]))
  }

  /** The tree after move `m`, or None when `makeMove` refuses it. */
  function ChildTree(s: Snapshot, depth: nat, m: Move): Option<GameTree>
    requires Shaped(s) && depth > 0 && MoveShaped(m)
    decreases depth, 0
  {
    if Accepts(s, m) then Some(TreeOf(MakeResult(s, m).pos, depth - 1)) else None
  }

  /** The root of the tree has one child per ordered move. */
  lemma ExpandLength(s: Snapshot, depth: nat)
    requires Shaped(s) && depth > 0
    ensures TreeOf(s, depth).kids == Subtrees(s, depth, Ordered(s))
    ensures |TreeOf(s, depth).kids| == |Ordered(s)|
  {
    assert TreeOf(s, depth).kids == Branch(s, depth).kids == Expand(s, depth) == Subtrees(s, depth, Ordered(s));
  }

  /** The subtree below `m`: the tree of the position `makeMove` leads to, when it accepts `m`. */
  lemma ChildTreeOf(s: Snapshot, depth: nat, m: Move)
    requires Shaped(s) && depth > 0 && MoveShaped(m)
    ensures ChildTree(s, depth, m).Some? <==> MakeResult(s, m).ok
    ensures MakeResult(s, m).ok ==> ChildTree(s, depth, m).value == TreeOf(MakeResult(s, m).pos, depth - 1)
  {
  }

  /** The `i`-th subtree is the one below the `i`-th move. */
  lemma SubtreeAt(s: Snapshot, depth: nat, ms: seq<Move>, i: nat)
    requires Shaped(s) && depth > 0 && (forall m :: m in ms ==> MoveShaped(m)) && i < |ms|
    ensures MoveShaped(ms[i]) && Subtrees(s, depth, ms)[i] == ChildTree(s, depth, ms[i])
  {
    assert ms[i] in ms;
  }

  /**
   * `alphaBeta(pos, depth, alpha, beta, limits, timeUp)` on the tree of
   * `pos` with the clock at `clock` (search.cpp:72-135): the deadline is
   * checked first, then the horizon, then mate and stalemate.
   */
  function Node(t: GameTree, alpha: int, beta: int, limits: SearchLimits, timeUp: bool, clock: int): NodeResult
    decreases t, 1 + (if t.Inner? then |t.kids| else 0)
  {
    if limits.useTime && clock >= limits.endTime then NodeResult(0, true, clock + 1)
    else
      var now := if limits.useTime then clock + 1 else clock;
      match t
      case Leaf(e) => NodeResult(e, timeUp, now)
      case Inner(check, kids) =>
        if |kids| == 0 then NodeResult(if check then -MATE_SCORE else 0, timeUp, now)
        else Loop(t, 0, INT_MIN, alpha, beta, limits, timeUp, now)
  }

  /**
   * The move loop of `alphaBeta` (search.cpp:109-134) from child `i` on: a
   * refused move is skipped, an accepted one searched with the window
   * negated and swapped, and the loop stops at a beta cutoff.
   */
  function Loop(t: GameTree, i: nat, best: int, alpha: int, beta: int,
                limits: SearchLimits, timeUp: bool, clock: int): NodeResult
    requires t.Inner? && i <= |t.kids|
    decreases t, |t.kids| - i
  {
    if i == |t.kids| then NodeResult(best, timeUp, clock)
    else if t.kids[i].None? then Loop(t, i + 1, best, alpha, beta, limits, timeUp, clock)
    else
      var child := Node(t.kids[i].value, Neg32(beta), Neg32(alpha), limits, timeUp, clock);
      if child.timeUp then NodeResult(0, true, child.clock)
      else
        var best' := Max(best, Neg32(child.score));
        var alpha' := Max(alpha, best');
        if alpha' >= beta then NodeResult(best', false, child.clock)
        else Loop(t, i + 1, best', alpha', beta, limits, false, child.clock)
  }

  // ---------------------------------------------------------------------------
  // Properties of the search on all trees

  predicate InScoreRange(x: int) { -MATE_SCORE <= x <= MATE_SCORE }

  /** Every leaf lies between the mate scores and every move in the tree is accepted. */
  predicate WellBuilt(t: GameTree)
    decreases t
  {
    match t
    case Leaf(e) => InScoreRange(e)
    case Inner(_, kids) => forall i :: 0 <= i < |kids| ==> kids[i].Some? && WellBuilt(kids[i].value)
  }

  /**
   * The tree the rules build is well built: the evaluation stays inside the
   * mate scores, and the ordered list holds only moves `makeMove` accepts.
   */
  lemma {:induction false} TreeWellBuilt(s: Snapshot, depth: nat)
    requires Shaped(s)
    ensures WellBuilt(TreeOf(s, depth))
    decreases depth, 1, 0
  {
    if depth == 0 {
      EvaluationBounded(s);
    } else {
      KidsWellBuilt(s, depth, TreeOf(s, depth));
    }
  }

  lemma {:induction false} KidsWellBuilt(s: Snapshot, depth: nat, t: GameTree)
    requires Shaped(s) && depth > 0 && t == TreeOf(s, depth)
    ensures WellBuilt(t)
    decreases depth, 0, 1
  {
    forall i | 0 <= i < |t.kids| ensures t.kids[i].Some? && WellBuilt(t.kids[i].value) {
      KidWellBuilt(s, depth, i);
    }
    InnerWellBuilt(t);
  }

  lemma {:induction false} KidWellBuilt(s: Snapshot, depth: nat, i: nat)
    requires Shaped(s) && depth > 0 && i < |TreeOf(s, depth).kids|
    ensures TreeOf(s, depth).kids[i].Some? && WellBuilt(TreeOf(s, depth).kids[i].value)
    decreases depth, 0, 0
  {
    var c := AcceptedChild(s, depth, i);
    TreeWellBuilt(c, depth - 1);
    assert WellBuilt(TreeOf(c, depth - 1));
    var kid := TreeOf(s, depth).kids[i];
    assert kid == Some(TreeOf(c, depth - 1));
    assert kid.Some?;
    assert WellBuilt(kid.value);
  }

  lemma InnerWellBuilt(t: GameTree)
    requires t.Inner? && forall i :: 0 <= i < |t.kids| ==> t.kids[i].Some? && WellBuilt(t.kids[i].value)
    ensures WellBuilt(t)
  {
  }

  /** Child `i` of the tree is the tree of the position the `i`-th ordered move leads to. */
  lemma AcceptedChild(s: Snapshot, depth: nat, i: nat) returns (c: Snapshot)
    requires Shaped(s) && depth > 0 && i < |TreeOf(s, depth).kids|
    ensures Shaped(c) && TreeOf(s, depth).kids[i] == Some(TreeOf(c, depth - 1))
  {
    ExpandLength(s, depth);
    var ms := Ordered(s);
    SubtreeAt(s, depth, ms, i);
    OrderedAccepted(s);
    assert ms[i] in ms;
    c := MakeResult(s, ms[i]).pos;
  }

  /** Every move of the ordered list is one `makeMove` accepts. */
  lemma OrderedAccepted(s: Snapshot)
    requires Shaped(s)
    ensures forall m :: m in Ordered(s) ==> MoveShaped(m) && Accepts(s, m)
    ensures |Ordered(s)| == |LegalMoves(s)|
  {
    LegalMovesMembers(s);
    CapturesFirstPermutes(LegalMoves(s));
    assert |multiset(Ordered(s))| == |multiset(LegalMoves(s))|;
  }

  /**
   * Every score `alphaBeta` returns lies between the two mate scores: the
   * evaluation stays inside them, and every node with a legal move searches
   * at least one child, so the running best never stays at INT_MIN.
   */
  lemma {:induction false} NodeScoreBounded(t: GameTree, alpha: int, beta: int,
                                            limits: SearchLimits, timeUp: bool, clock: int)
    requires WellBuilt(t)
    ensures InScoreRange(Node(t, alpha, beta, limits, timeUp, clock).score)
    decreases t, 1 + (if t.Inner? then |t.kids| else 0)
  {
    if !(limits.useTime && clock >= limits.endTime) && t.Inner? && |t.kids| > 0 {
      var now := if limits.useTime then clock + 1 else clock;
      LoopScoreBounded(t, 0, INT_MIN, alpha, beta, limits, timeUp, now);
    }
  }

  lemma {:induction false} LoopScoreBounded(t: GameTree, i: nat, best: int, alpha: int, beta: int,
                                            limits: SearchLimits, timeUp: bool, clock: int)
    requires t.Inner? && i <= |t.kids| && WellBuilt(t)
    requires InScoreRange(best) || (best == INT_MIN && i < |t.kids|)
    ensures InScoreRange(Loop(t, i, best, alpha, beta, limits, timeUp, clock).score)
    decreases t, |t.kids| - i
  {
    if i < |t.kids| {
      var child := Node(t.kids[i].value, Neg32(beta), Neg32(alpha), limits, timeUp, clock);
      NodeScoreBounded(t.kids[i].value, Neg32(beta), Neg32(alpha), limits, timeUp, clock);
      if !child.timeUp {
        var best' := Max(best, Neg32(child.score));
        LoopScoreBounded(t, i + 1, best', Max(alpha, best'), beta, limits, false, child.clock);
      }
    }
  }

  /**
   * Once `timeUp` is set it stays set, a search that sets it reports the
   * score 0 (which its caller discards), and the clock only moves forward.
   */
  lemma {:induction false} NodeTimeUp(t: GameTree, alpha: int, beta: int,
                                      limits: SearchLimits, timeUp: bool, clock: int)
    ensures var r := Node(t, alpha, beta, limits, timeUp, clock);
      && (timeUp ==> r.timeUp)
      && (!timeUp && r.timeUp ==> r.score == 0)
      && clock <= r.clock
    decreases t, 1 + (if t.Inner? then |t.kids| else 0)
  {
    if !(limits.useTime && clock >= limits.endTime) && t.Inner? && |t.kids| > 0 {
      var now := if limits.useTime then clock + 1 else clock;
      LoopTimeUp(t, 0, INT_MIN, alpha, beta, limits, timeUp, now);
    }
  }

  lemma {:induction false} LoopTimeUp(t: GameTree, i: nat, best: int, alpha: int, beta: int,
                                      limits: SearchLimits, timeUp: bool, clock: int)
    requires t.Inner? && i <= |t.kids|
    ensures var r := Loop(t, i, best, alpha, beta, limits, timeUp, clock);
      && (timeUp ==> r.timeUp)
      && (!timeUp && r.timeUp ==> r.score == 0)
      && clock <= r.clock
    decreases t, |t.kids| - i
  {
    if i < |t.kids| {
      if t.kids[i].None? {
        LoopTimeUp(t, i + 1, best, alpha, beta, limits, timeUp, clock);
      } else {
        var child := Node(t.kids[i].value, Neg32(beta), Neg32(alpha), limits, timeUp, clock);
        NodeTimeUp(t.kids[i].value, Neg32(beta), Neg32(alpha), limits, timeUp, clock);
        if !child.timeUp {
          var best' := Max(best, Neg32(child.score));
          LoopTimeUp(t, i + 1, best', Max(alpha, best'), beta, limits, false, child.clock);
        }
      }
    }
  }

  /** Without a deadline the search never runs out of time. */
  lemma {:induction false} NoDeadlineNoTimeUp(t: GameTree, alpha: int, beta: int, limits: SearchLimits, clock: int)
    requires !limits.useTime
    ensures !Node(t, alpha, beta, limits, false, clock).timeUp
    decreases t, 1 + (if t.Inner? then |t.kids| else 0)
  {
    if t.Inner? && |t.kids| > 0 {
      LoopNoDeadline(t, 0, INT_MIN, alpha, beta, limits, clock);
    }
  }

  lemma {:induction false} LoopNoDeadline(t: GameTree, i: nat, best: int, alpha: int, beta: int,
                                          limits: SearchLimits, clock: int)
    requires t.Inner? && i <= |t.kids| && !limits.useTime
    ensures !Loop(t, i, best, alpha, beta, limits, false, clock).timeUp
    decreases t, |t.kids| - i
  {
    if i < |t.kids| {
      if t.kids[i].None? {
        LoopNoDeadline(t, i + 1, best, alpha, beta, limits, clock);
      } else {
        var child := Node(t.kids[i].value, Neg32(beta), Neg32(alpha), limits, false, clock);
        NoDeadlineNoTimeUp(t.kids[i].value, Neg32(beta), Neg32(alpha), limits, clock);
        var best' := Max(best, Neg32(child.score));
        LoopNoDeadline(t, i + 1, best', Max(alpha, best'), beta, limits, child.clock);
      }
    }
  }

  // ---------------------------------------------------------------------------
  // Alpha-beta computes the negamax value

  /**
   * The negamax value of a tree, the reference the pruned search is measured
   * against: a leaf's evaluation, the mate or stalemate score of a node
   * without moves, otherwise the best negated value over the searched children.
   */
  function Negamax(t: GameTree): int
    decreases t, 1 + (if t.Inner? then |t.kids| else 0)
  {
    match t
    case Leaf(e) => e
    case Inner(check, kids) =>
      if |kids| == 0 then (if check then -MATE_SCORE else 0) else BestReply(t, 0, INT_MIN)
  }

  /** The larger of `best` and the negated values of children `i..` (refused moves skipped). */
  function BestReply(t: GameTree, i: nat, best: int): int
    requires t.Inner? && i <= |t.kids|
    decreases t, |t.kids| - i
  {
    if i == |t.kids| then best
    else if t.kids[i].None? then BestReply(t, i + 1, best)
    else BestReply(t, i + 1, Max(best, -Negamax(t.kids[i].value)))
  }

  /**
   * The fail-soft contract of alpha-beta: a value inside the window is
   * returned exactly, and outside it the result lies between the window
   * edge and the true value.
   */
  predicate FailSoft(r: int, v: int, alpha: int, beta: int) {
    && (alpha < v < beta ==> r == v)
    && (v <= alpha ==> v <= r <= alpha)
    && (beta <= v ==> beta <= r <= v)
  }

  /** Starting the running best higher only raises it to that start. */
  lemma {:induction false} BestReplyFrom(t: GameTree, i: nat, lo: int, b: int)
    requires t.Inner? && i <= |t.kids| && lo <= b
    ensures BestReply(t, i, b) == Max(b, BestReply(t, i, lo))
    decreases |t.kids| - i
  {
    if i < |t.kids| {
      if t.kids[i].None? {
        BestReplyFrom(t, i + 1, lo, b);
      } else {
        var x := -Negamax(t.kids[i].value);
        BestReplyFrom(t, i + 1, Max(lo, x), Max(b, x));
        BestReplyFrom(t, i + 1, Max(lo, x), Max(lo, x));
      }
    }
  }

  /**
   * Without a deadline, `alphaBeta` on a well-built tree with a window
   * inside the 32-bit range keeps the fail-soft contract with respect to
   * the negamax value: pruning never changes a value inside the window.
   */
  lemma {:induction false} NodeFailSoft(t: GameTree, alpha: int, beta: int, limits: SearchLimits, clock: int)
    requires WellBuilt(t) && !limits.useTime && -INT_MAX <= alpha < beta <= INT_MAX
    ensures FailSoft(Node(t, alpha, beta, limits, false, clock).score, Negamax(t), alpha, beta)
    decreases t, 1 + (if t.Inner? then |t.kids| else 0)
  {
    if t.Inner? && |t.kids| > 0 {
      LoopFailSoft(t, 0, INT_MIN, alpha, beta, limits, clock);
    }
  }

  lemma {:induction false} LoopFailSoft(t: GameTree, i: nat, best: int, alpha: int, beta: int,
                                        limits: SearchLimits, clock: int)
    requires t.Inner? && i <= |t.kids| && WellBuilt(t) && !limits.useTime
    requires -INT_MAX <= alpha < beta <= INT_MAX && INT_MIN <= best <= alpha
    ensures FailSoft(Loop(t, i, best, alpha, beta, limits, false, clock).score, BestReply(t, i, best), alpha, beta)
    decreases t, |t.kids| - i
  {
    if i < |t.kids| {
      var kid := t.kids[i].value;
      var child := Node(kid, -beta, -alpha, limits, false, clock);
      NoDeadlineNoTimeUp(kid, -beta, -alpha, limits, clock);
      NodeScoreBounded(kid, -beta, -alpha, limits, false, clock);
      NodeFailSoft(kid, -beta, -alpha, limits, clock);
      var x := -Negamax(kid);
      var best' := Max(best, -child.score);
      var alpha' := Max(alpha, best');
      assert Neg32(beta) == -beta && Neg32(alpha) == -alpha && Neg32(child.score) == -child.score;
      var r := Loop(t, i, best, alpha, beta, limits, false, clock).score;
      var rest := BestReply(t, i + 1, INT_MIN);
      BestReplyFrom(t, i + 1, INT_MIN, Max(best, x));
      BestReplyFrom(t, i + 1, INT_MIN, best');
      assert BestReply(t, i, best) == Max(Max(best, x), rest);
      if alpha' < beta {
        assert r == Loop(t, i + 1, best', alpha', beta, limits, false, child.clock).score;
        LoopFailSoft(t, i + 1, best', alpha', beta, limits, child.clock);
      } else {
        assert r == best';
      }
      WindowStep(best, alpha, beta, x, child.score, rest, r);
    }
  }

  /**
   * One child of the move loop, in integers: the child's fail-soft result
   * `c` for the window (-beta, -alpha) and the loop's result `r` over the
   * remaining children give the fail-soft result over all of them.
   */
  lemma WindowStep(best: int, alpha: int, beta: int, x: int, c: int, rest: int, r: int)
    requires best <= alpha < beta
    requires FailSoft(c, -x, -beta, -alpha)
    requires var best' := Max(best, -c); var alpha' := Max(alpha, best');
      if alpha' >= beta then r == best' else FailSoft(r, Max(best', rest), alpha', beta)
    ensures FailSoft(r, Max(Max(best, x), rest), alpha, beta)
  {
  }

  /**
   * With the full window the search returns the negamax value itself, and
   * the value of a well-built tree lies between the mate scores.
   */
  lemma FullWindowIsNegamax(t: GameTree, limits: SearchLimits, clock: int)
    requires WellBuilt(t) && !limits.useTime
    ensures Node(t, -INT_MAX, INT_MAX, limits, false, clock).score == Negamax(t)
    ensures InScoreRange(Negamax(t))
  {
    NodeFailSoft(t, -INT_MAX, INT_MAX, limits, clock);
    NodeScoreBounded(t, -INT_MAX, INT_MAX, limits, false, clock);
  }

  /** The limits of a search without a deadline. */
  const UNTIMED := SearchLimits(false, 0)

  /**
   * A search that beats the deadline scores what the same search scores
   * without one: the clock decides only whether a result is thrown away,
   * never what it is.
   */
  lemma {:induction false} NodeIgnoresDeadline(t: GameTree, alpha: int, beta: int, limits: SearchLimits,
                                               clock: int, clock': int)
    ensures var r := Node(t, alpha, beta, limits, false, clock);
      !r.timeUp ==> r.score == Node(t, alpha, beta, UNTIMED, false, clock').score
    decreases t, 1 + (if t.Inner? then |t.kids| else 0)
  {
    if !(limits.useTime && clock >= limits.endTime) && t.Inner? && |t.kids| > 0 {
      var now := if limits.useTime then clock + 1 else clock;
      LoopIgnoresDeadline(t, 0, INT_MIN, alpha, beta, limits, now, clock');
    }
  }

  lemma {:induction false} LoopIgnoresDeadline(t: GameTree, i: nat, best: int, alpha: int, beta: int,
                                               limits: SearchLimits, clock: int, clock': int)
    requires t.Inner? && i <= |t.kids|
    ensures var r := Loop(t, i, best, alpha, beta, limits, false, clock);
      !r.timeUp ==> r.score == Loop(t, i, best, alpha, beta, UNTIMED, false, clock').score
    decreases t, |t.kids| - i
  {
    if i < |t.kids| {
      if t.kids[i].None? {
        LoopIgnoresDeadline(t, i + 1, best, alpha, beta, limits, clock, clock');
      } else {
        var kid := t.kids[i].value;
        var child := Node(kid, Neg32(beta), Neg32(alpha), limits, false, clock);
        var child' := Node(kid, Neg32(beta), Neg32(alpha), UNTIMED, false, clock');
        if !child.timeUp {
          NodeIgnoresDeadline(kid, Neg32(beta), Neg32(alpha), limits, clock, clock');
          NoDeadlineNoTimeUp(kid, Neg32(beta), Neg32(alpha), UNTIMED, clock');
          var best' := Max(best, Neg32(child.score));
          LoopIgnoresDeadline(t, i + 1, best', Max(alpha, best'), beta, limits, child.clock, child'.clock);
        }
      }
    }
  }

  // ---------------------------------------------------------------------------
  // The root search with iterative deepening, as functions

  /** `Move{}`: the zero move the root search starts from. */
  const NoMove := Move(0, 0, 0, 0, 0, 0)

  /**
   * The lower edge of the root window. The source starts it at INT_MIN,
   * whose negation wraps (see RootWindowAsWritten); the model starts it one
   * higher, which makes every negation exact.
   */
  const ROOT_ALPHA_AS_WRITTEN := INT_MIN
  const ROOT_ALPHA := -INT_MAX

  /** What one depth of the root loop leaves: whether it ran to the end, its best score and move. */
  datatype PassResult = PassResult(completed: bool, score: int, move: Move, clock: int)

  /**
   * One depth of `searchBestMove` (search.cpp:157-184) from root move `i`
   * on: every accepted move is searched with the window (-beta, -alpha),
   * a strictly better score replaces the best move, and a timeout ends the
   * depth unfinished.
   */
  function RootPass(ms: seq<Move>, kids: seq<Option<GameTree>>, i: nat, alpha: int, bestScore: int,
                    bestMove: Move, limits: SearchLimits, clock: int): PassResult
    requires |ms| == |kids| && i <= |kids|
    decreases |kids| - i
  {
    if i == |kids| then PassResult(true, bestScore, bestMove, clock)
    else if kids[i].None? then RootPass(ms, kids, i + 1, alpha, bestScore, bestMove, limits, clock)
    else
      var child := Node(kids[i].value, Neg32(INT_MAX), Neg32(alpha), limits, false, clock);
      if child.timeUp then PassResult(false, bestScore, bestMove, child.clock)
      else
        var score := Neg32(child.score);
        RootPass(ms, kids, i + 1, if score > alpha then score else alpha,
                 if score > bestScore then score else bestScore,
                 if score > bestScore then ms[i] else bestMove, limits, child.clock)
  }

  /** A root choice: the best score and the first move that reaches it. */
  datatype Pick = Pick(score: int, move: Move)

  /** The root choice by plain negamax, without pruning or clock: the reference for RootPass. */
  function NegamaxPick(ms: seq<Move>, kids: seq<Option<GameTree>>, i: nat, bestScore: int, bestMove: Move): Pick
    requires |ms| == |kids| && i <= |kids|
    decreases |kids| - i
  {
    if i == |kids| then Pick(bestScore, bestMove)
    else if kids[i].None? then NegamaxPick(ms, kids, i + 1, bestScore, bestMove)
    else
      var score := -Negamax(kids[i].value);
      if score > bestScore then NegamaxPick(ms, kids, i + 1, score, ms[i])
      else NegamaxPick(ms, kids, i + 1, bestScore, bestMove)
  }

  predicate KidsWellBuiltFrom(kids: seq<Option<GameTree>>, i: nat) {
    forall j :: i <= j < |kids| ==> kids[j].Some? && WellBuilt(kids[j].value)
  }

  /**
   * Without a deadline, a depth of the root search over well-built
   * subtrees runs to the end and chooses exactly what plain negamax
   * chooses: the same best score and the same move.
   */
  lemma {:induction false} RootPassIsNegamax(ms: seq<Move>, kids: seq<Option<GameTree>>, i: nat, alpha: int,
                                             bestScore: int, bestMove: Move, limits: SearchLimits, clock: int)
    requires |ms| == |kids| && i <= |kids| && KidsWellBuiltFrom(kids, i) && !limits.useTime
    requires (bestScore == INT_MIN && alpha == ROOT_ALPHA) || (alpha == bestScore && InScoreRange(bestScore))
    ensures var r := RootPass(ms, kids, i, alpha, bestScore, bestMove, limits, clock);
      r.completed && Pick(r.score, r.move) == NegamaxPick(ms, kids, i, bestScore, bestMove)
    decreases |kids| - i
  {
    if i < |kids| {
      var kid := kids[i].value;
      var child := Node(kid, -INT_MAX, -alpha, limits, false, clock);
      assert Neg32(INT_MAX) == -INT_MAX && Neg32(alpha) == -alpha;
      NoDeadlineNoTimeUp(kid, -INT_MAX, -alpha, limits, clock);
      NodeScoreBounded(kid, -INT_MAX, -alpha, limits, false, clock);
      NodeFailSoft(kid, -INT_MAX, -alpha, limits, clock);
      FullWindowIsNegamax(kid, limits, clock);
      var score := -child.score;
      assert Neg32(child.score) == score;
      var x := -Negamax(kid);
      assert score > bestScore <==> x > bestScore;
      assert score > bestScore ==> score == x;
      RootPassIsNegamax(ms, kids, i + 1, if score > alpha then score else alpha,
                        if score > bestScore then score else bestScore,
                        if score > bestScore then ms[i] else bestMove, limits, child.clock);
    }
  }

  /**
   * A finished depth over well-built subtrees ends on one of the root
   * moves, whether or not a deadline was set.
   */
  lemma {:induction false} RootPassChooses(ms: seq<Move>, kids: seq<Option<GameTree>>, i: nat, alpha: int,
                                           bestScore: int, bestMove: Move, limits: SearchLimits, clock: int)
    requires |ms| == |kids| && i <= |kids| && KidsWellBuiltFrom(kids, i)
    requires bestMove in ms || (i < |kids| && bestScore == INT_MIN)
    ensures var r := RootPass(ms, kids, i, alpha, bestScore, bestMove, limits, clock);
      r.completed ==> r.move in ms
    decreases |kids| - i
  {
    if i < |kids| {
      var kid := kids[i].value;
      var child := Node(kid, Neg32(INT_MAX), Neg32(alpha), limits, false, clock);
      NodeScoreBounded(kid, Neg32(INT_MAX), Neg32(alpha), limits, false, clock);
      if !child.timeUp {
        var score := Neg32(child.score);
        RootPassChooses(ms, kids, i + 1, if score > alpha then score else alpha,
                        if score > bestScore then score else bestScore,
                        if score > bestScore then ms[i] else bestMove, limits, child.clock);
      }
    }
  }

  /**
   * The input that shows the root window's wrap-around: the first root move
   * A has two replies, leading to positions worth 5 and -7 to the side at
   * the root; the second move B has one reply, leading to a position worth
   * 0 to it. Negamax prefers B (score 0 against -7).
   * Starting at INT_MIN, `-alpha` stays INT_MIN, the first reply node gets
   * the empty window (-INT_MAX, INT_MIN), stops after its first reply and
   * reports A as worth 5, so the search plays A. Starting one higher, the
   * search plays B.
   */
  lemma RootWindowAsWritten()
    ensures var a := Move(SQ_E1, SQ_E1 + 16, WK, EMPTY, EMPTY, 0);
      var b := Move(SQ_E1, SQ_E1 + 1, WK, EMPTY, EMPTY, 0);
      var kids := [Some(Inner(false, [Some(Leaf(5)), Some(Leaf(-7))])), Some(Inner(false, [Some(Leaf(0))]))];
      var limits := SearchLimits(false, 0);
      && NegamaxPick([a, b], kids, 0, INT_MIN, NoMove) == Pick(0, b)
      && RootPass([a, b], kids, 0, ROOT_ALPHA_AS_WRITTEN, INT_MIN, NoMove, limits, 0).move == a
      && RootPass([a, b], kids, 0, ROOT_ALPHA, INT_MIN, NoMove, limits, 0).move == b
  {
    var t1 := Inner(false, [Some(Leaf(5)), Some(Leaf(-7))]);
    var t2 := Inner(false, [Some(Leaf(0))]);
    var limits := SearchLimits(false, 0);
    assert Negamax(t1) == 7 by {
      assert BestReply(t1, 0, INT_MIN) == BestReply(t1, 1, -5) == BestReply(t1, 2, 7);
    }
    assert Negamax(t2) == 0 by {
      assert BestReply(t2, 0, INT_MIN) == BestReply(t2, 1, 0);
    }
    assert Node(t1, -INT_MAX, INT_MIN, limits, false, 0).score == -5 by {
      assert Node(Leaf(5), INT_MIN, INT_MAX, limits, false, 0) == NodeResult(5, false, 0);
    }
    assert Node(t2, -INT_MAX, -5, limits, false, 0).score == 0 by {
      assert Node(Leaf(0), 5, INT_MAX, limits, false, 0) == NodeResult(0, false, 0);
    }
    assert Node(t1, -INT_MAX, INT_MAX, limits, false, 0).score == 7 by {
      FullWindowIsNegamax(t1, limits, 0);
    }
    assert Node(t2, -INT_MAX, -(-7), limits, false, 0).score == 0 by {
      NodeFailSoft(t2, -INT_MAX, 7, limits, 0);
    }
  }

  /** A depth of the root search that beats the deadline chooses what it chooses without one. */
  lemma {:induction false} RootPassIgnoresDeadline(ms: seq<Move>, kids: seq<Option<GameTree>>, i: nat, alpha: int,
                                                   bestScore: int, bestMove: Move, limits: SearchLimits,
                                                   clock: int, clock': int)
    requires |ms| == |kids| && i <= |kids|
    ensures var r := RootPass(ms, kids, i, alpha, bestScore, bestMove, limits, clock);
      var u := RootPass(ms, kids, i, alpha, bestScore, bestMove, UNTIMED, clock');
      r.completed ==> Pick(r.score, r.move) == Pick(u.score, u.move)
    decreases |kids| - i
  {
    if i < |kids| {
      if kids[i].None? {
        RootPassIgnoresDeadline(ms, kids, i + 1, alpha, bestScore, bestMove, limits, clock, clock');
      } else {
        var kid := kids[i].value;
        var child := Node(kid, Neg32(INT_MAX), Neg32(alpha), limits, false, clock);
        var child' := Node(kid, Neg32(INT_MAX), Neg32(alpha), UNTIMED, false, clock');
        if !child.timeUp {
          NodeIgnoresDeadline(kid, Neg32(INT_MAX), Neg32(alpha), limits, clock, clock');
          NoDeadlineNoTimeUp(kid, Neg32(INT_MAX), Neg32(alpha), UNTIMED, clock');
          var score := Neg32(child.score);
          RootPassIgnoresDeadline(ms, kids, i + 1, if score > alpha then score else alpha,
                                  if score > bestScore then score else bestScore,
                                  if score > bestScore then ms[i] else bestMove, limits, child.clock, child'.clock);
        }
      }
    }
  }

  /** One depth of the search on the tree the rules give `s`. */
  function PassAt(s: Snapshot, depth: nat, limits: SearchLimits, clock: int): PassResult
    requires Shaped(s) && depth > 0
  {
    ExpandLength(s, depth);
    RootPass(Ordered(s), TreeOf(s, depth).kids, 0, ROOT_ALPHA, INT_MIN, NoMove, limits, clock)
  }

  /** Plain negamax's root choice on the tree the rules give `s`, `depth` plies deep. */
  function NegamaxChoice(s: Snapshot, depth: nat): Pick
    requires Shaped(s) && depth > 0
  {
    ExpandLength(s, depth);
    NegamaxPick(Ordered(s), TreeOf(s, depth).kids, 0, INT_MIN, NoMove)
  }

  /** What `searchBestMove` reports: whether it found a move, the move, and the clock. */
  datatype SearchOutcome = SearchOutcome(found: bool, move: Move, clock: int)

  /**
   * The deepening loop (search.cpp:156-194) from `depth` on: each depth
   * that runs to the end replaces the move found so far; the first one cut
   * short by the clock ends the search with the last complete depth's move.
   */
  function Deepen(s: Snapshot, depth: nat, maxDepth: int, found: bool, best: Move,
                  limits: SearchLimits, clock: int): SearchOutcome
    requires Shaped(s) && depth > 0
    decreases if depth <= maxDepth then maxDepth - depth + 1 else 0
  {
    if depth > maxDepth then SearchOutcome(found, best, clock)
    else
      var pass := PassAt(s, depth, limits, clock);
      if !pass.completed then SearchOutcome(found, best, pass.clock)
      else Deepen(s, depth + 1, maxDepth, true, pass.move, limits, pass.clock)
  }

  /**
   * The clock at which depth `k` starts when the deepening loop starts at
   * depth `from` with the clock at `clock` and every depth before `k`
   * runs to the end.
   */
  function StartClock(s: Snapshot, from: nat, k: nat, limits: SearchLimits, clock: int): int
    requires Shaped(s) && 0 < from <= k
    decreases k - from
  {
    if k == from then clock
    else StartClock(s, from + 1, k, limits, PassAt(s, from, limits, clock).clock)
  }

  /**
   * Depth `d` is the last depth to complete in a deepening loop that starts
   * at depth `from`: every depth from `from` to `d` runs to the end, and `d`
   * is either `maxDepth` or followed by a depth the clock cuts short.
   */
  predicate LastCompleted(s: Snapshot, from: nat, d: nat, maxDepth: int, limits: SearchLimits, clock: int)
    requires Shaped(s) && 0 < from <= d
  {
    && (forall k :: from <= k <= d ==> PassAt(s, k, limits, StartClock(s, from, k, limits, clock)).completed)
    && (d == maxDepth || !PassAt(s, d + 1, limits, StartClock(s, from, d + 1, limits, clock)).completed)
  }

  /**
   * `searchBestMove(pos, maxDepth, limits, bestMove)` (search.cpp:137-199):
   * without legal moves, or when not even depth 1 finishes, it reports
   * failure and leaves the caller's move `prior` as it was; a move it
   * reports is legal and is plain negamax's first best move at the last
   * depth that completed.
   */
  function BestMove(s: Snapshot, maxDepth: int, limits: SearchLimits, prior: Move, clock: int): (r: SearchOutcome)
    requires Shaped(s)
    ensures r.found ==> r.move in LegalMoves(s) && MoveShaped(r.move)
    ensures r.found ==> exists d :: 1 <= d <= maxDepth && LastCompleted(s, 1, d, maxDepth, limits, clock)
                                    && r.move == NegamaxChoice(s, d).move
  {
    if |LegalMoves(s)| == 0 then SearchOutcome(false, prior, clock)
    else
      DeepenLegal(s, 1, maxDepth, false, prior, limits, clock);
      DeepenIsNegamax(s, 1, maxDepth, false, prior, limits, clock);
      LegalMovesMembers(s);
      Deepen(s, 1, maxDepth, false, prior, limits, clock)
  }

  /** The ordered list holds exactly the legal moves. */
  lemma OrderedMembers(s: Snapshot)
    requires Shaped(s)
    ensures forall m :: m in Ordered(s) <==> m in LegalMoves(s)
    ensures |Ordered(s)| == |LegalMoves(s)|
  {
    CapturesFirstPermutes(LegalMoves(s));
    OrderedAccepted(s);
  }

  /** A depth of the search on a position with legal moves that runs to the end chooses a legal move. */
  lemma PassChoosesLegal(s: Snapshot, depth: nat, limits: SearchLimits, clock: int)
    requires Shaped(s) && depth > 0 && |LegalMoves(s)| > 0
    ensures PassAt(s, depth, limits, clock).completed ==> PassAt(s, depth, limits, clock).move in LegalMoves(s)
  {
    var t := TreeOf(s, depth);
    ExpandLength(s, depth);
    OrderedMembers(s);
    TreeWellBuilt(s, depth);
    assert KidsWellBuiltFrom(t.kids, 0);
    RootPassChooses(Ordered(s), t.kids, 0, ROOT_ALPHA, INT_MIN, NoMove, limits, clock);
  }

  lemma {:induction false} DeepenLegal(s: Snapshot, depth: nat, maxDepth: int, found: bool, best: Move,
                                       limits: SearchLimits, clock: int)
    requires Shaped(s) && depth > 0 && |LegalMoves(s)| > 0 && (found ==> best in LegalMoves(s))
    ensures var r := Deepen(s, depth, maxDepth, found, best, limits, clock);
      && (r.found ==> r.move in LegalMoves(s))
      && (r.found <==> found || (depth <= maxDepth && PassAt(s, depth, limits, clock).completed))
      && (!r.found ==> r.move == best)
    decreases if depth <= maxDepth then maxDepth - depth + 1 else 0
  {
    if depth <= maxDepth {
      var pass := PassAt(s, depth, limits, clock);
      PassChoosesLegal(s, depth, limits, clock);
      if pass.completed {
        DeepenLegal(s, depth + 1, maxDepth, true, pass.move, limits, pass.clock);
      }
    }
  }

  /**
   * `searchBestMove` reports success exactly when there is a legal move,
   * `maxDepth` is at least 1 and the depth-1 search finishes before the
   * deadline; the move it then reports is legal, and it is the first best
   * move plain negamax picks at the last depth that completed, with or
   * without a deadline.
   */
  lemma BestMoveLegal(s: Snapshot, maxDepth: int, limits: SearchLimits, prior: Move, clock: int)
    requires Shaped(s)
    ensures var r := BestMove(s, maxDepth, limits, prior, clock);
      && (r.found <==> |LegalMoves(s)| > 0 && maxDepth >= 1 && PassAt(s, 1, limits, clock).completed)
      && (r.found ==> r.move in LegalMoves(s))
      && (r.found ==> exists d :: 1 <= d <= maxDepth && LastCompleted(s, 1, d, maxDepth, limits, clock)
                                  && r.move == NegamaxChoice(s, d).move)
      && (!r.found ==> r.move == prior)
  {
    if |LegalMoves(s)| > 0 {
      DeepenLegal(s, 1, maxDepth, false, prior, limits, clock);
      DeepenIsNegamax(s, 1, maxDepth, false, prior, limits, clock);
    }
  }

  /**
   * Without a deadline, every depth finishes and the last one decides: on
   * a position with a legal move and `maxDepth` at least 1, the search
   * plays the move plain negamax picks at depth `maxDepth`.
   */
  lemma {:induction false} DeepenNoDeadline(s: Snapshot, depth: nat, maxDepth: int, found: bool, best: Move,
                                            limits: SearchLimits, clock: int)
    requires Shaped(s) && 0 < depth <= maxDepth && !limits.useTime
    ensures var r := Deepen(s, depth, maxDepth, found, best, limits, clock);
      r.found && r.move == NegamaxChoice(s, maxDepth).move
    decreases maxDepth - depth
  {
    var pass := PassAt(s, depth, limits, clock);
    PassIsNegamax(s, depth, limits, clock);
    if depth < maxDepth {
      DeepenNoDeadline(s, depth + 1, maxDepth, true, pass.move, limits, pass.clock);
    }
  }

  lemma PassIsNegamax(s: Snapshot, depth: nat, limits: SearchLimits, clock: int)
    requires Shaped(s) && depth > 0 && !limits.useTime
    ensures var p := PassAt(s, depth, limits, clock);
      p.completed && Pick(p.score, p.move) == NegamaxChoice(s, depth)
  {
    var t := TreeOf(s, depth);
    ExpandLength(s, depth);
    TreeWellBuilt(s, depth);
    assert KidsWellBuiltFrom(t.kids, 0);
    RootPassIsNegamax(Ordered(s), t.kids, 0, ROOT_ALPHA, INT_MIN, NoMove, limits, clock);
  }

  /**
   * A depth that finishes before the deadline chooses what plain negamax
   * chooses at that depth: the same best score and the same first best move.
   */
  lemma CompletedPassIsNegamax(s: Snapshot, depth: nat, limits: SearchLimits, clock: int)
    requires Shaped(s) && depth > 0
    ensures var p := PassAt(s, depth, limits, clock);
      p.completed ==> Pick(p.score, p.move) == NegamaxChoice(s, depth)
  {
    ExpandLength(s, depth);
    RootPassIgnoresDeadline(Ordered(s), TreeOf(s, depth).kids, 0, ROOT_ALPHA, INT_MIN, NoMove, limits, clock, 0);
    PassIsNegamax(s, depth, UNTIMED, 0);
  }

  /**
   * Whatever the deadline, a move the deepening loop finds is either the
   * move it started with, when its first depth does not complete, or the
   * first best move of plain negamax at the last depth that completed.
   */
  lemma {:induction false} DeepenIsNegamax(s: Snapshot, depth: nat, maxDepth: int, found: bool, best: Move,
                                           limits: SearchLimits, clock: int)
    requires Shaped(s) && depth > 0
    ensures var r := Deepen(s, depth, maxDepth, found, best, limits, clock);
      r.found ==> (found && r.move == best && (depth > maxDepth || !PassAt(s, depth, limits, clock).completed))
                  || exists d :: depth <= d <= maxDepth && LastCompleted(s, depth, d, maxDepth, limits, clock)
                                 && r.move == NegamaxChoice(s, d).move
    decreases if depth <= maxDepth then maxDepth - depth + 1 else 0
  {
    if depth <= maxDepth {
      var pass := PassAt(s, depth, limits, clock);
      if pass.completed {
        CompletedPassIsNegamax(s, depth, limits, clock);
        DeepenIsNegamax(s, depth + 1, maxDepth, true, pass.move, limits, pass.clock);
        var r := Deepen(s, depth + 1, maxDepth, true, pass.move, limits, pass.clock);
        if r.found {
          if r.move == pass.move && (depth + 1 > maxDepth || !PassAt(s, depth + 1, limits, pass.clock).completed) {
            assert StartClock(s, depth, depth + 1, limits, clock) == pass.clock;
            assert LastCompleted(s, depth, depth, maxDepth, limits, clock);
          } else {
            var d :| depth + 1 <= d <= maxDepth && LastCompleted(s, depth + 1, d, maxDepth, limits, pass.clock)
                     && r.move == NegamaxChoice(s, d).move;
            LastCompletedFromEarlier(s, depth, d, maxDepth, limits, clock);
          }
        }
      }
    }
  }

  /** A last completed depth seen from the next depth on is one seen from a completed depth before it. */
  lemma LastCompletedFromEarlier(s: Snapshot, from: nat, d: nat, maxDepth: int, limits: SearchLimits, clock: int)
    requires Shaped(s) && 0 < from < d
    requires PassAt(s, from, limits, clock).completed
    requires LastCompleted(s, from + 1, d, maxDepth, limits, PassAt(s, from, limits, clock).clock)
    ensures LastCompleted(s, from, d, maxDepth, limits, clock)
  {
    var c := PassAt(s, from, limits, clock).clock;
    forall k | from < k <= d + 1
      ensures StartClock(s, from, k, limits, clock) == StartClock(s, from + 1, k, limits, c)
    {
    }
  }

  lemma BestMoveNoDeadline(s: Snapshot, maxDepth: int, limits: SearchLimits, prior: Move, clock: int)
    requires Shaped(s) && !limits.useTime && |LegalMoves(s)| > 0 && maxDepth >= 1
    ensures var r := BestMove(s, maxDepth, limits, prior, clock);
      r.found && r.move == NegamaxChoice(s, maxDepth).move
  {
    DeepenNoDeadline(s, 1, maxDepth, false, prior, limits, clock);
  }

  // ---------------------------------------------------------------------------
  // The search as the source runs it, on a Position

  /**
   * What the move loop needs about the `i`-th ordered move: it has the
   * shape `makeMove` and `undoMove` rely on, `makeMove` keeps the position
   * consistent, an accepted move is taken back exactly, a refused one
   * changes nothing, and child `i` of the tree is what the move leads to.
   */
  /**
   * `kids` are the subtrees below the moves `ms` of `s`, each move well
   * formed.
   */
  predicate Children(s: Snapshot, depth: nat, ms: seq<Move>, kids: seq<Option<GameTree>>)
    requires Shaped(s)
  {
    && depth > 0
    && (forall m :: m in ms ==> MoveShaped(m) && WellFormedMove(s, m))
    && kids == Subtrees(s, depth, ms)
  }

  /** The tree of `s` hangs the subtrees of the ordered legal moves below its root, in order. */
  lemma OrderedChildren(s: Snapshot, depth: nat)
    requires Consistent(s) && depth > 0
    ensures TreeOf(s, depth).Inner? && Children(s, depth, Ordered(s), TreeOf(s, depth).kids)
  {
    OrderedMembers(s);
    LegalMovesMembers(s);
    PseudoWellFormed(s);
    ExpandLength(s, depth);
    forall m | m in Ordered(s)
      ensures MoveShaped(m) && WellFormedMove(s, m)
    {
      assert m in Pseudo(s);
    }
  }

  /** One pass of Loop at child `i`, given what searching that child returned. */
  lemma LoopStep(t: GameTree, i: nat, best: int, alpha: int, beta: int, limits: SearchLimits,
                 timeUp: bool, clock: int, searched: bool, child: NodeResult)
    requires t.Inner? && i < |t.kids| && searched == t.kids[i].Some?
    requires searched ==> child == Node(t.kids[i].value, Neg32(beta), Neg32(alpha), limits, timeUp, clock)
    ensures !searched ==> Loop(t, i, best, alpha, beta, limits, timeUp, clock)
                          == Loop(t, i + 1, best, alpha, beta, limits, timeUp, clock)
    ensures searched && child.timeUp ==> Loop(t, i, best, alpha, beta, limits, timeUp, clock)
                                         == NodeResult(0, true, child.clock)
    ensures searched && !child.timeUp ==>
              var best' := Max(best, Neg32(child.score));
              var alpha' := Max(alpha, best');
              Loop(t, i, best, alpha, beta, limits, timeUp, clock)
              == if alpha' >= beta then NodeResult(best', false, child.clock)
                 else Loop(t, i + 1, best', alpha', beta, limits, false, child.clock)
  {
  }

  /** One pass of RootPass at child `i`, given what searching that child returned. */
  lemma RootStep(ms: seq<Move>, kids: seq<Option<GameTree>>, i: nat, alpha: int, bestScore: int,
                 bestMove: Move, limits: SearchLimits, clock: int, searched: bool, child: NodeResult)
    requires |ms| == |kids| && i < |kids| && searched == kids[i].Some?
    requires searched ==> child == Node(kids[i].value, Neg32(INT_MAX), Neg32(alpha), limits, false, clock)
    ensures !searched ==> RootPass(ms, kids, i, alpha, bestScore, bestMove, limits, clock)
                          == RootPass(ms, kids, i + 1, alpha, bestScore, bestMove, limits, clock)
    ensures searched && child.timeUp ==> RootPass(ms, kids, i, alpha, bestScore, bestMove, limits, clock)
                                         == PassResult(false, bestScore, bestMove, child.clock)
    ensures searched && !child.timeUp ==>
              var score := Neg32(child.score);
              RootPass(ms, kids, i, alpha, bestScore, bestMove, limits, clock)
              == RootPass(ms, kids, i + 1, if score > alpha then score else alpha,
                          if score > bestScore then score else bestScore,
                          if score > bestScore then ms[i] else bestMove, limits, child.clock)
  {
  }

  /**
   * The body of the move loops (search.cpp:110-115 and 164-169): make the
   * move, search the reply with the given window if `makeMove` accepted
   * it, and take it back. The position ends as it started.
   */
  method SearchChild(pos: Position, ghost s: Snapshot, depth: nat, moves: seq<Move>, ghost kids: seq<Option<GameTree>>,
                     i: nat, alpha: int, beta: int, limits: SearchLimits, timeUp: bool, clock: int)
    returns (searched: bool, child: NodeResult)
    requires pos.Valid() && pos.Model() == s && Consistent(s) && Children(s, depth, moves, kids) && i < |moves|
    modifies pos, pos.board
    ensures pos.Valid() && pos.board == old(pos.board) && pos.Model() == s
    ensures searched == kids[i].Some?
    ensures searched ==> child == Node(kids[i].value, alpha, beta, limits, timeUp, clock)
    decreases depth, 0
  {
    SubtreeAt(s, depth, moves, i);
    var m := moves[i];
    assert m in moves;
    RejectedMoveRestores(s, m);
    AcceptedMoveUndoes(s, m);
    MakeKeepsConsistent(s, m);
    ChildTreeOf(s, depth, m);
    searched := pos.MakeMove(m);
    if searched {
      child := SearchReply(pos, s, m, kids[i], depth - 1, alpha, beta, limits, timeUp, clock);
    } else {
      child := NodeResult(0, timeUp, clock);
    }
  }

  /**
   * After a move `makeMove` accepted (search.cpp:112-113, 166-167): search
   * the reply position `c` and take the move back to `s`.
   */
  method SearchReply(pos: Position, ghost s: Snapshot, ghost m: Move, ghost kid: Option<GameTree>, depth: nat,
                     alpha: int, beta: int, limits: SearchLimits, timeUp: bool, clock: int) returns (child: NodeResult)
    requires Consistent(s) && WellFormedMove(s, m) && MakeResult(s, m).ok
    requires pos.Valid() && pos.Model() == MakeResult(s, m).pos
    requires kid == ChildTree(s, depth + 1, m)
    modifies pos, pos.board
    ensures pos.Valid() && pos.board == old(pos.board) && pos.Model() == s
    ensures kid.Some? && child == Node(kid.value, alpha, beta, limits, timeUp, clock)
    decreases depth, 3
  {
    AcceptedMoveUndoes(s, m);
    MakeKeepsConsistent(s, m);
    ChildTreeOf(s, depth + 1, m);
    child := AlphaBeta(pos, depth, alpha, beta, limits, timeUp, clock);
    pos.UndoMove();
  }

  /**
   * `alphaBeta(pos, depth, alpha, beta, limits, timeUp)` (search.cpp:72-135):
   * it searches the position in place, leaves it as it found it, and
   * returns what Node computes on the position's tree.
   */
  method AlphaBeta(pos: Position, depth: nat, alpha: int, beta: int, limits: SearchLimits,
                   timeUp: bool, clock: int) returns (r: NodeResult)
    requires pos.Valid() && Consistent(pos.Model())
    modifies pos, pos.board
    ensures pos.Valid() && pos.board == old(pos.board) && pos.Model() == old(pos.Model())
    ensures r == Node(TreeOf(old(pos.Model()), depth), alpha, beta, limits, timeUp, clock)
    decreases depth, 2
  {
    ghost var s := pos.Model();
    if limits.useTime && clock >= limits.endTime {
      return NodeResult(0, true, clock + 1);
    }
    var now := if limits.useTime then clock + 1 else clock;
    if depth == 0 {
      var e := EvaluateMaterial(pos);
      return NodeResult(e, timeUp, now);
    }
    var moves := GenerateLegalMoves(pos);
    ExpandLength(s, depth);
    OrderedMembers(s);
    assert TreeOf(s, depth) == Branch(s, depth);
    if |moves| == 0 {
      var check := pos.InCheck(pos.sideToMove);
      return NodeResult(if check then -MATE_SCORE else 0, timeUp, now);
    }
    moves := CapturesFirst(moves);
    OrderedChildren(s, depth);
    r := SearchMoves(pos, s, depth, moves, TreeOf(s, depth), alpha, beta, limits, timeUp, now);
  }

  /** The move loop of `alphaBeta` (search.cpp:100-134) over the ordered legal moves. */
  method SearchMoves(pos: Position, ghost s: Snapshot, depth: nat, moves: seq<Move>, ghost t: GameTree,
                     alpha: int, beta: int, limits: SearchLimits, timeUp: bool, clock: int) returns (r: NodeResult)
    requires pos.Valid() && pos.Model() == s && Consistent(s) && t.Inner? && Children(s, depth, moves, t.kids)
    modifies pos, pos.board
    ensures pos.Valid() && pos.board == old(pos.board) && pos.Model() == s
    ensures r == Loop(t, 0, INT_MIN, alpha, beta, limits, timeUp, clock)
    decreases depth, 1
  {
    var best := INT_MIN;
    var a := alpha;
    var up := timeUp;
    var now := clock;
    var i := 0;
    while i < |moves|
      invariant 0 <= i <= |moves| == |t.kids|
      invariant pos.Valid() && pos.board == old(pos.board) && pos.Model() == s
      invariant Loop(t, i, best, a, beta, limits, up, now) == Loop(t, 0, INT_MIN, alpha, beta, limits, timeUp, clock)
    {
      ghost var rest := Loop(t, i, best, a, beta, limits, up, now);
      var ok, child := SearchChild(pos, s, depth, moves, t.kids, i, Neg32(beta), Neg32(a), limits, up, now);
      LoopStep(t, i, best, a, beta, limits, up, now, ok, child);
      if ok {
        up := child.timeUp;
        if up {
          return NodeResult(0, true, child.clock);
        }
        var score := Neg32(child.score);
        if score > best {
          best := score;
        }
        if best > a {
          a := best;
        }
        if a >= beta {
          return NodeResult(best, false, child.clock);
        }
        now := child.clock;
      }
      assert Loop(t, i + 1, best, a, beta, limits, up, now) == rest;
      i := i + 1;
    }
    return NodeResult(best, up, now);
  }

  /**
   * One depth of the root loop of `searchBestMove` (search.cpp:157-184):
   * the position is left as it was and the result is PassAt's.
   */
  method RootSearch(pos: Position, ghost s: Snapshot, depth: nat, moves: seq<Move>, ghost t: GameTree,
                    limits: SearchLimits, clock: int) returns (p: PassResult)
    requires pos.Valid() && pos.Model() == s && Consistent(s) && t.Inner? && Children(s, depth, moves, t.kids)
    modifies pos, pos.board
    ensures pos.Valid() && pos.board == old(pos.board) && pos.Model() == s
    ensures p == RootPass(moves, t.kids, 0, ROOT_ALPHA, INT_MIN, NoMove, limits, clock)
  {
    var alpha := ROOT_ALPHA;
    var beta := INT_MAX;
    var bestScore := INT_MIN;
    var bestMove := NoMove;
    var timeUp := false;
    var now := clock;
    var i := 0;
    while i < |moves|
      invariant 0 <= i <= |moves| == |t.kids| && !timeUp
      invariant pos.Valid() && pos.board == old(pos.board) && pos.Model() == s
      invariant RootPass(moves, t.kids, i, alpha, bestScore, bestMove, limits, now)
             == RootPass(moves, t.kids, 0, ROOT_ALPHA, INT_MIN, NoMove, limits, clock)
    {
      ghost var rest := RootPass(moves, t.kids, i, alpha, bestScore, bestMove, limits, now);
      var ok, child := SearchChild(pos, s, depth, moves, t.kids, i, Neg32(beta), Neg32(alpha), limits, timeUp, now);
      RootStep(moves, t.kids, i, alpha, bestScore, bestMove, limits, now, ok, child);
      if ok {
        if child.timeUp {
          return PassResult(false, bestScore, bestMove, child.clock);
        }
        var score := Neg32(child.score);
        if score > bestScore {
          bestScore := score;
          bestMove := moves[i];
        }
        if score > alpha {
          alpha := score;
        }
        now := child.clock;
      }
      assert RootPass(moves, t.kids, i + 1, alpha, bestScore, bestMove, limits, now) == rest;
      i := i + 1;
    }
    return PassResult(true, bestScore, bestMove, now);
  }

  /**
   * `searchBestMove(pos, maxDepth, limits, bestMove)` (search.cpp:137-199):
   * it leaves the position as it was and reports what BestMove says; the
   * caller's move `prior` comes back when the search fails.
   */
  method SearchBestMove(pos: Position, maxDepth: int, limits: SearchLimits, prior: Move, clock: int)
    returns (found: bool, bestMove: Move, clockOut: int)
    requires pos.Valid() && Consistent(pos.Model())
    modifies pos, pos.board
    ensures pos.Valid() && pos.board == old(pos.board) && pos.Model() == old(pos.Model())
    ensures SearchOutcome(found, bestMove, clockOut) == BestMove(old(pos.Model()), maxDepth, limits, prior, clock)
  {
    ghost var s := pos.Model();
    var moves := GenerateLegalMoves(pos);
    if |moves| == 0 {
      return false, prior, clock;
    }
    moves := CapturesFirst(moves);
    var r := DeepenLoop(pos, s, moves, maxDepth, limits, prior, clock);
    return r.found, r.move, r.clock;
  }

  /** The deepening loop of `searchBestMove` (search.cpp:156-194), on a position with a legal move. */
  method DeepenLoop(pos: Position, ghost s: Snapshot, moves: seq<Move>, maxDepth: int, limits: SearchLimits,
                    prior: Move, clock: int) returns (r: SearchOutcome)
    requires pos.Valid() && pos.Model() == s && Consistent(s) && moves == Ordered(s)
    modifies pos, pos.board
    ensures pos.Valid() && pos.board == old(pos.board) && pos.Model() == s
    ensures r == Deepen(s, 1, maxDepth, false, prior, limits, clock)
  {
    var foundAny := false;
    var currentBest := prior;
    var now := clock;
    var depth := 1;
    while depth <= maxDepth
      invariant depth >= 1
      invariant pos.Valid() && pos.board == old(pos.board) && pos.Model() == s
      invariant Deepen(s, depth, maxDepth, foundAny, currentBest, limits, now)
             == Deepen(s, 1, maxDepth, false, prior, limits, clock)
      decreases maxDepth - depth
    {
      OrderedChildren(s, depth);
      var pass := RootSearch(pos, s, depth, moves, TreeOf(s, depth), limits, now);
      assert pass == PassAt(s, depth, limits, now);
      now := pass.clock;
      if !pass.completed {
        return SearchOutcome(foundAny, currentBest, now);
      }
      currentBest := pass.move;
      foundAny := true;
      depth := depth + 1;
    }
    return SearchOutcome(foundAny, currentBest, now);
  }
}
