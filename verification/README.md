# ChessEngine rules core in Dafny

This project models the rules core of a small C++ chess engine and the
FEN helpers of its browser front end, and proves properties of the model.

The engine keeps its position on a 0x88 board: 128 cells in 8 ranks of 16
columns, where the right half of each rank is padding. Pieces are the
integers 0..12: `EMPTY`, then `WP`..`WK` for White and `BP`..`BK` for Black.
The rules are those of the FIDE Laws of Chess, Article 3: the piece moves
(3.1-3.8, with pawns, en passant and promotion in 3.7 and castling in
3.8.2) and check (3.9).

The model has these parts:

- **Encoding** (`types.dfy`, `moves.dfy`, `squares.dfy`).
  - Piece colour and kind.
  - The `Move` record, with its 16-bit squares and 8-bit pieces written out as explicit narrowing.
  - The four move flags and the four castling-right bits.
  - The 0x88 square arithmetic and the offset tables.
- **The position** (`rules.dfy`, `positions.dfy`, `roundtrip.dfy`).
  - `Rules` gives every operation of `Position` as a function on a value snapshot: the start layout, the attack test, `makeMove` (apply, push the undo record, take the move back when the mover's king is left in check) and `undoMove`.
  - `Positions.Position` is the class the engine mutates. It holds a 128-cell `array` board, the scalar fields and the `State` stack. Each method is proved to move its state exactly as the matching function says.
  - `RoundTrip` proves that `undoMove` takes back `makeMove` on every position the engine can reach.
- **Move generation** (`movegen.dfy`).
  - Pseudo-legal generation per piece, in the source's scan order, and the legal filter ("`makeMove` on a copy accepts").
  - Each generator is a method appending to a sequence, proved equal to a specification function.
  - The specification functions carry the generator's guarantees: where each move lands, what it captures and how it is flagged.
- **Search** (`search.dfy`).
  - Material evaluation.
  - Captures-first stable ordering.
  - Negamax alpha-beta with a deadline.
  - Iterative deepening.
  - The search methods make and undo moves on one shared `Position` and are proved to return it unchanged. Their results are proved to equal functions on a game tree. Against plain negamax, the proofs show the fail-soft bound, the score range, that the move chosen is legal, and that it is negamax's first best move at the last depth that completed, with or without a deadline.
- **Perft** (`perft.dfy`): the recursive leaf counter and its per-move divide, proved against a count over legal moves.
- **Session** (`session.dfy`).
  - Square and promotion-letter parsing.
  - Matching a typed move against the legal list.
  - The game result.
  - The `EngineSession` class with its constructor, `newGame`, `applyHumanMove` and `applyEngineMove`.
- **Display text** (`display.dfy`): the piece-to-character maps and the castling and en-passant fields that `printBoard` writes.
- **Browser FEN helpers** (`fen.dfy`).
  - `fenToBoardArray` reads the piece-placement field of FEN, defined in section 16.1.3.1 of the PGN standard.
  - Also `getPieceAtSquareFromFen` and `maybeAddPromotion`, with the prompt's answer passed in as a parameter.
  - The board reader is proved to invert the placement writer of that section.
- **Findings** (`findings.dfy`, plus `Rules.H8CaptureKeepsRightAsWritten` and `Search.RootWindowAsWritten`). Places where the code as written departs from its evident intent. Each one pairs the code as written, with an input that shows the difference, against the corrected definition the model uses.

Decisions the model makes:

- **`undoMove` takes no argument.** It is declared without one (position.h:52) and called without one (search.cpp:115, perft.cpp:18). Its definition at position.cpp:285 takes a `Move`. The model uses the parameterless form, which takes the move from the top record of the stack.
- **`isSquareAttacked`** is declared (position.h:54) but not defined. It is modelled as the attack test of `inCheck` (position.cpp:42-107), generalised to any square. `inCheck` is the king scan followed by that test.
- **The pawn test does not compile as written.** position.cpp:49 and :55 subscript the function `isOnBoard`. The model uses the call that is evidently meant.
- **Scores are unbounded integers, except where the program negates a 32-bit `int`.** There, `Search.Neg32` sends INT_MIN to itself, as two's complement does.
- **The wall clock is a tick counter.** Each reading of the clock sees the current count and advances it by one, and the deadline is a count.

## Model

| member | source | states |
|---|---|---|
| Types.Colored | src/types.h:6 | a kind `WP..WK` and a colour give the piece code: the kind itself for White, the kind shifted by `BP - WP` for Black |
| Types.EmptyHasNoColor | src/types.h:10-13 | `pieceColor(EMPTY)` is `NO_COLOR`, and `EMPTY` is the only value without a colour |
| Types.ColorOfPieces | src/types.h:14 | for pieces 1..12 the colour is Black exactly when `p >= BP` and White exactly when `p < BP` |
| Types.TypeColorRoundTrip | src/types.h:17-22 | `pieceType` of a piece lies in `WP..WK`; it is the identity on white pieces and maps `BP+k` to `WP+k`; kind and colour rebuild the piece |
| Types.PieceTypeOfEmpty | src/types.h:17-20 | `pieceType(EMPTY)` is `EMPTY` |
| Types.ColoredRoundTrip | src/types.h:10-22 | the piece built from a kind and a real colour has that kind and that colour |
| Types.OppositeFacts | src/types.h:24 | `opposite` swaps White and Black, is an involution on them, never fixes them, and sends `NO_COLOR` to White |
| Moves.NewMove | src/move.h:22-27 | the record `make_move` builds always has 16-bit squares and 8-bit pieces, and carries the given flags |
| Moves.NewMoveKeepsFields | src/move.h:5-12 | for squares 0..127 and pieces 0..12 the narrowing casts lose nothing: every field is stored unchanged |
| Moves.NewMoveDefaults | src/move.h:22-23 | the defaults are nothing captured, no promotion and no flags, so the move is neither a capture nor a promotion |
| Moves.FlagsDecodeUniquely | src/move.h:14-20 | each of the four flags in a combination reads back exactly the fact it was set from, and no other bit is set |
| Moves.FlagSetInjective | src/move.h:14-20 | two flag combinations are equal only when they are built from the same facts |
| Squares.OnBoardIsMaskTest | src/position.h:43 | on every square the program asks about, `isOnBoard` is exactly `(sq & 0x88) == 0` on the two's-complement byte |
| Squares.ByteMask | src/position.h:43 | on a byte, `x & 0x88 == 0` exactly when `x < 128` and its column is below 8 |
| Squares.MakeSquareRoundTrip | src/position.h:45 | for file and rank 0..7, `makeSquare` is on the board, and `file_of` and `rank_of` give back the file and the rank |
| Squares.OnBoardDecomposes | src/movegen.cpp:4-10 | every on-board square is `makeSquare` of its own `file_of` and `rank_of`, both in 0..7 |
| Squares.KingOffsetsAreRookThenBishop | src/position.h:7-10 | the king's offsets are the rook's offsets followed by the bishop's |
| Squares.CastleBitsDistinct | src/position.h:12-17 | the four castling rights are disjoint bits whose union is 15 |
| Rules.DefaultPosition | src/position.h:21-26 | a default-constructed position is well shaped (board of 128 cells, en-passant square -1 or on the board, stack entries shaped); the body is the member defaults: White to move, all four rights, no en-passant square, clocks 0 and 1, an empty board and stack |
| Rules.StartPosition | src/position.cpp:110-149 | the start position is well shaped (board of 128 cells, en-passant square -1 or on the board, stack entries shaped); the body sets White to move, rights 15, no en-passant square, clocks 0 and 1 and an empty stack, and its layout is stated by Rules.StartLayout, Rules.StartElsewhereEmpty and RoundTrip.InitialConsistent |
| Rules.StartLayout | src/position.cpp:113-140 | ranks 1 and 8 hold the back rows, with Black mirroring White file by file; ranks 2 and 7 hold pawns; the kings stand on e1 and e8 |
| Rules.StartElsewhereEmpty | src/position.cpp:111-112 | every other cell of the start position is empty, the padding included |
| Rules.KingSquareFrom | src/position.cpp:28-37 | the king scan from `sq` returns -1 or an on-board square at or after `sq` |
| Rules.Attacked | src/position.cpp:42-107 | defines `isSquareAttacked`, with the pawn direction and the ray advance corrected: a pawn, knight, diagonal or orthogonal slider, or king of the attacker hits the square; stated by Findings.PawnHitMatchesCaptures, Findings.RayHitSees and Positions.Position.IsSquareAttacked |
| Rules.KingSquare | src/position.cpp:28-40 | defines `findKing`: the first cell of the scan holding the king of the colour, or -1; its properties are stated by Rules.KingSquareFrom and Rules.KingSquareFromFinds |
| Rules.KingSquareFromFinds | src/position.cpp:28-37 | the scan returns the first on-board cell holding the king, and -1 exactly when no such cell exists |
| Rules.NoKingNoCheck | src/position.cpp:38-40 | a side whose king is not on the board is never in check |
| Rules.MovedBoard | src/position.cpp:194-207 | the board after the mover and any captured piece are moved keeps its 128 cells |
| Rules.AppliedBoard | src/position.cpp:194-262 | the board after the move and any castling rook keeps its 128 cells |
| Rules.CastleRook | src/position.cpp:240-262 | moving the castling rook keeps the board at 128 cells |
| Rules.UncastleRook | src/position.cpp:307-330 | returning the castling rook keeps the board at 128 cells |
| Rules.Apply | src/position.cpp:151-273 | applying a move keeps a position well shaped |
| Rules.Undo | src/position.cpp:285-346 | `undoMove` on an empty stack leaves the position as it was; otherwise it pops exactly the top record |
| Rules.UndoneBoard | src/position.cpp:306-345 | taking a move back keeps the board at 128 cells |
| Rules.UncastleRookAsWritten | src/position.cpp:311-330 | returning the castling rook as written keeps the board at 128 cells |
| Rules.MakeResult | src/position.cpp:151-283 | `makeMove` keeps a position well shaped, whether it accepts the move or takes it back |
| Rules.MoverIsSideToMove | src/position.cpp:272-278 | the side whose king `makeMove` tests after the flip is the side that moved |
| Rules.MakeResultStack | src/position.cpp:169-177 | `makeMove` accepts exactly when the mover's king is not attacked afterwards; an accepted move pushes one record with the prior rights, en-passant square, clocks, captured piece and move; a rejected one leaves the stack as it was |
| Rules.AppliedScalars | src/position.cpp:179-190 | en passant is `(from+to)/2` after a pawn's double step and -1 otherwise; the halfmove clock restarts on a pawn move or a capture and counts up otherwise; the fullmove number grows exactly after Black's move; the side flips |
| Rules.RightsAfterMove | src/position.cpp:211-228 | defines the rights left after the moving piece leaves its square: a king clears both of its side's rights, a rook leaving a1, h1, a8 or h8 clears that corner's right; its properties are stated by Rules.RightsNeverGrow and Rules.CaptureRightsUpdates |
| Rules.RightsNeverGrow | src/position.cpp:210-238 | castling rights never gain a bit, whether the move is accepted or taken back |
| Rules.AppliedRightsShrink | src/position.cpp:210-238 | applying a move never adds a castling right |
| Rules.UndoneRights | src/position.cpp:297-304 | undoing an applied move restores the castling rights exactly |
| Rules.MoveRightsShrink | src/position.cpp:210-228 | the rights after the moving piece's update are a subset of those before |
| Rules.CaptureRightsShrink | src/position.cpp:230-238 | the rights after a rook capture's update are a subset of those before |
| Rules.MoveRightsUpdates | src/position.cpp:210-228 | a king move clears both of its side's rights; a rook leaving a1, h1, a8 or h8 clears exactly the matching right; any other piece changes nothing |
| Rules.CaptureRightsUpdates | src/position.cpp:230-238 | capturing a rook on a1, h1, a8 or h8 clears exactly the matching right; any other capture changes nothing |
| Rules.H8CaptureKeepsRightAsWritten | src/position.cpp:237 | as written, capturing the black rook on h8 keeps Black's king-side right; the corrected update clears it |
| Rules.UndoEmptyIsNoOp | src/position.cpp:286-287 | `undoMove` with an empty stack changes nothing |
| RoundTrip.BoardRoundTrip | src/position.cpp:306-345 | on a consistent position, taking back a generated move restores every board cell |
| RoundTrip.CastleRoundTrip | src/position.cpp:307-330 | returning the castling rook undoes placing it, for each of the four castlings |
| RoundTrip.UndoApply | src/position.cpp:285-346 | undoing a generated move restores the position exactly: board, side, rights, en-passant square, clocks and stack |
| RoundTrip.RejectedMoveRestores | src/position.cpp:275-282 | a move `makeMove` rejects leaves the position exactly as it was |
| RoundTrip.AcceptedMoveUndoes | src/position.cpp:285-346 | after an accepted move, `undoMove` gives back the position the move was made from |
| RoundTrip.RightKept | src/position.cpp:210-238 | a castling right that survives a move was held before, and the move touched neither its king nor its rook |
| RoundTrip.MoveKeepsBit | src/position.cpp:211-228 | a right left after the moving piece's update was held before, and the move was neither by that side's king nor by the rook from that right's corner |
| RoundTrip.CaptureKeepsBit | src/position.cpp:230-238 | a right left after the capture update was held before, and the capture did not take the rook on that right's corner |
| RoundTrip.CornerKept | src/position.cpp:194-262 | a corner whose right survives the move still holds its rook |
| RoundTrip.RookRightsKept | src/position.cpp:210-262 | after a move, each surviving castling right still has its rook in its corner |
| RoundTrip.CodesKept | src/position.cpp:194-262 | a board of piece codes stays one after a generated move |
| RoundTrip.EpSquareEmpty | src/position.cpp:264-270 | the en-passant square a double step sets is empty |
| RoundTrip.ApplyKeepsConsistent | src/position.cpp:151-273 | applying a generated move keeps a position consistent |
| RoundTrip.MakeKeepsConsistent | src/position.cpp:151-283 | `makeMove` keeps a consistent position consistent, whether it accepts the move or rejects it |
| RoundTrip.InitialConsistent | src/position.cpp:110-149 | the start position is consistent; a default-constructed one is not, since it holds all four rights on an empty board |
| Positions.Position.constructor | src/position.cpp:22-24 | a new position has a fresh board and equals the default position |
| Positions.Position.Copy | src/movegen.cpp:300 | a copy has a board of its own and the same contents as the original |
| Positions.Position.SetPiece | src/position.h:49 | `setPiece(sq, p)` makes `pieceAt(sq)` equal `p` and leaves every other cell as it was |
| Positions.Position.SetStartPosition | src/position.cpp:110-149 | afterwards the position is the start position |
| Positions.Position.PlaceWhitePieces | src/position.cpp:115-122 | fills rank 1 with the white back row and leaves every other cell as it was |
| Positions.Position.PlaceBlackPieces | src/position.cpp:129-136 | fills rank 8 with the black back row and leaves every other cell as it was |
| Positions.Position.PlacePawns | src/position.cpp:124-126 | fills one rank with pawns and leaves every other cell as it was |
| Positions.Position.IsSquareAttacked | src/position.h:54 | reports whether a pawn, knight, slider or king of the attacker hits the square |
| Positions.Position.PawnAttack | src/position.cpp:43-57 | the pawn loop reports whether a pawn of the attacker stands where it captures onto the square |
| Positions.Position.StepAttack | src/position.cpp:58-67 | the step loop reports whether a knight (or king) of the attacker is one step away |
| Positions.Position.SliderAttack | src/position.cpp:69-95 | the ray loops report whether the first piece along some ray is an attacking slider of that kind or a queen |
| Positions.Position.InCheck | src/position.cpp:26-108 | `inCheck(c)` is the king scan followed by the attack test on the king's square |
| Positions.Position.FindPiece | src/position.cpp:28-37 | the scan loop finds what the king-scan function specifies |
| Positions.Position.MakeMove | src/position.cpp:151-283 | the result and the new state are exactly what `makeMove` specifies, and the board array is the same object |
| Positions.Position.ApplyMove | src/position.cpp:152-273 | the new state is the applied move with its record pushed |
| Positions.Position.SetEpSquare | src/position.cpp:263-269 | sets only the en-passant square, to the skipped square after a double step and to -1 otherwise |
| Positions.Position.CaptureOf | src/position.cpp:155-167 | reads the captured piece from the cell behind the target for en passant and from the target otherwise |
| Positions.Position.UpdateClocks | src/position.cpp:179-190 | resets or advances the halfmove clock, advances the fullmove number after Black, and changes nothing else |
| Positions.Position.UpdateRights | src/position.cpp:210-238 | updates the castling rights for the moving piece and any captured rook, and changes nothing else |
| Positions.Position.MovePieces | src/position.cpp:194-207 | rewrites the board cells for the move and any capture |
| Positions.Position.PlaceCastlingRook | src/position.cpp:240-262 | moves the castling rook |
| Positions.Position.ReturnCastlingRook | src/position.cpp:307-330 | returns the castling rook to its corner |
| Positions.Position.UndoBoard | src/position.cpp:306-345 | rewrites the board cells to take the recorded move back |
| Positions.Position.UndoMove | src/position.cpp:285-346 | the new state is the one `undoMove` specifies |
| MoveGen.SimpleMoveWellFormed | src/movegen.cpp:131-183 | a knight, slider or king move as the generators build it is a well-formed move of the position |
| MoveGen.StepMove | src/movegen.cpp:134-142 | a knight or king step emits nothing exactly when its own colour occupies the target, and otherwise one move to that target |
| MoveGen.StepMovesShape | src/movegen.cpp:131-144 | every emitted step lands on the board, never on its own colour, and a capture records `board[to]` |
| MoveGen.StepMovesComplete | src/movegen.cpp:131-144 | every on-board step target that is empty or enemy-occupied is emitted |
| MoveGen.RayMovesShape | src/movegen.cpp:153-166 | every ray move crosses only empty squares and lands on an empty or enemy square, capturing what stands there |
| MoveGen.RayMovesComplete | src/movegen.cpp:153-166 | every square reached over empty squares that is empty or enemy-occupied is emitted: the ray stops only at the first occupied square |
| MoveGen.SliderMovesShape | src/movegen.cpp:146-168 | every slider move is a simple move from the slider's square |
| MoveGen.BehindOnBoard | src/movegen.cpp:61 | the square behind an en-passant target is on the board |
| MoveGen.PushWellFormed | src/movegen.cpp:20-33 | a single or double pawn push onto an empty square is well formed |
| MoveGen.PawnTakeWellFormed | src/movegen.cpp:38-53 | a pawn capture onto an occupied diagonal square is well formed |
| MoveGen.PromotionsShape | src/movegen.cpp:21-27 | the four promotion moves, queen, rook, bishop and knight in that order, are well formed when each one is |
| MoveGen.PawnPushesShape | src/movegen.cpp:19-35 | every pawn push is well formed and starts from the pawn's square |
| MoveGen.QuietPushesShape | src/movegen.cpp:28-34 | below the promotion rank, a push is a single step, or a double step from the home rank across two empty squares |
| MoveGen.PawnCaptureShape | src/movegen.cpp:40-54 | every pawn capture is well formed and lands on the chosen diagonal |
| MoveGen.DoublePushOnBoard | src/movegen.cpp:31-32 | a double step from the home rank stays on the board |
| MoveGen.PawnCapturesShape | src/movegen.cpp:37-55 | every diagonal pawn capture is well formed |
| MoveGen.PawnEnPassantShape | src/movegen.cpp:57-68 | an en-passant move lands on the en-passant square, takes an enemy pawn behind it and is flagged en passant and capture |
| MoveGen.EnPassantWellFormed | src/movegen.cpp:60-65 | the en-passant move as built is well formed |
| MoveGen.PawnEnPassantsShape | src/movegen.cpp:57-68 | every en-passant move is well formed |
| MoveGen.PawnMoves | src/movegen.cpp:12-129 | defines the pawn moves of one pawn in the source's order: pushes, captures, en passant, each promotion expanded to queen, rook, bishop and knight; stated by MoveGen.PawnMovesShape |
| MoveGen.PawnMovesShape | src/movegen.cpp:12-129 | every pawn move of either colour is well formed and starts from the pawn's square |
| MoveGen.HomeRankOnBoard | src/movegen.cpp:190 | the king's home squares e1 and e8 are on the board, with b..g of their rank as well |
| MoveGen.ShortCastleShape | src/movegen.cpp:198-205 | a king-side castling move is emitted only with the right held and f and g empty, and is well formed |
| MoveGen.LongCastleShape | src/movegen.cpp:206-213 | a queen-side castling move is emitted only with the right held and b, c and d empty, and is well formed |
| MoveGen.CastleSidesShape | src/movegen.cpp:190-239 | every castling move of either side is well formed and starts on e1 or e8 |
| MoveGen.ShortSideShape | src/movegen.cpp:198-205 | the king-side check, squares unattacked included, emits only well-formed moves |
| MoveGen.LongSideShape | src/movegen.cpp:206-213 | the queen-side check, squares unattacked included, emits only well-formed moves |
| MoveGen.CastlingMoves | src/movegen.cpp:185-240 | defines the castling moves: only a king on e1 (White) or e8 (Black), short then long, each when its right is held, the squares between are empty and the king's path is not attacked; stated by MoveGen.CastlingMovesShape |
| MoveGen.CastlingMovesShape | src/movegen.cpp:185-240 | castling is emitted only for a king on its home square, and only well-formed castlings |
| MoveGen.PieceMovesShape | src/movegen.cpp:254-290 | every move generated for a square starts there, moves the piece that stands there, of the side to move, and is well formed |
| MoveGen.PawnPieceShape | src/movegen.cpp:261-264 | the pawn branch of the dispatch emits only well-formed moves from the square |
| MoveGen.StepPieceShape | src/movegen.cpp:266-268 | the knight and king branches emit only well-formed moves from the square |
| MoveGen.SliderPieceShape | src/movegen.cpp:270-281 | the bishop, rook and queen branches emit only well-formed moves from the square |
| MoveGen.ScanFromShape | src/movegen.cpp:248-291 | the scan from a square emits only well-formed moves of the side to move, from that square or later |
| MoveGen.Pseudo | src/movegen.cpp:243-292 | defines the pseudo-legal list: the board scanned from cell 0 upwards, each piece of the side to move adding its moves; stated by MoveGen.PseudoWellFormed and MoveGen.PseudoShaped |
| MoveGen.PseudoWellFormed | src/movegen.cpp:243-292 | every pseudo-legal move is well formed and moves a piece of the side to move |
| MoveGen.PseudoShaped | src/movegen.cpp:243-292 | every pseudo-legal move starts and ends on the board, and an en-passant move captures on the board |
| MoveGen.LegalFilter | src/movegen.cpp:299-304 | the legal filter keeps a subsequence of its input |
| MoveGen.LegalFilterMembers | src/movegen.cpp:299-304 | a move is kept exactly when it is in the input and `makeMove` on a copy accepts it |
| MoveGen.LegalMoves | src/movegen.cpp:295-305 | defines the legal list as the pseudo-legal moves that `makeMove` accepts, in order; stated by MoveGen.LegalFilter and MoveGen.LegalMovesMembers |
| MoveGen.LegalMovesMembers | src/movegen.cpp:295-305 | a move is legal exactly when it is pseudo-legal and `makeMove` accepts it |
| MoveGen.GenPawnPushes | src/movegen.cpp:19-35 | the push code emits exactly the specified pushes |
| MoveGen.GenPawnCapture | src/movegen.cpp:40-54 | one diagonal's capture code emits exactly the specified captures |
| MoveGen.GenPawnEnPassant | src/movegen.cpp:59-66 | one diagonal's en-passant code emits exactly the specified move |
| MoveGen.GenPawnCaptures | src/movegen.cpp:37-55 | the capture loop appends exactly the specified captures |
| MoveGen.GenPawnEnPassants | src/movegen.cpp:57-68 | the en-passant loop appends exactly the specified moves |
| MoveGen.GenPawnMoves | src/movegen.cpp:12-129 | `gen_white_pawns` and `gen_black_pawns` append exactly the specified pawn moves |
| MoveGen.GenStepMoves | src/movegen.cpp:131-144 | the knight and king step loops append exactly the specified steps |
| MoveGen.GenStep | src/movegen.cpp:134-142 | one step appends exactly the specified move, if any |
| MoveGen.GenSliderMoves | src/movegen.cpp:146-168 | the slider loop appends exactly the specified ray moves |
| MoveGen.GenRay | src/movegen.cpp:150-166 | the `while (true)` ray loop appends exactly the specified moves |
| MoveGen.NoneAttacked | src/movegen.cpp:200-202 | reports that none of three squares is attacked |
| MoveGen.GenShortCastle | src/movegen.cpp:198-205 | the king-side test emits the castling move exactly when it is allowed |
| MoveGen.GenLongCastle | src/movegen.cpp:206-213 | the queen-side test emits the castling move exactly when it is allowed |
| MoveGen.GenCastleSides | src/movegen.cpp:190-239 | appends exactly the specified castlings for one side |
| MoveGen.GenCastling | src/movegen.cpp:185-240 | `gen_castling` appends exactly the specified castlings |
| MoveGen.GenPieceMoves | src/movegen.cpp:254-290 | the dispatch appends exactly the specified moves for the square |
| MoveGen.GeneratePseudoLegalMoves | src/movegen.cpp:243-292 | the scan returns exactly the pseudo-legal list, in scan order |
| MoveGen.ScanSkips | src/movegen.cpp:249-252 | a padding square skips ahead to the next rank without emitting |
| MoveGen.ScanSteps | src/movegen.cpp:248-291 | an on-board square contributes its moves ahead of those of the later squares |
| MoveGen.TryOnCopy | src/movegen.cpp:300-301 | `makeMove` on a copy reports exactly whether the move is accepted, and leaves the original untouched |
| MoveGen.LegalFilterStep | src/movegen.cpp:299-304 | the filter keeps or drops the head and goes on with the rest, in order |
| MoveGen.GenerateLegalMoves | src/movegen.cpp:295-305 | returns exactly the order-preserving subsequence of pseudo-legal moves that `makeMove` accepts |
| MoveGen.KeepIfLegal | src/movegen.cpp:300-303 | appends the move exactly when `makeMove` accepts it |
| Search.PieceValueSigns | src/search.cpp:8-62 | white pieces below the king are worth more than 0; each black piece is worth the negation of its white counterpart; kings, `EMPTY` and non-pieces are worth 0; no piece is worth more than a queen |
| Search.MaterialBounded | src/search.cpp:20-63 | the material sum over the remaining cells is at most a queen's value per cell, in either direction |
| Search.Evaluation | src/search.cpp:17-70 | defines `evaluateMaterial`: material of White minus material of Black, negated for Black to move; stated by Search.EvaluationBounded and Search.EvaluateMaterial |
| Search.EvaluationBounded | src/search.cpp:17-70 | every evaluation lies within 64 queens' value, below the mate score |
| Search.MaterialByRank | src/search.cpp:20-63 | the material sum splits rank by rank |
| Search.MirroredRank | src/search.cpp:20-63 | a rank that mirrors another with colours swapped sums to its negation |
| Search.EmptyRank | src/search.cpp:20-63 | an empty rank sums to 0 |
| Search.LevelWhenMirrored | src/search.cpp:20-63 | a board whose back and pawn ranks mirror each other, with empty middle ranks, sums to 0 |
| Search.StartIsLevel | src/search.cpp:17-70 | the evaluation of the start position is 0 |
| Search.EvaluateMaterial | src/search.cpp:17-70 | the scan loop returns White's material minus Black's, negated when Black is to move |
| Search.PaddingSkip | src/search.cpp:21-24 | the padding is skipped without changing the sum |
| Search.CapturesFirst | src/search.cpp:103-107 | defines the stable captures-first order: the captures in their order, then the quiet moves in theirs; stated by Search.CapturesFirstPermutes, Search.CapturesFirstLead and Search.CapturesFirstStable |
| Search.Captures | src/search.cpp:103-107 | the capture part of a list is no longer than the list |
| Search.Quiets | src/search.cpp:103-107 | the quiet part of a list is no longer than the list |
| Search.CapturesAreCaptures | src/search.cpp:103-107 | the capture part holds only captures and the quiet part only non-captures |
| Search.SplitIsPermutation | src/search.cpp:103-107 | the two parts together are a permutation of the list |
| Search.CapturesFirstPermutes | src/search.cpp:103-107 | the ordered list is a permutation of the input with the same members |
| Search.CapturesFirstLead | src/search.cpp:103-107 | in the ordered list no capture follows a non-capture |
| Search.CapturesFirstStable | src/search.cpp:103-107 | each group keeps its generation order |
| Search.StableOrderUnique | src/search.cpp:103-107 | the ordered list is the only captures-first list that keeps both groups in order, so it is what `std::stable_sort` with that comparison returns |
| Search.CapturesConcat | src/search.cpp:103-107 | taking captures distributes over concatenation |
| Search.QuietsConcat | src/search.cpp:103-107 | taking non-captures distributes over concatenation |
| Search.LeadSplits | src/search.cpp:103-107 | a captures-first list is its captures followed by its non-captures |
| Search.Ordered | src/search.cpp:87-107 | the moves the search loops over all start and end on the board |
| Search.TreeOf | src/search.cpp:83-107 | the tree is a leaf exactly at depth 0 |
| Search.ExpandLength | src/search.cpp:87-107 | an inner node has one subtree slot per ordered legal move |
| Search.ChildTreeOf | src/search.cpp:110-113 | a slot is filled exactly when `makeMove` accepts its move, and then holds the tree of the resulting position one ply shallower |
| Search.OrderedAccepted | src/search.cpp:87-107 | every ordered move is accepted by `makeMove`, and there are as many as legal moves |
| Search.Node | src/search.cpp:72-98 | defines what `alphaBeta` returns on a game tree: the deadline test first, the evaluation at the horizon, -MATE_SCORE or 0 for a position without legal moves in or out of check, otherwise the move loop; stated by Search.NodeScoreBounded, Search.NodeFailSoft and Search.FullWindowIsNegamax |
| Search.NodeScoreBounded | src/search.cpp:72-135 | on a tree the rules build, `alphaBeta` returns a score between -MATE_SCORE and MATE_SCORE |
| Search.Loop | src/search.cpp:109-134 | defines the move loop: skip a rejected move, stop on time, raise the best score and alpha, cut off at beta; stated by Search.LoopScoreBounded, Search.LoopFailSoft and Search.LoopNoDeadline |
| Search.LoopScoreBounded | src/search.cpp:100-134 | the move loop, started from INT_MIN before its first move or from a score in range, returns a score between -MATE_SCORE and MATE_SCORE |
| Search.NodeTimeUp | src/search.cpp:74-81 | once `timeUp` is set it stays set; a search that sets it reports 0; the clock never goes back |
| Search.LoopTimeUp | src/search.cpp:117-120 | the move loop passes `timeUp` on and returns 0 when it is set |
| Search.NoDeadlineNoTimeUp | src/search.cpp:75-81 | without a deadline the search never runs out of time |
| Search.LoopNoDeadline | src/search.cpp:109-134 | without a deadline the move loop never runs out of time |
| Search.BestReplyFrom | src/search.cpp:122-124 | the best reply from a higher starting value is the larger of that value and the best reply |
| Search.NodeFailSoft | src/search.cpp:72-135 | without a deadline, `alphaBeta` returns the negamax value inside the window, and outside it a value between the window edge and the negamax value |
| Search.LoopFailSoft | src/search.cpp:109-134 | the move loop, with the beta cutoff, keeps the fail-soft bound against the best negated child value |
| Search.WindowStep | src/search.cpp:113-131 | one iteration of the loop preserves the fail-soft bound |
| Search.FullWindowIsNegamax | src/search.cpp:72-135 | with the full window, `alphaBeta` returns exactly the negamax value, which lies in the score range |
| Search.RootPass | src/search.cpp:157-184 | defines one depth of the root loop: each root move searched with the window (-beta, -alpha), the first strictly better move kept; stated by Search.RootPassIsNegamax and Search.RootPassChooses |
| Search.RootPassIsNegamax | src/search.cpp:163-184 | without a deadline, a depth of the root loop finishes and picks the same best score and the same first best move as plain negamax |
| Search.RootPassChooses | src/search.cpp:163-184 | a finished depth ends on one of the root moves |
| Search.RootWindowAsWritten | src/search.cpp:157 | with the root window starting at INT_MIN, the wrap of `-alpha` makes the search play a move that negamax ranks lower; starting at -INT_MAX it plays the negamax move |
| Search.BestMove | src/search.cpp:137-199 | a move `searchBestMove` reports is a legal root move, and, whatever the deadline, it is the first best root move of negamax at a depth `d` between 1 and `maxDepth` such that depths 1 to `d` all completed and `d` is `maxDepth` or depth `d`+1 was cut short |
| Search.OrderedMembers | src/search.cpp:138-148 | the ordered root list has exactly the legal moves as members |
| Search.PassChoosesLegal | src/search.cpp:163-189 | a completed depth chooses a legal move |
| Search.Deepen | src/search.cpp:156-194 | defines the deepening loop: depths 1 to `maxDepth`, each completed depth replacing the move, the first incomplete one ending the loop; stated by Search.DeepenLegal, Search.DeepenNoDeadline and Search.DeepenIsNegamax |
| Search.DeepenLegal | src/search.cpp:156-194 | the deepening loop finds a move exactly when one was already found or a depth completes, the move is legal, and with no move found the caller's move is kept |
| Search.BestMoveLegal | src/search.cpp:137-199 | `searchBestMove` succeeds exactly when there is a legal move and depth 1 completes; its move is then legal and is negamax's first best root move at the last depth that completed (every depth up to it completed, and it is `maxDepth` or the next depth was cut short); otherwise the caller's move is untouched |
| Search.NodeIgnoresDeadline | src/search.cpp:72-98 | a node search that does not run out of time (the test at lines 75-81) returns the score it returns without a deadline, from any clock |
| Search.LoopIgnoresDeadline | src/search.cpp:109-134 | a move loop that does not run out of time returns the score it returns without a deadline |
| Search.RootPassIgnoresDeadline | src/search.cpp:163-184 | a depth of the root loop that completes before the deadline picks the same score and move as without a deadline |
| Search.CompletedPassIsNegamax | src/search.cpp:157-189 | a depth of the root loop that completes, deadline or not, picks negamax's best score and first best move at that depth |
| Search.DeepenIsNegamax | src/search.cpp:156-194 | the move the deepening loop ends with is the move it started with, when its first depth does not complete, or negamax's first best move at the last depth that completed, every earlier depth having completed |
| Search.LastCompletedFromEarlier | src/search.cpp:156-194 | when depth `from` completes, a last completed depth of the loop started at `from`+1 is also the last completed depth of the loop started at `from` |
| Search.DeepenNoDeadline | src/search.cpp:156-194 | without a deadline every depth completes, and the move is the one negamax picks at the last depth |
| Search.PassIsNegamax | src/search.cpp:163-184 | without a deadline one depth completes with negamax's choice |
| Search.BestMoveNoDeadline | src/search.cpp:137-199 | without a deadline and with legal moves, `searchBestMove` returns the first best root move of negamax at `maxDepth` |
| Search.OrderedChildren | src/search.cpp:109-115 | on a consistent position the tree's slots correspond one to one with the ordered moves |
| Search.LoopStep | src/search.cpp:109-131 | one iteration of the move loop as the method runs it: skip, abort on time, cut off, or continue |
| Search.RootStep | src/search.cpp:163-184 | one iteration of the root loop as the method runs it |
| Search.SearchChild | src/search.cpp:110-119 | makes the move, searches the reply and undoes it; the result is the child's node value, and the position comes back unchanged |
| Search.SearchReply | src/search.cpp:113-115 | searches the position after a move and takes the move back, giving the position back as before the move |
| Search.AlphaBeta | src/search.cpp:72-135 | returns the specified node result on the tree the rules give the position, and hands the position back unchanged |
| Search.SearchMoves | src/search.cpp:100-134 | the move loop returns the specified loop result and hands the position back unchanged |
| Search.RootSearch | src/search.cpp:157-184 | one depth of the root loop returns the specified pass and hands the position back unchanged |
| Search.SearchBestMove | src/search.cpp:137-199 | returns the specified outcome (found, move, clock) and hands the position back unchanged |
| Search.DeepenLoop | src/search.cpp:156-194 | the deepening loop, with the `goto` as a loop exit, returns the specified outcome and hands the position back unchanged |
| Perfts.PerftSumFilter | src/perft.cpp:13-19 | summing over the pseudo-legal moves, where rejected moves count 0, equals summing over the legal ones |
| Perfts.PerftCount | src/perft.cpp:4-27 | defines `Perft`: 1 at depth 0, otherwise the sum over the pseudo-legal moves `makeMove` accepts of the count below; stated by Perfts.PerftOverLegal and Perfts.PerftOne |
| Perfts.PerftOverLegal | src/perft.cpp:4-27 | `Perft(pos, d)` is the sum over legal moves of `Perft(child, d-1)` |
| Perfts.PerftSumOnes | src/perft.cpp:5-6 | at depth 1 each accepted move counts one leaf |
| Perfts.PerftOne | src/perft.cpp:4-27 | `Perft(pos, 1)` is the number of legal moves |
| Perfts.Perft | src/perft.cpp:4-27 | returns the specified count and hands the position and stack back unchanged, so the balance check never aborts |
| Perfts.CountMoves | src/perft.cpp:13-19 | the loop sums the counts of the accepted moves and hands the position back unchanged |
| Perfts.PerftMove | src/perft.cpp:15-18 | one move contributes 0 when rejected and the child's count otherwise |
| Perfts.MoveCountOf | src/perft.cpp:15-17 | a move's contribution is 0 when `makeMove` rejects it and the perft of the resulting position otherwise |
| Perfts.PerftReply | src/perft.cpp:17-18 | counts below an accepted move and takes it back |
| Perfts.PerftDivide | src/perft.cpp:29-46 | the per-move total equals `Perft(pos, depth)`, and the position comes back unchanged |
| Session.ParseSquare | src/engine_session.cpp:5-14 | `parseSquare` returns -1 or an on-board square |
| Session.ParseSquareAccepts | src/engine_session.cpp:5-14 | it accepts exactly two characters with a file a-h and a rank 1-8, and the square has that file and rank |
| Session.SquareNameRoundTrip | src/engine_session.cpp:5-14 | the name written for a square parses back to it, and a name that parses is the name of its square |
| Session.PromotionLetters | src/engine_session.cpp:16-24 | q, r, b and n in either case, and nothing else, give a queen, rook, bishop or knight of the side, written with the same letter |
| Session.FirstMatch | src/engine_session.cpp:54-69 | the match found is in the list and matches; nothing is found exactly when no move matches |
| Session.FindMatch | src/engine_session.cpp:54-70 | the loop finds the first matching move |
| Session.HumanMove | src/engine_session.cpp:26-73 | defines `applyHumanMove` on a position: its report (move or error text) and the position after it; stated by Session.HumanMoveIsLegal, Session.HumanMoveKeepsPosition and Session.HumanMoveNotFound |
| Session.HumanMoveIsLegal | src/engine_session.cpp:51-67 | a played move is a legal move with the typed squares, with the promotion letter exactly for a promotion; the position advances by it; "makeMove rejected" never happens |
| Session.HumanMoveKeepsPosition | src/engine_session.cpp:26-73 | every error, "Move too short", "Invalid square", "Invalid promotion piece" and "Move not found" included, leaves a reachable position as it was; a played move leaves a reachable one |
| Session.HumanMoveNotFound | src/engine_session.cpp:71-72 | "Move not found in legal moves" is reported exactly when the text parses and no legal move matches it |
| Session.TrailingIgnored | src/engine_session.cpp:43-44 | characters after the fifth are ignored |
| Session.LegalMoveCanBeTyped | src/engine_session.cpp:26-73 | every legal move can be entered as its two square names plus a promotion letter |
| Session.ResultOf | src/engine_session.h:33-40 | defines `getGameResult`: ONGOING with a legal move, otherwise CHECKMATE in check and STALEMATE out of it; stated by Session.ResultMatchesSearch and Session.EngineSession.GetGameResult |
| Session.ResultMatchesSearch | src/engine_session.h:33-40 | checkmate and stalemate as `getGameResult` reports them are the positions `alphaBeta` scores -MATE_SCORE and 0 |
| Session.LegalWellFormed | src/movegen.cpp:295-305 | every legal move is one `makeMove` and `undoMove` handle |
| Session.EngineSession.constructor | src/engine_session.h:18-21 | the session holds the given config, the start position, and White as the human's colour |
| Session.EngineSession.NewGame | src/engine_session.h:23-26 | resets the position to the start position and sets the human's colour |
| Session.EngineSession.GetGameResult | src/engine_session.h:33-40 | ONGOING exactly when there is a legal move, otherwise CHECKMATE when in check and STALEMATE when not; the position is not changed |
| Session.EngineSession.ApplyHumanMove | src/engine_session.cpp:26-73 | the report and the new position are exactly what the human-move function specifies |
| Session.EngineSession.ApplyEngineMove | src/engine_session.cpp:75-90 | on success the move is legal for the old position and the position has advanced by it; on failure the position is unchanged |
| Display.PieceToChar | src/utils.h:5-38 | every piece maps to a one-character string |
| Display.PieceLetters | src/utils.h:5-38 | white pieces map to "PNBRQK", black pieces to "pnbrqk", `EMPTY` to "." and anything else to "?" |
| Display.LetterRoundTrip | src/utils.h:5-38 | the letter of a piece reads back to that piece |
| Display.PieceToCharInjective | src/utils.h:5-38 | `pieceToChar` is injective on the 13 piece values |
| Display.LetterCaseIsColor | src/utils.h:5-38 | upper-case letters are exactly the white pieces and lower-case exactly the black ones |
| Display.PieceToSymbol | src/utils.h:40-73 | every piece maps to a one-character string |
| Display.SymbolRoundTrip | src/utils.h:40-73 | the symbol of a piece reads back to that piece; `EMPTY` gives "." and anything else "?" |
| Display.PieceToSymbolInjective | src/utils.h:40-73 | `pieceToSymbol` is injective on the 13 piece values |
| Display.PieceToRepresentation | src/utils.h:75-79 | the representation is a one-character string |
| Display.RepresentationInjective | src/utils.h:75-79 | either representation tells the 13 piece values apart |
| Display.CastlingText | src/utils.h:100-112 | defines the castling field: the letters of "KQkq" for the rights held, or "-"; stated by Display.CastlingTextRoundTrip and Display.CastlingTextInjective |
| Display.CastlingTextRoundTrip | src/utils.h:100-112 | the text is "-" exactly when no right is held; otherwise the letters of "KQkq" read back to the rights |
| Display.CastlingTextInjective | src/utils.h:100-112 | different rights give different texts |
| Display.RightsFromBits | src/utils.h:100-112 | the four low bits of the rights are exactly the union of the right bits they hold, so the four letters describe them completely |
| Display.EpText | src/utils.h:115-124 | the text is "-" for -1 and two characters otherwise |
| Display.EpTextOfSquare | src/utils.h:119-123 | for a square, the text is its file letter `'a' + (ep & 7)` followed by its rank digit `'1' + (ep >> 4)` |
| Display.EpTextInjective | src/utils.h:115-124 | different squares give different texts |
| Fen.Placement | web/static/game.js:28 | the placement field is the FEN up to its first space |
| Fen.Split | web/static/game.js:29 | `split` gives at least one part, no part holds the separator, and every character of a part comes from the text |
| Fen.JoinSplit | web/static/game.js:29 | joining the parts of a split with the separator gives back the text |
| Fen.SplitJoin | web/static/game.js:29 | splitting parts that hold no separator, once joined, gives back the parts |
| Fen.PlacementStopsAtSpace | web/static/game.js:28 | text after the first space does not affect the placement field |
| Fen.ParseRank | web/static/game.js:33-45 | a rank that parses fills a row of 8 cells |
| Fen.ParseRanks | web/static/game.js:33-45 | ranks that parse fill an 8x8 grid |
| Fen.FenToBoardArray | web/static/game.js:27-47 | returns null exactly when the reader rejects the FEN, and otherwise a fresh 8x8 array holding the grid the reader specifies, with rank 8 in row 0 |
| Fen.FillRank | web/static/game.js:34-43 | writes one rank into its row of the board exactly as the rank reader specifies, fails exactly where the reader rejects the rank, and changes no other row |
| Fen.FenOnlyPlacement | web/static/game.js:28-30 | only the text before the first space is read |
| Fen.ParseRankCells | web/static/game.js:35-42 | every cell a rank fills holds a piece character |
| Fen.ParseRanksCells | web/static/game.js:33-45 | every grid the rank loop fills holds only empty cells and piece characters |
| Fen.FenBoard | web/static/game.js:27-47 | defines what `fenToBoardArray` returns: the 8x8 board, or `null` when the placement does not have eight ranks of eight files; stated by Fen.FenBoardShape, Fen.FenRoundTrip and Fen.FenToBoardArray |
| Fen.FenBoardShape | web/static/game.js:27-47 | an accepted FEN gives an 8x8 grid whose cells are empty or piece characters |
| Fen.FlushParse | web/static/game.js:36-37 | a digit advances the file counter by its value |
| Fen.ParseRunText | web/static/game.js:33-45 | reading back the text the placement writer gives for a row yields that row |
| Fen.FenRoundTrip | web/static/game.js:27-47 | every 8x8 grid of empty cells and piece characters, written as in section 16.1.3.1 of the PGN standard, reads back to itself |
| Fen.GetPieceAtSquareFromFen | web/static/game.js:59-70 | defines the square lookup: `null`, `undefined`, a piece letter or a TypeError; stated by Fen.LookupSquare and Fen.LookupErrors |
| Fen.LookupSquare | web/static/game.js:59-70 | an invalid FEN gives null; for a valid FEN and a square name, the result is the cell at row `7 - rank`, column `file` |
| Fen.LookupErrors | web/static/game.js:64-69 | the lookup throws exactly when the square text is too short or its rank is out of range, and gives `undefined` exactly when only the file is out of range |
| Fen.Slice | web/static/game.js:74-75 | `slice` clamps its bounds and copies the characters between them |
| Fen.TrimStart | web/static/game.js:86 | trimming the start drops exactly the leading whitespace |
| Fen.TrimEnd | web/static/game.js:86 | trimming the end drops exactly the trailing whitespace |
| Fen.LowerString | web/static/game.js:86 | lower-casing keeps the length and lower-cases each character |
| Fen.Chosen | web/static/game.js:85-88 | the letter settled on is always a single one of q, r, b, n |
| Fen.ChosenLetter | web/static/game.js:85-88 | the answer's own letter is chosen when it trims and lower-cases to q, r, b or n; anything else, a cancelled prompt or an empty answer gives "q" |
| Fen.AddPromotionSuffix | web/static/game.js:76-88 | whatever the lookup found, the result is thrown exactly for a TypeError, and otherwise is the move with the chosen letter appended exactly when the piece is a pawn moving to its last rank |
| Fen.MaybeAddPromotion | web/static/game.js:72-89 | defines `maybeAddPromotion`: the move string, with the chosen letter added when a pawn reaches the last rank; stated by Fen.AddPromotionSuffix, Fen.PromotionSuffix and Fen.PromotionIsRead |
| Fen.PromotionSuffix | web/static/game.js:72-89 | `maybeAddPromotion` throws exactly when the lookup of the from-square throws; otherwise it appends the chosen letter exactly when a pawn moves to its last rank and returns the move unchanged otherwise |
| Fen.PromotionIsRead | web/static/game.js:85-88 | the appended letter is one the engine's promotion parser reads as a promotion piece |
| Findings.PawnHitMatchesCaptures | src/position.cpp:44-56 | the corrected pawn test finds exactly the pawns whose generated capture squares include the king's square |
| Findings.PawnHitAsWrittenReversed | src/position.cpp:44-56 | as written, the test looks for pawns that capture the other colour's way |
| Findings.PawnCheckMissedAsWritten | src/position.cpp:44-56 | a white pawn on d7 checks the black king on e8, and the test as written misses it |
| Findings.RayHitSees | src/position.cpp:69-95 | the corrected ray test holds exactly when the ray meets an attacking slider with only empty squares before it |
| Findings.DiagonalRayAsWrittenBlind | src/position.cpp:70-81 | as written, the diagonal loop looks only at the king's own square and never reports a check |
| Findings.BishopCheckMissedAsWritten | src/position.cpp:73 | a black bishop on h4 checks the white king on e1, and the loop as written misses it |
| Findings.UncastleAsWrittenMisplacesRook | src/position.cpp:313 | as written, undoing white king-side castling leaves h1 empty and the rook on g1; the corrected undo restores the board |

## Left out

- The wall clock (search.cpp:75-81, engine_session.cpp:76-79) is a tick counter: each reading sees the count and advances it by one, and `endTime` is a count. `thinkTimeMs` is added to the count as a number of ticks.
- The depth log at search.cpp:191, the printing in `PerftDivide` (perft.cpp:42-44) and `printBoard`'s stream output are left out. Only the text fragments of `printBoard` are modelled.
- `main.cpp`, `MoveToString` (move.cpp) and the test driver (perft_tests.cpp) are left out. They are console and debug output.
- The perft counts the tests expect from the start position (20, 400 and deeper) are not proved: computing the legal moves of a concrete position is beyond what the verifier evaluates. `Perfts.PerftOne` states what depth 1 counts.
- `web/app.py` and the DOM, `fetch` and event code of game.js are left out. They are process, network and UI plumbing. The `prompt` answer is a parameter.
- The position accessors `position()`, `sideToMove()` and `getHumanColor()` are read-only functions with no contract.
- Session.EngineSession.ApplyHumanMove: does not model the caller's `outMove` and `error` variables, which keep their old values on the paths that do not set them. The result is a value holding either the move or the error text.
- Session.HumanMove: the model reads the typed text as a sequence of code points, while the source's `std::string` counts bytes. The two agree on ASCII text. For "e2é" (4 bytes, 3 code points) the source reports "Invalid square" and the model "Move too short". Session.EngineSession.ApplyHumanMove inherits this.
- Session.EngineSession.ApplyEngineMove: does not model the caller's `outMove`, which the source leaves untouched on failure; the model's move out-parameter then holds the search's fallback. The deadline is `clock + thinkTimeMs` ticks.
- Perfts.PerftDivide: requires depth 1 or more. At depth 0 the source calls `Perft(pos, -1)`, which never reaches its base case and recurses without bound.
- Fen.FenToBoardArray: a `null` or `undefined` FEN (`fen \|\| ""` at game.js:28) is not modelled, since strings here are never null.
- JavaScript strings are UTF-16, while strings here are sequences of code points. The two agree on every FEN and move text the engine writes. The lookup's first-character test reproduces the `charCodeAt` behaviour on characters beyond U+FFFF.
- `toLowerCase` is modelled on ASCII only. No other character lower-cases to q, r, b or n, so the chosen letter is the same.
- Integer widths: scores use Dafny's unbounded `int` except for the negations in the search, which use `Search.Neg32`. Move fields are narrowed explicitly in `Moves.NewMove`. Clocks and counts are unbounded.
- `Positions.Position.MakeMove` and the other state-changing methods state their new state through `old(...)`. `Fen.FenToBoardArray` returns a `fresh` array.
- `std::stable_sort` is specified by its result: the captures-first list that keeps each group's order (`Search.StableOrderUnique`).

## Findings

| source | as written | input that shows it | evidently intended | confidence | as-written member | corrected member |
|---|---|---|---|---|---|---|
| src/position.cpp:44-56 | the pawn test for a white attacker looks at `sq+15`/`sq+17`, above the king; for a black attacker it looks below | black king on e8, white pawn on d7: a check the test misses | look where the attacking pawn stands: below the king for White, above it for Black | high (not executed) | Findings.PawnCheckMissedAsWritten | Findings.PawnHitMatchesCaptures |
| src/position.cpp:73 | `sq + off;` never advances the diagonal ray | white king on e1, black bishop on h4: a check the loop misses | `sq += off;` walks the ray | high (not executed) | Findings.BishopCheckMissedAsWritten | Findings.RayHitSees |
| src/position.cpp:237 | a captured black rook is compared against `SQ_H1` | capturing the black rook on h8 with all rights held keeps Black's king-side right | compare against `SQ_H8` | high (not executed) | Rules.H8CaptureKeepsRightAsWritten | Rules.CaptureRightsUpdates |
| src/position.cpp:313 | undoing white king-side castling puts the rook on g1 | white O-O from a consistent position, then `undoMove`: h1 empty, rook on g1 | put the rook back on h1 | high (not executed) | Findings.UncastleAsWrittenMisplacesRook | RoundTrip.UndoApply |
| src/search.cpp:157 | the root window starts at INT_MIN, and `-alpha` at line 167 wraps back to INT_MIN | root move A with replies leading to positions worth 5 and -7 to the side at the root, and root move B with one reply leading to a position worth 0 to it: the search plays A, negamax prefers B | start the window at -INT_MAX so that it negates cleanly | medium (not executed) | Search.RootWindowAsWritten | Search.RootPassIsNegamax |
