# Chess rules engine and carousel index, in Dafny

This project models two pieces of the repository. The main one is the chess
rules engine: the `Chessboard` class of
`frontend/src/app/chess/shared/models/chessboard.old.ts`. The other is the
index arithmetic of the image carousel in
`src/app/shared/carousel/carousel.component.ts`.

On the chess side, the board is a 64-entry array of signed piece codes. The
sign is the colour (White positive) and the magnitude is the kind. Beside the
board sit:

- the two cached king squares;
- a landing counter per square (`chessSquareHistory`);
- the stack of captured pieces (`removedPieces`);
- the move log;
- the side to move.

The model has three layers:

- **Pure modules.** These hold the geometry of the squares and the
  `isValid*Move` family as predicates over a board value. They also hold the
  move generators (ray walking, the knight offset table, king adjacency, the
  pawn's four candidates) and check detection (eight rays and the knight
  test).
- **The state as a value.** `GameState` gives the class's fields as a value
  and states, as functions, what each state-changing operation does to it:
  `movePiece`, `applyCastleMove`, `undoMove`, `undoPawnPromotion`,
  `promotePawn`, the counters and the turn. The legality filter, the move
  lists, the game-end tests and the evaluation are built on these functions.
- **The class.** `Chessboards.Chessboard` keeps the source's fields, with the
  board as an `array<int>`. Each method is proved to change the fields
  exactly as the matching `GameState` function says. The loops of
  `getMovesInPath`, `isInCheckFrom`, `isPathClear`, `removeIllegalMoves`,
  `getAllMoves`, `evaluate` and the castle path are `while` loops with their
  invariants.

The main results are these:

- `movePiece` followed by `undoMove` restores every field, once
  `undoPawnPromotion` is corrected, for a non-castle move whose kings stand
  where their caches say, with any promotion carried by a pawn of the
  promoted piece's colour and not to a king. Those are the conditions of
  `GameState.Restorable`.
- `isInCheckAfterMove` therefore leaves the board as it found it for such a
  move. Every move the generators produce is one, as long as no king stands
  anywhere but where its cache says.
- `removeIllegalMoves` keeps, in order, exactly the moves that do not leave
  the mover in check.
- The knight, king and pawn generators produce exactly the moves the rules
  allow each piece. The ray walk of the rook, bishop and queen is
  characterised square by square along the ray.
- Each `isValid*Move` test holds exactly on its geometric description.
- Check detection means "the first piece on some ray, or a knight, can reach
  the king".
- Checkmate and stalemate exclude each other.
- The carousel index stays in range and its two steps invert each other.

Piece codes are EMPTY = 0, PAWN = 1, KNIGHT = 2, BISHOP = 3, ROOK = 4,
QUEEN = 5, KING = 6, negated for Black. The source's enum is not part of this
model. Only the distinctness and the positivity of the kinds matter to the
rules, and `evaluate` sums the magnitudes, so its value follows these
numbers.

Three behaviours of the code shape the model:

- `getKingMoves` never offers castling. It only walks the eight neighbours
  (lines 419-444). Castling exists only as `isValidCastleMove` inside
  `isValidKingMove`.
- `undoMove` is not the inverse of a castle. It treats every move as an
  ordinary one (lines 174-176), so the model claims the inverse only for
  non-castle moves.
- `chessSquareHistory` starts as an empty map (line 10). The counters are
  therefore never numbers (see Findings). The model preloads every square
  with 0, so that `hasPieceAtMoved` (lines 533-535) sees a landing.

## Model

| member | source | states |
|---|---|---|
| Pieces.Sign | frontend/src/app/chess/shared/models/chessboard.old.ts:391-397 | Math.sign: 0, 1 or -1 exactly as the code is zero, positive or negative |
| Pieces.Abs | frontend/src/app/chess/shared/models/chessboard.old.ts:495 | Math.abs: non-negative and equal to the code up to sign |
| Pieces.ColorOf | frontend/src/app/chess/shared/models/chessboard.old.ts:286-293 | getColorOf: White iff the code is positive, Black iff negative, Empty iff zero |
| Pieces.Opponent | frontend/src/app/chess/shared/models/chessboard.old.ts:93-95 | getOpponentColor: the result is a side other than the argument, so for a side the only other one; an empty colour gets White |
| Pieces.OpponentAlternates | frontend/src/app/chess/shared/models/chessboard.old.ts:219-221 | changeTurn always changes the side, and two flips give it back |
| Squares.SquareAt | frontend/src/app/chess/shared/models/chessboard.old.ts:338 | row * 8 + column of an on-board pair is a valid location |
| Squares.SquareDecomposes | frontend/src/app/chess/shared/models/chessboard.old.ts:335-338 | a valid location splits into an on-board row and column that give it back |
| Squares.IsInLeftMostColumn | frontend/src/app/chess/shared/models/chessboard.old.ts:270-272 | holds iff the column is 0, that is iff the square is 0 or the square before it lies on another row |
| Squares.IsInRightMostColumn | frontend/src/app/chess/shared/models/chessboard.old.ts:274-276 | holds iff the column is 7, that is iff the square is 63 or the square after it lies on another row |
| Squares.IsInFirstRow | frontend/src/app/chess/shared/models/chessboard.old.ts:278-280 | holds iff the square is on the board in row 0 |
| Squares.IsInLastRow | frontend/src/app/chess/shared/models/chessboard.old.ts:282-284 | holds iff the square is on the board in row 7 |
| Squares.OneSquareAwayOffsets | frontend/src/app/chess/shared/models/chessboard.old.ts:419-434 | the king's eight offsets, with the edge-column guards, are exactly the squares one step away |
| Squares.KnightPatternOffsets | frontend/src/app/chess/shared/models/chessboard.old.ts:379-386 | every (2,1)/(1,2) destination is one of the eight offsets the generator tries |
| Paths.PathClearFromEmptyBetween | frontend/src/app/chess/shared/models/chessboard.old.ts:638-648 | the walk succeeds iff every square it visits strictly before the destination is empty |
| Paths.PathClearIffEmptyBetween | frontend/src/app/chess/shared/models/chessboard.old.ts:630-650 | isPathClear holds iff every intermediate square of the walk from `from` to `to` is empty |
| MoveRules.EnemyOrEmptyFromPiece | frontend/src/app/chess/shared/models/chessboard.old.ts:391-397 | from an occupied square, "differs in sign" is exactly "enemy or empty" |
| MoveRules.CastleGuardNeedsRook | frontend/src/app/chess/shared/models/chessboard.old.ts:541 | the castle guard fails whenever the destination does not hold a rook |
| MoveRules.KnightMoveMeaning | frontend/src/app/chess/shared/models/chessboard.old.ts:561-571 | isValidKnightMove holds iff `to` is on the board, not friendly and a (2,1)/(1,2) jump away; such a move is one of the eight offsets |
| MoveRules.IsCastleMove | frontend/src/app/chess/shared/models/chessboard.old.ts:681-683 | isCastleMove: the two squares have the same sign; defined here, used by MovePiece and the probes |
| MoveRules.IsValidKnightMove | frontend/src/app/chess/shared/models/chessboard.old.ts:561-571 | isValidKnightMove as written; its meaning is KnightMoveMeaning |
| MoveRules.IsValidRookMove | frontend/src/app/chess/shared/models/chessboard.old.ts:506-510 | isValidRookMove as written; its meaning is RookMoveMeaning |
| MoveRules.IsValidBishopMove | frontend/src/app/chess/shared/models/chessboard.old.ts:512-521 | isValidBishopMove as written; its meaning is BishopMoveMeaning |
| MoveRules.IsValidQueenMove | frontend/src/app/chess/shared/models/chessboard.old.ts:573-575 | isValidQueenMove as written; its meaning is QueenMoveMeaning |
| MoveRules.IsValidKingStep | frontend/src/app/chess/shared/models/chessboard.old.ts:523-525 | the step disjunct of isValidKingMove; its meaning is KingStepMeaning |
| MoveRules.IsValidPawnDiagonalMove | frontend/src/app/chess/shared/models/chessboard.old.ts:582-595 | isValidPawnDiagonalMove as written; its meaning is PawnDiagonalMeaning |
| MoveRules.IsValidPawnMove | frontend/src/app/chess/shared/models/chessboard.old.ts:577-579 | isValidPawnMove with the corrected forward test (see Findings) |
| MoveRules.IsValidMove | frontend/src/app/chess/shared/models/chessboard.old.ts:493-504 | the dispatch of isValidMove on the kind of the piece, without the castle disjunct and with the corrected pawn forward test |
| MoveRules.RookMoveMeaning | frontend/src/app/chess/shared/models/chessboard.old.ts:506-510 | isValidRookMove holds iff the move keeps its row or column, every square strictly between is empty and `to` is not friendly |
| MoveRules.BishopMoveMeaning | frontend/src/app/chess/shared/models/chessboard.old.ts:512-521 | isValidBishopMove holds iff the move keeps its diagonal, every square strictly between is empty and `to` is not friendly |
| MoveRules.QueenMoveMeaning | frontend/src/app/chess/shared/models/chessboard.old.ts:573-575 | isValidQueenMove holds iff the move keeps a row, a column or a diagonal, every square strictly between is empty and `to` is not friendly |
| MoveRules.KingStepMeaning | frontend/src/app/chess/shared/models/chessboard.old.ts:523-534 | the king step holds iff `to` is not friendly and lies at one of the eight neighbourhood offsets, the sideways ones only away from the edge column they would cross |
| MoveRules.PawnDiagonalMeaning | frontend/src/app/chess/shared/models/chessboard.old.ts:582-595 | isValidPawnDiagonalMove holds iff an occupied `from` captures an enemy on `to`, one column aside and one row forward (up the board for White, down for Black) |
| MoveRules.PawnForwardMeaning | frontend/src/app/chess/shared/models/chessboard.old.ts:609-624 | the forward test (grouping corrected) holds iff an occupied `from` moves onto an empty `to` one row forward, or two from its starting row over an empty square; such a move stays in its column |
| MoveRules.PawnForwardAsWrittenMeaning | frontend/src/app/chess/shared/models/chessboard.old.ts:609-624 | the forward test as written accepts exactly the corrected test's moves plus a white double step from row 6 onto an empty square, whatever it passes over |
| MoveRules.WhiteDoubleStepOverPiece | frontend/src/app/chess/shared/models/chessboard.old.ts:619-621 | as written, a white pawn on 52 may advance to 36 over a piece on 44; the corrected test refuses it |
| Generation.PathMoves | frontend/src/app/chess/shared/models/chessboard.old.ts:333-352 | getMovesInPath's result as a function of the board; its meaning is PathMovesAlongRay |
| Generation.RookMoves | frontend/src/app/chess/shared/models/chessboard.old.ts:358-366 | the four rook rays of getRookMoves, before filtering |
| Generation.BishopMoves | frontend/src/app/chess/shared/models/chessboard.old.ts:403-410 | the four diagonals of getBishopMoves, before filtering |
| Generation.KnightMoves | frontend/src/app/chess/shared/models/chessboard.old.ts:376-389 | the candidates of getKnightMoves, before filtering; its meaning is KnightMovesExact |
| Generation.KingMoves | frontend/src/app/chess/shared/models/chessboard.old.ts:419-444 | the candidates of getKingMoves, before filtering; its meaning is KingMovesExact |
| Generation.PawnMoves | frontend/src/app/chess/shared/models/chessboard.old.ts:295-331 | the candidates of getPawnMoves, before filtering; its meaning is PawnMovesExact |
| Generation.PieceMoves | frontend/src/app/chess/shared/models/chessboard.old.ts:200-211 | the dispatch of getMovesForPieceAt on the kind of the piece, before filtering |
| Generation.RayMoves | frontend/src/app/chess/shared/models/chessboard.old.ts:333-352 | every move of the ray starts at the piece and lands on the board |
| Generation.RayMovesStep | frontend/src/app/chess/shared/models/chessboard.old.ts:337-350 | one loop iteration of getMovesInPath: stop after an enemy, continue over an empty square, stop before a friend |
| Generation.RayMovesAt | frontend/src/app/chess/shared/models/chessboard.old.ts:337-347 | the i-th move goes to the i-th square of the ray, which is empty or enemy, and empty unless it is the last |
| Generation.RayStopsStep | frontend/src/app/chess/shared/models/chessboard.old.ts:343-344 | an empty square passes the stopping condition of the rest of the ray back to the walk |
| Generation.RayMovesEnd | frontend/src/app/chess/shared/models/chessboard.old.ts:337-351 | the walk ends on an enemy it took, at the edge, or before a friendly piece |
| Generation.PathMovesAt | frontend/src/app/chess/shared/models/chessboard.old.ts:333-352 | the i-th move of getMovesInPath is the (i+1)-th square of the ray from the piece, empty or enemy, and empty unless last |
| Generation.PathMovesEnd | frontend/src/app/chess/shared/models/chessboard.old.ts:339-347 | the path ends with an enemy capture, at the board edge, or just before a friendly piece |
| Generation.PathMovesAlongRay | frontend/src/app/chess/shared/models/chessboard.old.ts:333-352 | getMovesInPath yields consecutive on-board ray squares, empty before the last, and stops at the first occupied square, which is included iff it is an enemy |
| Generation.KnightMovesAmongMembers | frontend/src/app/chess/shared/models/chessboard.old.ts:379-386 | a move is generated from a list of offsets iff its offset is listed and isValidKnightMove accepts it |
| Generation.KnightMovesExact | frontend/src/app/chess/shared/models/chessboard.old.ts:376-389 | getKnightMoves (before filtering) yields exactly the on-board, non-friendly knight jumps; none wraps across an edge |
| Generation.KingMovesAmongStep | frontend/src/app/chess/shared/models/chessboard.old.ts:436-442 | one iteration of the candidate loop of getKingMoves |
| Generation.KingMovesAmongMembers | frontend/src/app/chess/shared/models/chessboard.old.ts:436-442 | a move is kept iff its square is a candidate, on the board, and enemy or empty |
| Generation.KingMovesExact | frontend/src/app/chess/shared/models/chessboard.old.ts:419-444 | getKingMoves (before filtering) yields exactly the on-board neighbours that are enemy or empty |
| Generation.PawnMovesExact | frontend/src/app/chess/shared/models/chessboard.old.ts:295-331 | the pawn moves one square forward onto an empty square. It moves two only from its starting row with both squares empty. It moves diagonally only onto an enemy exactly one column aside, never off the edge column |
| Generation.DiagonalColumn | frontend/src/app/chess/shared/models/chessboard.old.ts:304-322 | a diagonal offset lands one column aside iff the origin is not in the edge column it leaves |
| Generation.PathMovesCandidates | frontend/src/app/chess/shared/models/chessboard.old.ts:333-352 | every ray move starts at the piece, has no promotion and lands on a non-friendly on-board square |
| Generation.GeneratorCandidates | frontend/src/app/chess/shared/models/chessboard.old.ts:295-444 | the same holds for the pawn, rook, knight, bishop and king generators |
| Generation.PieceMovesCandidates | frontend/src/app/chess/shared/models/chessboard.old.ts:200-211 | the same holds for the dispatch of getMovesForPieceAt |
| Check.CheckFrom | frontend/src/app/chess/shared/models/chessboard.old.ts:462-474 | isInCheckFrom; its meaning is CheckFromMeaning |
| Check.EnemyKnightAround | frontend/src/app/chess/shared/models/chessboard.old.ts:652-663 | isEnemyKnightAroundKing; its meaning is EnemyKnightAroundMeaning |
| Check.InCheckAt | frontend/src/app/chess/shared/models/chessboard.old.ts:448-460 | isInCheck on a king square: one of the eight rays or a knight |
| Check.FirstOccupied | frontend/src/app/chess/shared/models/chessboard.old.ts:466-473 | the square the walk of isInCheckFrom stops at is on the board and occupied |
| Check.FirstOccupiedStep | frontend/src/app/chess/shared/models/chessboard.old.ts:466-472 | one iteration of that walk: stop on an occupied square, otherwise go on |
| Check.EmptyRunAt | frontend/src/app/chess/shared/models/chessboard.old.ts:466-472 | every square of the empty run is on the board and empty |
| Check.FirstOccupiedAfterRun | frontend/src/app/chess/shared/models/chessboard.old.ts:466-473 | the walk finds the square just after the empty run, or nothing when that square is off the board |
| Check.EmptyRunEnd | frontend/src/app/chess/shared/models/chessboard.old.ts:466-472 | the square just after the empty run, when on the board, is occupied |
| Check.FirstPieceOnRay | frontend/src/app/chess/shared/models/chessboard.old.ts:466-470 | a piece with only empty squares before it lies at the end of the empty run |
| Check.FirstOccupiedMeaning | frontend/src/app/chess/shared/models/chessboard.old.ts:462-474 | the walk returns the first piece on the ray, and returns nothing only when the ray has no piece |
| Check.CheckFromMeaning | frontend/src/app/chess/shared/models/chessboard.old.ts:462-474 | isInCheckFrom holds iff the first piece on the ray could move onto the king's square |
| Check.EnemyKnightAroundMeaning | frontend/src/app/chess/shared/models/chessboard.old.ts:652-663 | isEnemyKnightAroundKing holds iff some knight of the other sign is a knight's jump from the king |
| GameState.InitialState | frontend/src/app/chess/shared/models/chessboard.old.ts:36-42 | a new board is well formed: kings cached on 60 and 4, every counter present |
| GameState.ZeroCounts | frontend/src/app/chess/shared/models/chessboard.old.ts:10 | the counter map holds exactly the squares 0..63, each at 0 |
| GameState.DecrementUndoesIncrement | frontend/src/app/chess/shared/models/chessboard.old.ts:192-198 | decrementSquareHistory undoes incrementSquareHistory |
| GameState.UpdateLocation | frontend/src/app/chess/shared/models/chessboard.old.ts:110-113 | updateLocation on the state value: only a king code moves its own cache |
| GameState.CastleBoard | frontend/src/app/chess/shared/models/chessboard.old.ts:143-160 | the rook lands on to+rookShift and the king on from+kingShift, `from` and `to` are emptied unless landed on, and no other square changes |
| GameState.ApplyCastle | frontend/src/app/chess/shared/models/chessboard.old.ts:142-166 | applyCastleMove leaves the state well formed. It places the board as CastleBoard does and counts both landing squares. Each king cache follows a king on `to` to the rook's landing square, else a king on `from` to the king's landing square, else stays. It pushes nothing onto removedPieces and changes neither the move log nor the turn |
| GameState.ApplyCastleKeepsCachesTrack | frontend/src/app/chess/shared/models/chessboard.old.ts:142-166 | a castle between two different squares keeps every king where its cache says |
| GameState.MovePiece | frontend/src/app/chess/shared/models/chessboard.old.ts:115-134 | movePiece appends the move and flips the turn. For a non-castle move it puts the mover (or the promotion) on `to` and empties `from`, changes no other square, pushes the old `to` piece and counts `to` |
| GameState.RestoredPawn | frontend/src/app/chess/shared/models/chessboard.old.ts:264-267 | the pawn restored on undo has the promoted piece's colour (corrected) |
| GameState.UndoBoardMove | frontend/src/app/chess/shared/models/chessboard.old.ts:169-188 | undoMove's board part. `to` gets the popped capture when `from` is empty, else the piece on `from`. `from` gets the piece on `to`; nothing else changes, the log shrinks by one and the turn flips |
| GameState.UndoMove | frontend/src/app/chess/shared/models/chessboard.old.ts:169-190 | undoMove leaves the state well formed and restores a pawn of the promoted piece's colour on `from` |
| GameState.UndoMoveInSteps | frontend/src/app/chess/shared/models/chessboard.old.ts:171-188 | undoMove is the source's sequence of steps: the two writes, two cache updates, the decrement, the promotion undo, the log pop and the turn flip |
| GameState.UndoMoveAsWritten | frontend/src/app/chess/shared/models/chessboard.old.ts:264-267 | undoMove with undoPawnPromotion as written keeps the state well formed |
| GameState.CheckIgnoresCastling | frontend/src/app/chess/shared/models/chessboard.old.ts:523-527 | with consistent king caches the castle disjunct never fires when a piece is asked about the king's square |
| GameState.MoveThenUndo | frontend/src/app/chess/shared/models/chessboard.old.ts:169-190 | for a non-castle move whose king squares are tracked, undoMove after movePiece restores the board, both caches, counters, capture stack, log and turn, promotion included |
| GameState.RestorableApplicable | frontend/src/app/chess/shared/models/chessboard.old.ts:119 | a restorable move is an ordinary (non-castle) move on the board |
| GameState.ProbeRestores | frontend/src/app/chess/shared/models/chessboard.old.ts:255-262 | isInCheckAfterMove on a restorable move leaves the state exactly as it was |
| GameState.MovePieceKeepsCachesTrack | frontend/src/app/chess/shared/models/chessboard.old.ts:110-134 | after an ordinary move every king still stands where its cache says |
| GameState.UndoPromotionAsWrittenLeavesBlackPawn | frontend/src/app/chess/shared/models/chessboard.old.ts:264-267 | as written, undoing any promotion to a piece other than a white pawn leaves a black pawn on `from` |
| GameState.WhitePromotionUndoneAsBlackPawn | frontend/src/app/chess/shared/models/chessboard.old.ts:264-267 | white pawn 8 to 0 promoted to a queen: the as-written undo leaves a black pawn on 8, the corrected one a white pawn |
| GameState.PromotePawn | frontend/src/app/chess/shared/models/chessboard.old.ts:136-140 | promotePawn fails exactly on an empty log. Otherwise it records the piece in the last move and writes it on that move's `to`, changing nothing else |
| GameState.PromoteAfterMove | frontend/src/app/chess/shared/models/chessboard.old.ts:128-140 | promoting after an ordinary move gives the state of making the move with that promotion |
| GameState.PromoteThenUndo | frontend/src/app/chess/shared/models/chessboard.old.ts:136-140 | undoing the promoted last move restores the state before the move |
| GameState.InCheck | frontend/src/app/chess/shared/models/chessboard.old.ts:448-460 | isInCheck: InCheckAt on the cached square of the colour's king |
| GameState.InCheckAfterMove | frontend/src/app/chess/shared/models/chessboard.old.ts:255-262 | isInCheckAfterMove's answer: the mover's king is in check after movePiece |
| GameState.NeedsPawnPromotion | frontend/src/app/chess/shared/models/chessboard.old.ts:476-479 | needsPawnPromotion; its meaning is NeedsPawnPromotionMeaning |
| GameState.NeedsPawnPromotionMeaning | frontend/src/app/chess/shared/models/chessboard.old.ts:476-479 | after a pawn's unpromoted move, promotion is needed iff White reached row 0 or Black row 7 |
| GameState.PromotedMoveNeedsNone | frontend/src/app/chess/shared/models/chessboard.old.ts:476-479 | after promotePawn the last move needs no promotion and its `to` holds the piece |
| GameState.Keep | frontend/src/app/chess/shared/models/chessboard.old.ts:239-248 | the kept list is no longer than the input |
| GameState.KeepSubsequence | frontend/src/app/chess/shared/models/chessboard.old.ts:239-248 | the kept list is an order-preserving subsequence of the input |
| GameState.KeepMembers | frontend/src/app/chess/shared/models/chessboard.old.ts:239-248 | a move is kept iff it is in the input and passes the test |
| GameState.KeepAdmitted | frontend/src/app/chess/shared/models/chessboard.old.ts:239-248 | every kept move is in the input and passes the test |
| GameState.KeepAppend | frontend/src/app/chess/shared/models/chessboard.old.ts:239-248 | filtering a concatenation concatenates the filtered parts |
| GameState.KeepIdempotent | frontend/src/app/chess/shared/models/chessboard.old.ts:239-248 | filtering twice is filtering once |
| GameState.FilterLegal | frontend/src/app/chess/shared/models/chessboard.old.ts:239-248 | removeIllegalMoves returns no more moves than given, all applicable |
| GameState.FilterLegalProbeStep | frontend/src/app/chess/shared/models/chessboard.old.ts:241-245 | one loop iteration over moves undoMove takes back: the probe restores the state and the move is appended iff it leaves the mover out of check |
| GameState.RestorableAllApplicable | frontend/src/app/chess/shared/models/chessboard.old.ts:119 | moves undoMove takes back may all be applied |
| GameState.FilterLegalStep | frontend/src/app/chess/shared/models/chessboard.old.ts:241-245 | one loop iteration: the move is appended iff isInCheckAfterMove is false |
| GameState.FilterLegalSubsequence | frontend/src/app/chess/shared/models/chessboard.old.ts:239-248 | the result is an order-preserving subsequence of the input |
| GameState.FilterLegalMembers | frontend/src/app/chess/shared/models/chessboard.old.ts:239-248 | a move is in the result iff it is in the input and does not leave the mover in check |
| GameState.FilterLegalAppend | frontend/src/app/chess/shared/models/chessboard.old.ts:227-231 | filtering the concatenated lists equals concatenating their filters |
| GameState.FilterLegalIdempotent | frontend/src/app/chess/shared/models/chessboard.old.ts:231 | filtering already filtered moves changes nothing |
| GameState.CandidatesApplicable | frontend/src/app/chess/shared/models/chessboard.old.ts:119 | generated moves land on non-friendly squares, so none is a castle and all may be applied |
| GameState.GeneratorsApplicable | frontend/src/app/chess/shared/models/chessboard.old.ts:295-444 | every generator's moves may be applied |
| GameState.LegalPieceMoves | frontend/src/app/chess/shared/models/chessboard.old.ts:200-211 | the moves getMovesForPieceAt returns may all be applied |
| GameState.LegalPieceMovesFiltered | frontend/src/app/chess/shared/models/chessboard.old.ts:200-211 | getMovesForPieceAt returns the legality filter of the dispatched candidates |
| GameState.ValidMovesForPieceAt | frontend/src/app/chess/shared/models/chessboard.old.ts:213-217 | getValidMovesForPieceAt is empty for a piece not of the side to move, and for a piece of the side to move it is exactly what getMovesForPieceAt returns: its second filter removes nothing |
| GameState.CollectedMoves | frontend/src/app/chess/shared/models/chessboard.old.ts:223-229 | the collected moves may all be applied |
| GameState.AllMoves | frontend/src/app/chess/shared/models/chessboard.old.ts:223-233 | the moves getAllMoves returns may all be applied |
| GameState.CollectedMovesFiltered | frontend/src/app/chess/shared/models/chessboard.old.ts:231 | the second filter of getAllMoves removes nothing |
| GameState.LegalPieceMovesMembers | frontend/src/app/chess/shared/models/chessboard.old.ts:200-211 | for a piece of the side to move, a move is returned iff it is generated and does not leave the mover in check |
| GameState.CollectedMovesMembers | frontend/src/app/chess/shared/models/chessboard.old.ts:223-229 | a move is collected from the first n squares iff it is a legal candidate of one of them |
| GameState.AllMovesMeaning | frontend/src/app/chess/shared/models/chessboard.old.ts:223-233 | getAllMoves holds exactly the legal moves of the side to move |
| GameState.Checkmate | frontend/src/app/chess/shared/models/chessboard.old.ts:76-79 | isCheckmate: in check with no legal move; see GameEndCases |
| GameState.Stalemate | frontend/src/app/chess/shared/models/chessboard.old.ts:105-108 | isStalemate: not in check and no legal move; see GameEndCases |
| GameState.GameEndCases | frontend/src/app/chess/shared/models/chessboard.old.ts:76-108 | checkmate and stalemate never hold together; one of them holds iff there is no legal move |
| GameState.CandidatesRestorable | frontend/src/app/chess/shared/models/chessboard.old.ts:255-262 | with tracked caches every generated candidate is restored by the probe |
| GameState.GeneratorsRestorable | frontend/src/app/chess/shared/models/chessboard.old.ts:295-444 | the same for every generator |
| GameState.KingMovesRestorable | frontend/src/app/chess/shared/models/chessboard.old.ts:419-444 | the same for the king's moves |
| GameState.LegalPieceMovesRestorable | frontend/src/app/chess/shared/models/chessboard.old.ts:200-211 | the same for the moves of getMovesForPieceAt |
| GameState.CollectedMovesRestorable | frontend/src/app/chess/shared/models/chessboard.old.ts:223-229 | the same for the collected moves |
| GameState.SideOf | frontend/src/app/chess/shared/models/chessboard.old.ts:546 | the colour of an occupied square, as a side |
| GameState.CastleProbeStep | frontend/src/app/chess/shared/models/chessboard.old.ts:550-557 | one iteration of the castle loop: the next square is between, its probe restores the state, and the loop goes on iff that probe finds no check |
| GameState.CastleProbesFromStep | frontend/src/app/chess/shared/models/chessboard.old.ts:550-557 | one iteration of the castle loop without the restore facts: it ends before `to`, or goes on iff the probe finds no check |
| GameState.OutOfCheckOnTheWayStep | frontend/src/app/chess/shared/models/chessboard.old.ts:550-557 | the squares strictly between `square` and `to` are the next square and those after it |
| GameState.CastleProbesOutOfCheck | frontend/src/app/chess/shared/models/chessboard.old.ts:550-557 | the castle loop from `square` on succeeds iff the king is out of check on every square after it short of `to` |
| GameState.CastleProbesMeaning | frontend/src/app/chess/shared/models/chessboard.old.ts:550-557 | the castle loop succeeds iff no square strictly between the king and the rook leaves the king in check |
| GameState.CastleValidMeaning | frontend/src/app/chess/shared/models/chessboard.old.ts:536-559 | a castle is valid iff a king and a rook of one colour, neither landed on, are joined by a clear path, no piece of that colour stands at an index between them, the king is not in check and no square strictly between leaves it in check; the two squares then differ |
| GameState.SameRowCastleProbesNotCastle | frontend/src/app/chess/shared/models/chessboard.old.ts:541-557 | when king and rook share a row, the guard's clear path leaves no piece between them, so no probe is a castle |
| GameState.OffRowProbeIsCastle | frontend/src/app/chess/shared/models/chessboard.old.ts:541-557 | king on 60, rook of its colour on 44, 52 empty, a queen of theirs on 59: the guard passes and the first probe 60 to 59 is itself a castle |
| GameState.MoveValidWithoutCastle | frontend/src/app/chess/shared/models/chessboard.old.ts:493-527 | asked about a king's square, isValidMove equals the dispatch without the castle disjunct |
| GameState.ValueOf | frontend/src/app/chess/shared/models/chessboard.old.ts:97-99 | seen from White valueOf is the signed code itself and from Black its negation; it is positive only for a piece of the side to move |
| GameState.Evaluate | frontend/src/app/chess/shared/models/chessboard.old.ts:81-90 | evaluate; its meaning is EvaluateMeaning |
| GameState.MaterialIsSignedSum | frontend/src/app/chess/shared/models/chessboard.old.ts:81-85 | the material sum is the sum of the codes for White and its negation for Black |
| GameState.EvaluateMeaning | frontend/src/app/chess/shared/models/chessboard.old.ts:81-90 | evaluate is the signed code sum of the side to move, minus 200 on checkmate |
| GameState.RunAsWrittenNoCounts | frontend/src/app/chess/shared/models/chessboard.old.ts:192-198 | once every counter is NaN, increments and decrements keep them NaN |
| GameState.HistoryAsWrittenNeverCounts | frontend/src/app/chess/shared/models/chessboard.old.ts:533-535 | from the empty map, no sequence of counter updates ever makes hasPieceAtMoved true |
| GameState.PreloadedHistoryCounts | frontend/src/app/chess/shared/models/chessboard.old.ts:533-535 | with counters preloaded to 0, a piece landing on a square makes hasPieceAtMoved true and its undo false again |
| GameState.CastleProbeMovesPieces | frontend/src/app/chess/shared/models/chessboard.old.ts:550-557 | as written, the last probe 60 to 63 is a castle; movePiece and undoMove leave the rook on 61, the king on 62 and a popped capture on 63 |
| Chessboards.Chessboard.constructor | frontend/src/app/chess/shared/models/chessboard.old.ts:36-42 | a new board holds the given layout and is the initial state |
| Chessboards.Chessboard.UpdateLocation | frontend/src/app/chess/shared/models/chessboard.old.ts:110-113 | only a king code moves a king cache |
| Chessboards.Chessboard.IncrementSquareHistory | frontend/src/app/chess/shared/models/chessboard.old.ts:192-194 | one more landing on the square, nothing else changes |
| Chessboards.Chessboard.DecrementSquareHistory | frontend/src/app/chess/shared/models/chessboard.old.ts:196-198 | one landing fewer on the square, nothing else changes |
| Chessboards.Chessboard.ChangeTurn | frontend/src/app/chess/shared/models/chessboard.old.ts:219-221 | the turn flips to the other side, nothing else changes |
| Chessboards.Chessboard.ApplyCastleMove | frontend/src/app/chess/shared/models/chessboard.old.ts:142-166 | the fields end as ApplyCastle says |
| Chessboards.Chessboard.PlaceCastle | frontend/src/app/chess/shared/models/chessboard.old.ts:143-160 | the board writes of applyCastleMove leave the board that CastleBoard gives and return the two landing squares |
| Chessboards.Chessboard.MovePiece | frontend/src/app/chess/shared/models/chessboard.old.ts:115-134 | the fields end as GameState.MovePiece says |
| Chessboards.Chessboard.UndoPawnPromotion | frontend/src/app/chess/shared/models/chessboard.old.ts:264-267 | `from` gets a pawn of the colour of the piece on it (corrected), nothing else changes |
| Chessboards.Chessboard.UndoMove | frontend/src/app/chess/shared/models/chessboard.old.ts:169-190 | the fields end as GameState.UndoMove says |
| Chessboards.Chessboard.PromotePawn | frontend/src/app/chess/shared/models/chessboard.old.ts:136-140 | the fields end as GameState.PromotePawn says, or are untouched when there is no last move |
| Chessboards.Chessboard.FindFirstOccupied | frontend/src/app/chess/shared/models/chessboard.old.ts:463-473 | the loop returns the first occupied square of the ray |
| Chessboards.Chessboard.IsInCheckFrom | frontend/src/app/chess/shared/models/chessboard.old.ts:462-474 | returns CheckFrom of the board |
| Chessboards.Chessboard.IsInCheck | frontend/src/app/chess/shared/models/chessboard.old.ts:448-460 | returns InCheck of the state for the colour |
| Chessboards.Chessboard.IsInCheckAfterMove | frontend/src/app/chess/shared/models/chessboard.old.ts:255-262 | returns whether the mover is in check after the move, and ends in the state after movePiece and undoMove |
| Chessboards.Chessboard.RemoveIllegalMoves | frontend/src/app/chess/shared/models/chessboard.old.ts:239-248 | returns FilterLegal of the moves and leaves the state unchanged |
| Chessboards.Chessboard.GetMovesInPath | frontend/src/app/chess/shared/models/chessboard.old.ts:333-352 | the loop returns PathMoves of the board |
| Chessboards.Chessboard.GetPawnMoves | frontend/src/app/chess/shared/models/chessboard.old.ts:295-331 | returns the filtered pawn candidates, state unchanged |
| Chessboards.Chessboard.GetRookMoves | frontend/src/app/chess/shared/models/chessboard.old.ts:358-366 | returns the filtered four rays, state unchanged |
| Chessboards.Chessboard.GetBishopMoves | frontend/src/app/chess/shared/models/chessboard.old.ts:403-410 | returns the filtered four diagonals, state unchanged |
| Chessboards.Chessboard.GetQueenMoves | frontend/src/app/chess/shared/models/chessboard.old.ts:412-417 | returns the bishop's then the rook's filtered moves, state unchanged |
| Chessboards.Chessboard.GetKnightMoves | frontend/src/app/chess/shared/models/chessboard.old.ts:376-389 | returns the filtered knight jumps, state unchanged |
| Chessboards.Chessboard.GetKingMoves | frontend/src/app/chess/shared/models/chessboard.old.ts:419-444 | returns the filtered king steps, state unchanged |
| Chessboards.Chessboard.GetMovesForPieceAt | frontend/src/app/chess/shared/models/chessboard.old.ts:200-211 | returns LegalPieceMoves, state unchanged |
| Chessboards.Chessboard.GetValidMovesForPieceAt | frontend/src/app/chess/shared/models/chessboard.old.ts:213-217 | returns ValidMovesForPieceAt, state unchanged |
| Chessboards.Chessboard.GetAllMoves | frontend/src/app/chess/shared/models/chessboard.old.ts:223-233 | the loop over the squares returns AllMoves, state unchanged |
| Chessboards.Chessboard.IsCheckmate | frontend/src/app/chess/shared/models/chessboard.old.ts:76-79 | returns Checkmate, state unchanged |
| Chessboards.Chessboard.IsStalemate | frontend/src/app/chess/shared/models/chessboard.old.ts:105-108 | returns Stalemate, state unchanged |
| Chessboards.Chessboard.Evaluate | frontend/src/app/chess/shared/models/chessboard.old.ts:81-90 | the loop returns GameState.Evaluate, state unchanged |
| Chessboards.Chessboard.IsPathClear | frontend/src/app/chess/shared/models/chessboard.old.ts:630-650 | the loop returns PathClear of the board |
| Chessboards.Chessboard.IsValidCastleMove | frontend/src/app/chess/shared/models/chessboard.old.ts:536-559 | returns CastleValid (probe loop corrected; a castle whose probes include a castle refused), state unchanged |
| Chessboards.Chessboard.HasOwnPieceBetween | frontend/src/app/chess/shared/models/chessboard.old.ts:550-557 | the scan finds a piece of `from`'s colour at an index strictly between iff some probe would be a castle |
| Chessboards.Chessboard.ProbeCastlePath | frontend/src/app/chess/shared/models/chessboard.old.ts:550-557 | the castle loop returns CastleProbesFrom, stopping before the rook's square, state unchanged |
| Chessboards.Chessboard.ProbeCastleSquare | frontend/src/app/chess/shared/models/chessboard.old.ts:553-555 | one probe: returns whether the king is in check on that square, state unchanged |
| Chessboards.Chessboard.IsValidKingMove | frontend/src/app/chess/shared/models/chessboard.old.ts:523-527 | returns KingMoveValid (castle as in IsValidCastleMove), state unchanged |
| Chessboards.Chessboard.IsValidMove | frontend/src/app/chess/shared/models/chessboard.old.ts:493-504 | returns MoveValid (pawn forward test corrected, castle as in IsValidCastleMove), state unchanged |
| Carousel.NextIndex | src/app/shared/carousel/carousel.component.ts:24-27 | in range it gives (index + 1) mod length and stays in range; it is index + 1 unless that equals the length |
| Carousel.PreviousIndex | src/app/shared/carousel/carousel.component.ts:38-42 | in range it gives (index - 1) mod length and stays in range; it is index - 1 unless that is negative |
| Carousel.PreviousUndoesNext | src/app/shared/carousel/carousel.component.ts:24-42 | on an index in range, a step back undoes a step forward and a step forward undoes a step back |
| Carousel.PastTheEndDrifts | src/app/shared/carousel/carousel.component.ts:24-27 | an index set past the end keeps climbing, and a step back from the length is not undone by a step forward |
| Carousel.AdvanceWraps | src/app/shared/carousel/carousel.component.ts:18-27 | k timer ticks from an index in range give (index + k) mod length |
| Carousel.FullRound | src/app/shared/carousel/carousel.component.ts:18-27 | as many ticks as there are items bring the carousel back to its start |
| Carousel.MultipleAtLeast | src/app/shared/carousel/carousel.component.ts:18-27 | arithmetic helper of AdvanceWraps: a positive multiple of the length is at least the length |
| Carousel.RemainderUnique | src/app/shared/carousel/carousel.component.ts:18-27 | arithmetic helper of AdvanceWraps and FullRound: x mod length is r whenever x is a multiple of length plus r with 0 <= r < length |
| Carousel.ModuloStep | src/app/shared/carousel/carousel.component.ts:18-27 | arithmetic helper of AdvanceWraps: adding one after reducing modulo the length gives the same index, modulo the length, as adding one first |
| Carousel.CarouselComponent.constructor | src/app/shared/carousel/carousel.component.ts:10-11 | the index starts at 0, which is in range on a non-empty list |
| Carousel.CarouselComponent.MoveCarousel | src/app/shared/carousel/carousel.component.ts:24-27 | the index becomes NextIndex, the list is untouched, and an index in range stays in range |
| Carousel.CarouselComponent.OnPreviousClick | src/app/shared/carousel/carousel.component.ts:38-42 | the index becomes PreviousIndex, the list is untouched, and an index in range stays in range |
| Carousel.CarouselComponent.OnNextClick | src/app/shared/carousel/carousel.component.ts:44-47 | the index becomes NextIndex, as for moveCarousel |
| Carousel.CarouselComponent.ChangeImage | src/app/shared/carousel/carousel.component.ts:61-63 | the index becomes exactly the argument and the list is untouched |

## Left out

- The STARTING_CHESSBOARD layout and the `ChessPiece` enum are not part of this model. The constructor takes the initial layout as a parameter. The kings' cached squares 60 and 4 come from lines 39-40.
- The copy constructor (lines 25-35) is left out. It shares the other board's array, map and stacks rather than copying them, so it is aliasing, not a new state.
- `getBoardString`, `print` and `printTurn` are console or string output and are left out.
- `getBoardArray`, `applyMove`, `getLastMove` and `getTurn` are left out. They are one-line accessors or forwarders; `applyMove` is `movePiece`.
- `isLegalMove` (lines 68-74) is not modelled; no modelled operation calls it.
- `getColorOf`'s `Color.RANDOM` case is left out. `Math.sign` never returns 2.
- The carousel's `setCarouselInterval`, `resetCarouselTimer`, `ngOnDestroy`, `ngOnInit` and `preloadImages` are left out. They are timers and DOM image loading. `OnNextClick` and `OnPreviousClick` model only the index change, and a timer tick is a call of `MoveCarousel`.
- The `arrowsOn` and `buttonsOn` inputs only drive the template and are left out.
- Carousel.CarouselComponent.ChangeImage: the index is an integer. The source parameter is a JavaScript number, which may also be fractional.
- Castling undo is left out: `undoMove` is proved an inverse only for non-castle moves, because the source treats every move as an ordinary one.
- The promotion move object is a value in the model. `promotePawn` rewrites the last entry of the move log. In the source it mutates the object that the log shares with the caller.
- Chessboards.Chessboard.PromotePawn: on an empty move log the source throws on `undefined.promotion`. The model returns false and changes nothing.
- Chessboards.Chessboard.UndoMove: requires a non-empty capture stack when `from` is empty (Undoable). The source would pop `undefined` onto the board.
- Chessboards.Chessboard.IsInCheck: uses isValidMove without the castle disjunct. This equals the source whenever the cached king square does not hold a rook (CastleGuardNeedsRook, MoveValidWithoutCastle), which KingsConsistent ensures.
- Chessboards.Chessboard.GetMovesForPieceAt: requires CachesTrack, that is, no king stands off its cached square. The legality probes inside are then proved to restore the state. The same requirement sits on the other generators, on the move-list methods, on the game-end methods, on evaluate and on the castle methods.
- Chessboards.Chessboard.IsValidCastleMove: refuses the castle when a piece of the king's colour stands at an index strictly between king and rook. The source's loop walks indices, not the path. Off a common row it then probes a move onto that piece, which is itself a castle and is not taken back (OffRowProbeIsCastle). The model does not follow that corrupted state. On a common row the guard's clear path rules the case out (SameRowCastleProbesNotCastle), so there the model and the source agree.
- Chessboards.Chessboard.IsValidKingMove: its castle disjunct is IsValidCastleMove, with the refusal above.
- Chessboards.Chessboard.IsValidMove: a pawn uses the corrected forward test (see Findings). As written, the test also accepts a white double step over an occupied square (PawnForwardAsWrittenMeaning). The king case inherits the castle refusal above.
- MoveRules.IsValidPawnMove: uses the corrected forward test, as MoveRules.IsValidMove and the generators' callers do.
- Chessboards.Chessboard.IsInCheckAfterMove: requires the move to land a castle on the board and, for a castle, a non-empty capture stack. The source would write off the array or pop `undefined`.
- ProbeCastlePath, ProbeCastleSquare, FindFirstOccupied and PlaceCastle are separate methods. They are the loop and one probe of `isValidCastleMove` (lines 550-557), the loop of `isInCheckFrom` (lines 466-473) and the board writes of `applyCastleMove` (lines 143-160), split out of their callers. HasOwnPieceBetween is the model's own scan for the castle refusal above.
- Integer width is not modelled. JavaScript numbers are doubles, and every value here is a small integer, well within their exact range.

## Findings

| source | as written | input that shows it | evidently intended | confidence | as-written member | corrected member |
|---|---|---|---|---|---|---|
| frontend/src/app/chess/shared/models/chessboard.old.ts:619-621 | `isPathClear(..) && black && rowDifference == -2 \|\| white && rowDifference == 2` groups the path test with the black case only | white pawn on 52, any piece on 44, 36 empty: the move 52 to 36 is valid | the path test applies to both colours | not executed | MoveRules.WhiteDoubleStepOverPiece | MoveRules.PawnForwardMeaning |
| frontend/src/app/chess/shared/models/chessboard.old.ts:264-267 | undoPawnPromotion tests the piece on `from`, which after the undo writes is the promoted piece, so it always writes a black pawn | white pawn on 8, square 0 empty, move 8 to 0 promoted to a queen, then undoMove: square 8 holds a black pawn | restore a pawn of the promoted piece's colour | not executed | GameState.WhitePromotionUndoneAsBlackPawn | GameState.MoveThenUndo |
| frontend/src/app/chess/shared/models/chessboard.old.ts:192-198 | the counter map starts empty (line 10), so `get(..) + 1` is `undefined + 1`, that is NaN, and `NaN > 0` is false in hasPieceAtMoved (lines 533-535) | any game: the king moves and returns, and the castle guard still sees both squares as never landed on | counters start at 0 on every square | not executed | GameState.HistoryAsWrittenNeverCounts | GameState.PreloadedHistoryCounts |
| frontend/src/app/chess/shared/models/chessboard.old.ts:550-557 | the castle loop steps onto the rook's square before it stops, so its last probe is the castle itself, which undoMove does not take back | white king on 60, white rook on 63, 61 and 62 empty: the last probe leaves the rook on 61, the king on 62 and a popped capture on 63 | stop before the rook's square, as the loop's comment says | not executed | GameState.CastleProbeMovesPieces | Chessboards.Chessboard.ProbeCastlePath |
