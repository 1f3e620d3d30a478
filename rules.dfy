/** Occupancy predicates and the per-piece move-validity tests (the
    isValid*Move family), as expressions over a 64-square board. */
module MoveRules {
  import opened Pieces
  import opened Squares
  import opened Paths
  import opened ChessMoves

  /** isEmptyAt */
  predicate IsEmptyAt(b: seq<int>, square: int)
    requires |b| == 64 && IsValidLocation(square)
  {
    b[square] == EMPTY
  }

  /** isOccupiedAt */
  predicate IsOccupiedAt(b: seq<int>, square: int)
    requires |b| == 64 && IsValidLocation(square)
  {
    b[square] != EMPTY
  }

  /** isAttackingEnemy: `to` is occupied by a piece of another sign. */
  predicate IsAttackingEnemy(b: seq<int>, from: int, to: int)
    requires |b| == 64 && IsValidLocation(from) && IsValidLocation(to)
  {
    !IsEmptyAt(b, to) && Sign(b[from]) != Sign(b[to])
  }

  /** isAttackingEnemyOrEmpty: the two squares differ in sign. */
  predicate IsAttackingEnemyOrEmpty(b: seq<int>, from: int, to: int)
    requires |b| == 64 && IsValidLocation(from) && IsValidLocation(to)
  {
    Sign(b[from]) != Sign(b[to])
  }

  /** For an occupied origin, "differs in sign" is "enemy or empty". */
  lemma EnemyOrEmptyFromPiece(b: seq<int>, from: int, to: int)
    requires |b| == 64 && IsValidLocation(from) && IsValidLocation(to) && b[from] != EMPTY
    ensures IsAttackingEnemyOrEmpty(b, from, to) <==> IsAttackingEnemy(b, from, to) || IsEmptyAt(b, to)
  {
  }

  /** isKnightAt: the square is on the board and holds a knight of either colour. */
  predicate IsKnightAt(b: seq<int>, square: int)
    requires |b| == 64
  {
    IsValidLocation(square) && Abs(b[square]) == KNIGHT
  }

  /** isWhitePieceAt */
  predicate IsWhitePieceAt(b: seq<int>, square: int)
    requires |b| == 64 && IsValidLocation(square)
  {
    ColorOf(b[square]) == White
  }

  /** isBlackPieceAt */
  predicate IsBlackPieceAt(b: seq<int>, square: int)
    requires |b| == 64 && IsValidLocation(square)
  {
    ColorOf(b[square]) == Black
  }

  /** isWhitePawn */
  predicate IsWhitePawn(b: seq<int>, square: int)
    requires |b| == 64 && IsValidLocation(square)
  {
    b[square] == WHITE_PAWN
  }

  /** isBlackPawn */
  predicate IsBlackPawn(b: seq<int>, square: int)
    requires |b| == 64 && IsValidLocation(square)
  {
    b[square] == BLACK_PAWN
  }

  /** isPawnStartingLocation: a black piece on row 1 or a white piece on row 6. */
  predicate IsPawnStartingLocation(b: seq<int>, square: int)
    requires |b| == 64 && IsValidLocation(square)
  {
    (IsBlackPieceAt(b, square) && Row(square) == 1) || (IsWhitePieceAt(b, square) && Row(square) == 6)
  }

  /** isCastleMove: origin and destination hold codes of the same sign
      (the castle encoding is a king "moving" onto its own rook). */
  predicate IsCastleMove(b: seq<int>, m: Move)
    requires |b| == 64 && IsValidLocation(m.from) && IsValidLocation(m.to)
  {
    Sign(b[m.from]) == Sign(b[m.to])
  }

  /** isValidKnightMove */
  predicate IsValidKnightMove(b: seq<int>, from: int, to: int)
    requires |b| == 64 && IsValidLocation(from)
  {
    if IsValidLocation(to) then
      IsAttackingEnemyOrEmpty(b, from, to) && KnightPattern(from, to)
    else false
  }

  /** isValidRookMove */
  predicate IsValidRookMove(b: seq<int>, from: int, to: int)
    requires |b| == 64 && IsValidLocation(from) && IsValidLocation(to)
  {
    IsAttackingEnemyOrEmpty(b, from, to)
    && PathClear(b, from, to)
    && (IsMoveWithinSameColumn(from, to) || IsMoveWithinSameRow(to, from))
  }

  /** isValidBishopMove */
  predicate IsValidBishopMove(b: seq<int>, from: int, to: int)
    requires |b| == 64 && IsValidLocation(from) && IsValidLocation(to)
  {
    IsAttackingEnemyOrEmpty(b, from, to)
    && PathClear(b, from, to)
    && IsMoveWithinSameDiagonal(from, to)
  }

  /** isValidQueenMove */
  predicate IsValidQueenMove(b: seq<int>, from: int, to: int)
    requires |b| == 64 && IsValidLocation(from) && IsValidLocation(to)
  {
    IsValidBishopMove(b, from, to) || IsValidRookMove(b, from, to)
  }

  /** The first disjunct of isValidKingMove: a step to an adjacent square that
      is not friendly. The castle disjunct is the stateful IsValidCastleMove
      of the Chessboard class. */
  predicate IsValidKingStep(b: seq<int>, from: int, to: int)
    requires |b| == 64 && IsValidLocation(from) && IsValidLocation(to)
  {
    IsAttackingEnemyOrEmpty(b, from, to) && IsMoveOneSquareAway(from, to)
  }

  /** isValidPawnDiagonalMove */
  predicate IsValidPawnDiagonalMove(b: seq<int>, from: int, to: int)
    requires |b| == 64 && IsValidLocation(from) && IsValidLocation(to)
  {
    if IsAttackingEnemy(b, from, to) && IsOneColumnAway(from, to) then
      if IsWhitePieceAt(b, from) then
        (from - 9 == to && !IsInLeftMostColumn(from)) || (from - 7 == to && !IsInRightMostColumn(from))
      else if IsBlackPieceAt(b, from) then
        (from + 7 == to && !IsInLeftMostColumn(from)) || (from + 9 == to && !IsInRightMostColumn(from))
      else false
    else false
  }

  /** isValidPawnForwardMove exactly as written. In its two-row branch
      `isPathClear(..) && black && rowDifference == -2 || white && rowDifference == 2`
      groups as `(pathClear && black && ..) || (white && ..)`, so a white
      double step is accepted without the path test. */
  predicate IsValidPawnForwardMoveAsWritten(b: seq<int>, from: int, to: int)
    requires |b| == 64 && IsValidLocation(from) && IsValidLocation(to)
  {
    if !IsMoveWithinSameColumn(from, to) || !IsEmptyAt(b, to) then false
    else
      var rowDifference := Row(from) - Row(to);
      if Abs(rowDifference) == 1 then
        (IsBlackPieceAt(b, from) && rowDifference == -1) || (IsWhitePieceAt(b, from) && rowDifference == 1)
      else if Abs(rowDifference) == 2 && IsPawnStartingLocation(b, from) then
        (PathClear(b, from, to) && IsBlackPieceAt(b, from) && rowDifference == -2)
        || (IsWhitePieceAt(b, from) && rowDifference == 2)
      else false
  }

  /** isValidPawnForwardMove with the path test applying to both colours, as
      its layout evidently intends. */
  predicate IsValidPawnForwardMove(b: seq<int>, from: int, to: int)
    requires |b| == 64 && IsValidLocation(from) && IsValidLocation(to)
  {
    if !IsMoveWithinSameColumn(from, to) || !IsEmptyAt(b, to) then false
    else
      var rowDifference := Row(from) - Row(to);
      if Abs(rowDifference) == 1 then
        (IsBlackPieceAt(b, from) && rowDifference == -1) || (IsWhitePieceAt(b, from) && rowDifference == 1)
      else if Abs(rowDifference) == 2 && IsPawnStartingLocation(b, from) then
        PathClear(b, from, to)
        && ((IsBlackPieceAt(b, from) && rowDifference == -2) || (IsWhitePieceAt(b, from) && rowDifference == 2))
      else false
  }

  /** isValidPawnMove */
  predicate IsValidPawnMove(b: seq<int>, from: int, to: int)
    requires |b| == 64 && IsValidLocation(from) && IsValidLocation(to)
  {
    IsValidPawnDiagonalMove(b, from, to) || IsValidPawnForwardMove(b, from, to)
  }

  /** isValidMove's dispatch on the kind of the piece at `from`, with the
      king's castle disjunct left out: the castle test fails at its first
      guard unless `to` holds a rook (lemma CastleGuardNeedsRook), and the
      check detector only asks about a square holding a king. */
  predicate IsValidMove(b: seq<int>, from: int, to: int)
    requires |b| == 64 && IsValidLocation(from) && IsValidLocation(to)
  {
    var kind := Abs(b[from]);
    if kind == PAWN then IsValidPawnMove(b, from, to)
    else if kind == ROOK then IsValidRookMove(b, from, to)
    else if kind == KNIGHT then IsValidKnightMove(b, from, to)
    else if kind == BISHOP then IsValidBishopMove(b, from, to)
    else if kind == QUEEN then IsValidQueenMove(b, from, to)
    else if kind == KING then IsValidKingStep(b, from, to)
    else false
  }

  /** hasPieceAtMoved, with a square missing from the history read as 0. */
  predicate HasPieceAtMoved(history: map<int, int>, square: int) {
    square in history && history[square] > 0
  }

  /** The guard on the first line of isValidCastleMove: a king and a rook of
      one colour, a clear path between them, and neither square landed on. */
  predicate CastleGuard(b: seq<int>, history: map<int, int>, from: int, to: int)
    requires |b| == 64 && IsValidLocation(from) && IsValidLocation(to)
  {
    Abs(b[to]) == ROOK && PathClear(b, from, to) && Abs(b[from]) == KING
    && !HasPieceAtMoved(history, from) && !HasPieceAtMoved(history, to)
    && Sign(b[to]) == Sign(b[from])
  }

  lemma CastleGuardNeedsRook(b: seq<int>, history: map<int, int>, from: int, to: int)
    requires |b| == 64 && IsValidLocation(from) && IsValidLocation(to)
    requires Abs(b[to]) != ROOK
    ensures !CastleGuard(b, history, from, to)
  {
  }

  // ---------------------------------------------------------------------
  // What the validity tests mean

  /** A valid knight move lands on the board, on a square that is not
      friendly, a knight's jump away; in index terms it is one of the eight
      offsets the generator tries, with no wrap-around across an edge. */
  lemma KnightMoveMeaning(b: seq<int>, from: int, to: int)
    requires |b| == 64 && IsValidLocation(from)
    ensures IsValidKnightMove(b, from, to) <==>
      IsValidLocation(to) && Sign(b[to]) != Sign(b[from]) && KnightPattern(from, to)
    ensures IsValidKnightMove(b, from, to) ==> to - from in {17, 15, -17, -15, 6, 10, -6, -10}
  {
    if IsValidKnightMove(b, from, to) {
      KnightPatternOffsets(from, to);
    }
  }

  /** A rook move is exactly a move along one row or column onto a square
      that is not friendly, with every square strictly between empty. */
  lemma RookMoveMeaning(b: seq<int>, from: int, to: int)
    requires |b| == 64 && IsValidLocation(from) && IsValidLocation(to)
    ensures IsValidRookMove(b, from, to) <==>
      && (Row(from) == Row(to) || Column(from) == Column(to))
      && (forall k :: 1 <= k < PathLength(from, to) ==> b[PathSquare(from, to, k)] == EMPTY)
      && Sign(b[to]) != Sign(b[from])
  {
    PathClearIffEmptyBetween(b, from, to);
  }

  /** A bishop move is exactly a move along one diagonal onto a square that
      is not friendly, with every square strictly between empty. */
  lemma BishopMoveMeaning(b: seq<int>, from: int, to: int)
    requires |b| == 64 && IsValidLocation(from) && IsValidLocation(to)
    ensures IsValidBishopMove(b, from, to) <==>
      && Distance(Row(from), Row(to)) == Distance(Column(from), Column(to))
      && (forall k :: 1 <= k < PathLength(from, to) ==> b[PathSquare(from, to, k)] == EMPTY)
      && Sign(b[to]) != Sign(b[from])
  {
    PathClearIffEmptyBetween(b, from, to);
  }

  /** A queen move is exactly a move along a row, a column or a diagonal
      onto a square that is not friendly, with every square strictly between
      empty. */
  lemma QueenMoveMeaning(b: seq<int>, from: int, to: int)
    requires |b| == 64 && IsValidLocation(from) && IsValidLocation(to)
    ensures IsValidQueenMove(b, from, to) <==>
      && (Row(from) == Row(to) || Column(from) == Column(to)
          || Distance(Row(from), Row(to)) == Distance(Column(from), Column(to)))
      && (forall k :: 1 <= k < PathLength(from, to) ==> b[PathSquare(from, to, k)] == EMPTY)
      && Sign(b[to]) != Sign(b[from])
  {
    RookMoveMeaning(b, from, to);
    BishopMoveMeaning(b, from, to);
  }

  /** A king step is exactly a move onto a square that is not friendly by
      one of the eight neighbourhood offsets, without wrapping across an
      edge. */
  lemma KingStepMeaning(b: seq<int>, from: int, to: int)
    requires |b| == 64 && IsValidLocation(from) && IsValidLocation(to)
    ensures IsValidKingStep(b, from, to) <==>
      && Sign(b[to]) != Sign(b[from])
      && ((to - from in {-8, 8}) ||
          (to - from in {-7, 1, 9} && Column(from) != 7) ||
          (to - from in {7, -1, -9} && Column(from) != 0))
  {
    if from != to {
      OneSquareAwayOffsets(from, to);
    }
  }

  /** A diagonal pawn move is exactly the capture of an enemy one row
      forward (up the board for White, down for Black) and one column
      aside. */
  lemma PawnDiagonalMeaning(b: seq<int>, from: int, to: int)
    requires |b| == 64 && IsValidLocation(from) && IsValidLocation(to)
    ensures IsValidPawnDiagonalMove(b, from, to) <==>
      && b[to] != EMPTY && Sign(b[to]) != Sign(b[from]) && b[from] != EMPTY
      && Distance(Column(from), Column(to)) == 1
      && Row(to) == Row(from) + (if b[from] > 0 then -1 else 1)
  {
  }

  /** A forward pawn move is exactly a move of a piece onto an empty square
      one row forward, or two from its starting row over an empty square;
      either way it stays in its column. */
  lemma {:induction false} PawnForwardMeaning(b: seq<int>, from: int, to: int)
    requires |b| == 64 && IsValidLocation(from) && IsValidLocation(to)
    ensures IsValidPawnForwardMove(b, from, to) ==> Column(from) == Column(to)
    ensures IsValidPawnForwardMove(b, from, to) <==>
      && b[to] == EMPTY && b[from] != EMPTY
      && var forward := if b[from] > 0 then -8 else 8;
        (to == from + forward
         || (to == from + 2 * forward && IsPawnStartingLocation(b, from) && b[from + forward] == EMPTY))
  {
    var forward := if b[from] > 0 then -8 else 8;
    if Abs(Row(from) - Row(to)) == 2 || to == from + 2 * forward {
      PathClearIffEmptyBetween(b, from, to);
      if Column(from) == Column(to) && Distance(Row(from), Row(to)) == 2 {
        assert PathLength(from, to) == 2;
        assert PathSquare(from, to, 1) == (from + to) / 2;
      }
    }
  }

  /** The test as written accepts exactly what the intended one does and,
      besides, a white double step from the starting row onto an empty
      square whatever stands on the square it passes. */
  lemma PawnForwardAsWrittenMeaning(b: seq<int>, from: int, to: int)
    requires |b| == 64 && IsValidLocation(from) && IsValidLocation(to)
    ensures IsValidPawnForwardMoveAsWritten(b, from, to) <==>
      IsValidPawnForwardMove(b, from, to)
      || (b[from] > 0 && Row(from) == 6 && to == from - 16 && b[to] == EMPTY)
  {
  }

  /** The grouping as written lets a white pawn on its starting row advance
      two squares over an occupied square; the intended test refuses it. */
  lemma WhiteDoubleStepOverPiece(b: seq<int>)
    requires |b| == 64 && b[52] == WHITE_PAWN && b[44] != EMPTY && b[36] == EMPTY
    ensures IsValidPawnForwardMoveAsWritten(b, 52, 36)
    ensures !IsValidPawnForwardMove(b, 52, 36)
  {
    assert !PathClear(b, 52, 36) by {
      assert PathClearFrom(b, 6, 4, 4, 4) == false by {
        assert SquareAt(5, 4) == 44;
      }
    }
  }
}
