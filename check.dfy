/** Check detection: the knight-proximity test and the eight rays walked
    outward from the king (isInCheck, isInCheckFrom, isEnemyKnightAroundKing). */
module Check {
  import opened Pieces
  import opened Squares
  import opened MoveRules
  import opened Generation

  /** The first occupied square of the ray that starts at (row, column), if
      any before the ray leaves the board (the loop of isInCheckFrom). */
  function FirstOccupied(b: seq<int>, row: int, column: int, dr: int, dc: int): (r: ChessMoves.Option<int>)
    requires |b| == 64 && IsDirection(dr, dc)
    ensures r.Some? ==> IsValidLocation(r.value) && b[r.value] != EMPTY
    decreases StepsLeft(row, dr) + StepsLeft(column, dc)
  {
    if !(IsValidRow(row) && IsValidColumn(column)) then ChessMoves.None
    else if IsOccupiedAt(b, SquareAt(row, column)) then ChessMoves.Some(SquareAt(row, column))
    else FirstOccupied(b, row + dr, column + dc, dr, dc)
  }

  /** One iteration of the loop of isInCheckFrom. */
  lemma FirstOccupiedStep(b: seq<int>, row: int, column: int, dr: int, dc: int)
    requires |b| == 64 && IsDirection(dr, dc) && IsValidRow(row) && IsValidColumn(column)
    ensures var location := row * 8 + column;
      && IsValidLocation(location)
      && FirstOccupied(b, row, column, dr, dc) ==
           if b[location] != EMPTY then ChessMoves.Some(location) else FirstOccupied(b, row + dr, column + dc, dr, dc)
  {
  }

  /** isInCheckFrom(dr, dc, king): the first piece on the ray decides, by
      whether it could move onto the king's square; no piece is no check
      (the source falls out of the loop and returns undefined). */
  predicate CheckFrom(b: seq<int>, dr: int, dc: int, king: int)
    requires |b| == 64 && IsValidLocation(king) && IsDirection(dr, dc)
  {
    match FirstOccupied(b, Row(king) + dr, Column(king) + dc, dr, dc)
    case None => false
    case Some(square) => IsValidMove(b, square, king)
  }

  /** isEnemyKnightAroundKing: one of the eight knight offsets holds a
      knight that could move onto the king's square. */
  predicate EnemyKnightAround(b: seq<int>, king: int)
    requires |b| == 64 && IsValidLocation(king)
  {
    || (IsKnightAt(b, king + 17) && IsValidKnightMove(b, king + 17, king))
    || (IsKnightAt(b, king + 15) && IsValidKnightMove(b, king + 15, king))
    || (IsKnightAt(b, king - 17) && IsValidKnightMove(b, king - 17, king))
    || (IsKnightAt(b, king - 15) && IsValidKnightMove(b, king - 15, king))
    || (IsKnightAt(b, king + 6) && IsValidKnightMove(b, king + 6, king))
    || (IsKnightAt(b, king + 10) && IsValidKnightMove(b, king + 10, king))
    || (IsKnightAt(b, king - 6) && IsValidKnightMove(b, king - 6, king))
    || (IsKnightAt(b, king - 10) && IsValidKnightMove(b, king - 10, king))
  }

  /** isInCheck for the king on `king`: the knight test, then the eight rays
      in the source's order. */
  predicate InCheckAt(b: seq<int>, king: int)
    requires |b| == 64 && IsValidLocation(king)
  {
    || EnemyKnightAround(b, king)
    || CheckFrom(b, 0, -1, king)
    || CheckFrom(b, 0, 1, king)
    || CheckFrom(b, 1, -1, king)
    || CheckFrom(b, 1, 1, king)
    || CheckFrom(b, 1, 0, king)
    || CheckFrom(b, -1, -1, king)
    || CheckFrom(b, -1, 1, king)
    || CheckFrom(b, -1, 0, king)
  }

  // ---------------------------------------------------------------------

  /** The number of empty squares, on the board, that the ray from
      (row, column) crosses before it meets a piece or the edge. */
  function EmptyRun(b: seq<int>, row: int, column: int, dr: int, dc: int): nat
    requires |b| == 64 && IsDirection(dr, dc)
    decreases StepsLeft(row, dr) + StepsLeft(column, dc)
  {
    if !(IsValidRow(row) && IsValidColumn(column)) then 0
    else if b[SquareAt(row, column)] != EMPTY then 0
    else 1 + EmptyRun(b, row + dr, column + dc, dr, dc)
  }

  lemma {:induction false} EmptyRunAt(b: seq<int>, row: int, column: int, dr: int, dc: int, k: nat)
    requires |b| == 64 && IsDirection(dr, dc) && k < EmptyRun(b, row, column, dr, dc)
    ensures OnBoardAt(row, column, dr, dc, k) && b[RaySquare(row, column, dr, dc, k)] == EMPTY
    decreases k
  {
    assert Along(row, dr, 0) == row && Along(column, dc, 0) == column;
    if k > 0 {
      EmptyRunAt(b, row + dr, column + dc, dr, dc, k - 1);
      RayShift(row, column, dr, dc, k - 1);
    }
  }

  /** The walk of isInCheckFrom stops at the end of the empty run: at the
      square after it when that is on the board, and otherwise finds nothing. */
  lemma {:induction false} FirstOccupiedAfterRun(b: seq<int>, row: int, column: int, dr: int, dc: int)
    requires |b| == 64 && IsDirection(dr, dc)
    ensures var n := EmptyRun(b, row, column, dr, dc);
      FirstOccupied(b, row, column, dr, dc) ==
        if OnBoardAt(row, column, dr, dc, n) then ChessMoves.Some(RaySquare(row, column, dr, dc, n)) else ChessMoves.None
    decreases StepsLeft(row, dr) + StepsLeft(column, dc)
  {
    assert Along(row, dr, 0) == row && Along(column, dc, 0) == column;
    if IsValidRow(row) && IsValidColumn(column) && b[SquareAt(row, column)] == EMPTY {
      FirstOccupiedAfterRun(b, row + dr, column + dc, dr, dc);
      RayShift(row, column, dr, dc, EmptyRun(b, row + dr, column + dc, dr, dc));
    }
  }

  /** Every square of the ray strictly between the king (step 0) and step j
      is on the board and empty. */
  predicate ClearBefore(b: seq<int>, king: int, dr: int, dc: int, j: nat)
    requires |b| == 64 && IsValidLocation(king) && IsDirection(dr, dc)
  {
    forall k: nat :: 0 < k < j ==>
      (OnBoardAt(Row(king), Column(king), dr, dc, k) && b[RaySquare(Row(king), Column(king), dr, dc, k)] == EMPTY)
  }

  /** A piece on the ray with only empty squares before it is the end of the
      empty run that starts next to the king. */
  lemma FirstPieceOnRay(b: seq<int>, king: int, dr: int, dc: int, j: nat)
    requires |b| == 64 && IsValidLocation(king) && IsDirection(dr, dc)
    requires 0 < j && OnBoardAt(Row(king), Column(king), dr, dc, j)
    requires b[RaySquare(Row(king), Column(king), dr, dc, j)] != EMPTY && ClearBefore(b, king, dr, dc, j)
    ensures j == EmptyRun(b, Row(king) + dr, Column(king) + dc, dr, dc) + 1
  {
    var row, column := Row(king), Column(king);
    var row', column' := row + dr, column + dc;
    var n := EmptyRun(b, row', column', dr, dc);
    if j < n + 1 {
      EmptyRunAt(b, row', column', dr, dc, j - 1);
      RayShift(row, column, dr, dc, j - 1);
    } else if j > n + 1 {
      EmptyRunEnd(b, row', column', dr, dc);
      RayShift(row, column, dr, dc, n);
    }
  }

  /** A piece is the one the walk from the king finds exactly when it lies
      on the ray with only empty squares before it. */
  predicate FirstPieceAt(b: seq<int>, king: int, dr: int, dc: int, j: nat)
    requires |b| == 64 && IsValidLocation(king) && IsDirection(dr, dc)
  {
    && 0 < j && OnBoardAt(Row(king), Column(king), dr, dc, j)
    && b[RaySquare(Row(king), Column(king), dr, dc, j)] != EMPTY
    && ClearBefore(b, king, dr, dc, j)
  }

  /** The walk of isInCheckFrom returns the square of the first piece on the
      ray, and finds nothing only when there is no such piece. */
  lemma FirstOccupiedMeaning(b: seq<int>, king: int, dr: int, dc: int)
    requires |b| == 64 && IsValidLocation(king) && IsDirection(dr, dc)
    ensures var first := FirstOccupied(b, Row(king) + dr, Column(king) + dc, dr, dc);
      && (first.Some? ==> exists j: nat :: FirstPieceAt(b, king, dr, dc, j)
                                            && first.value == RaySquare(Row(king), Column(king), dr, dc, j))
      && (first.None? ==> forall j: nat :: !FirstPieceAt(b, king, dr, dc, j))
  {
    var row, column := Row(king), Column(king);
    var row', column' := row + dr, column + dc;
    var n := EmptyRun(b, row', column', dr, dc);
    FirstOccupiedAfterRun(b, row', column', dr, dc);
    RayShift(row, column, dr, dc, n);
    forall k: nat | 0 < k < n + 1
      ensures OnBoardAt(row, column, dr, dc, k) && b[RaySquare(row, column, dr, dc, k)] == EMPTY
    {
      EmptyRunAt(b, row', column', dr, dc, k - 1);
      RayShift(row, column, dr, dc, k - 1);
    }
    assert ClearBefore(b, king, dr, dc, n + 1);
    var first := FirstOccupied(b, row', column', dr, dc);
    if first.Some? {
      assert FirstPieceAt(b, king, dr, dc, n + 1);
    } else {
      forall j: nat | FirstPieceAt(b, king, dr, dc, j) ensures false {
        FirstPieceOnRay(b, king, dr, dc, j);
      }
    }
  }

  /** isInCheckFrom holds exactly when the first piece on the ray from the
      king could move onto the king's square. */
  lemma CheckFromMeaning(b: seq<int>, dr: int, dc: int, king: int)
    requires |b| == 64 && IsValidLocation(king) && IsDirection(dr, dc)
    ensures CheckFrom(b, dr, dc, king) <==>
      exists j: nat :: FirstPieceAt(b, king, dr, dc, j)
        && IsValidMove(b, RaySquare(Row(king), Column(king), dr, dc, j), king)
  {
    FirstOccupiedMeaning(b, king, dr, dc);
    forall j: nat, i: nat | FirstPieceAt(b, king, dr, dc, j) && FirstPieceAt(b, king, dr, dc, i)
      ensures i == j
    {
      FirstPieceOnRay(b, king, dr, dc, j);
      FirstPieceOnRay(b, king, dr, dc, i);
    }
  }

  lemma {:induction false} EmptyRunEnd(b: seq<int>, row: int, column: int, dr: int, dc: int)
    requires |b| == 64 && IsDirection(dr, dc)
    ensures var n := EmptyRun(b, row, column, dr, dc);
      OnBoardAt(row, column, dr, dc, n) ==> b[RaySquare(row, column, dr, dc, n)] != EMPTY
    decreases StepsLeft(row, dr) + StepsLeft(column, dc)
  {
    assert Along(row, dr, 0) == row && Along(column, dc, 0) == column;
    if IsValidRow(row) && IsValidColumn(column) && b[SquareAt(row, column)] == EMPTY {
      EmptyRunEnd(b, row + dr, column + dc, dr, dc);
      RayShift(row, column, dr, dc, EmptyRun(b, row + dr, column + dc, dr, dc));
    }
  }

  /** isEnemyKnightAroundKing holds exactly when some square on the board a
      knight's jump from the king holds a knight of the other sign. */
  lemma EnemyKnightAroundMeaning(b: seq<int>, king: int)
    requires |b| == 64 && IsValidLocation(king)
    ensures EnemyKnightAround(b, king) <==>
      exists square :: IsValidLocation(square) && Abs(b[square]) == KNIGHT
        && Sign(b[square]) != Sign(b[king]) && KnightPattern(square, king)
  {
    forall square | IsValidLocation(square)
      ensures IsValidKnightMove(b, square, king) <==>
        Sign(b[square]) != Sign(b[king]) && KnightPattern(square, king)
    {
      KnightMoveMeaning(b, square, king);
    }
    if exists square :: IsValidLocation(square) && Abs(b[square]) == KNIGHT
        && Sign(b[square]) != Sign(b[king]) && KnightPattern(square, king)
    {
      var square :| IsValidLocation(square) && Abs(b[square]) == KNIGHT
        && Sign(b[square]) != Sign(b[king]) && KnightPattern(square, king);
      KnightPatternOffsets(king, square);
      assert IsKnightAt(b, square) && IsValidKnightMove(b, square, king);
    }
  }
}
