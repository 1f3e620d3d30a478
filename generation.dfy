/** Pseudo-legal move generation: the candidate lists each generator builds
    before it passes them to removeIllegalMoves. */
module Generation {
  import opened Pieces
  import opened Squares
  import opened ChessMoves
  import opened MoveRules

  // ---------------------------------------------------------------------
  // Rays (getMovesInPath)

  /** One of the eight unit directions of the ray walks. */
  predicate IsDirection(dr: int, dc: int) {
    -1 <= dr <= 1 && -1 <= dc <= 1 && (dr != 0 || dc != 0)
  }

  /** Steps left before a coordinate moving in direction d leaves 0..7. */
  function StepsLeft(x: int, d: int): nat {
    if d > 0 then (if x < 8 then 8 - x else 0)
    else if d < 0 then (if x >= 0 then x + 1 else 0)
    else 0
  }

  /** A coordinate after j steps in direction d (d in -1..1). */
  function Along(x: int, d: int, j: nat): int {
    if d > 0 then x + j else if d < 0 then x - j else x
  }

  predicate OnBoardAt(row: int, column: int, dr: int, dc: int, j: nat) {
    IsValidRow(Along(row, dr, j)) && IsValidColumn(Along(column, dc, j))
  }

  /** The j-th square of the ray that starts at (row, column). */
  function RaySquare(row: int, column: int, dr: int, dc: int, j: nat): int
    requires OnBoardAt(row, column, dr, dc, j)
  {
    SquareAt(Along(row, dr, j), Along(column, dc, j))
  }

  /** The loop of getMovesInPath from the current (row, column): empty
      squares are collected, an enemy square is collected and ends the ray,
      a friendly square ends it. */
  function RayMoves(b: seq<int>, start: int, row: int, column: int, dr: int, dc: int): (r: seq<Move>)
    requires |b| == 64 && IsValidLocation(start) && IsDirection(dr, dc)
    ensures forall i :: 0 <= i < |r| ==> r[i].from == start && IsValidLocation(r[i].to)
    decreases StepsLeft(row, dr) + StepsLeft(column, dc)
  {
    if !(IsValidRow(row) && IsValidColumn(column)) then []
    else
      var location := SquareAt(row, column);
      if IsAttackingEnemy(b, start, location) then [ChessMove(start, location)]
      else if IsEmptyAt(b, location) then [ChessMove(start, location)] + RayMoves(b, start, row + dr, column + dc, dr, dc)
      else []
  }

  /** A step along a ray from a square on the board brings it closer to
      the edge. */
  lemma StepsLeftDecrease(row: int, column: int, dr: int, dc: int)
    requires IsDirection(dr, dc) && IsValidRow(row) && IsValidColumn(column)
    ensures StepsLeft(row + dr, dr) + StepsLeft(column + dc, dc) < StepsLeft(row, dr) + StepsLeft(column, dc)
  {
  }

  /** One iteration of the loop of getMovesInPath, for a prefix of moves
      already collected. */
  lemma RayMovesStep(b: seq<int>, start: int, row: int, column: int, dr: int, dc: int, path: seq<Move>)
    requires |b| == 64 && IsValidLocation(start) && IsDirection(dr, dc)
    requires IsValidRow(row) && IsValidColumn(column)
    ensures var location := row * 8 + column;
      var move := ChessMove(start, location);
      && IsValidLocation(location)
      && path + RayMoves(b, start, row, column, dr, dc) ==
           if b[location] != EMPTY && Sign(b[start]) != Sign(b[location]) then path + [move]
           else if b[location] == EMPTY then (path + [move]) + RayMoves(b, start, row + dr, column + dc, dr, dc)
           else path
  {
    assert path + [] == path;
  }

  /** getMovesInPath(start, dr, dc) */
  function PathMoves(b: seq<int>, start: int, dr: int, dc: int): seq<Move>
    requires |b| == 64 && IsValidLocation(start) && IsDirection(dr, dc)
  {
    RayMoves(b, start, Row(start) + dr, Column(start) + dc, dr, dc)
  }

  lemma AlongNext(x: int, d: int, j: nat)
    requires -1 <= d <= 1
    ensures Along(x + d, d, j) == Along(x, d, j + 1)
  {
  }

  /** The ray from the next square is the ray from this one, one step on. */
  lemma RayShift(row: int, column: int, dr: int, dc: int, j: nat)
    requires IsDirection(dr, dc)
    ensures OnBoardAt(row + dr, column + dc, dr, dc, j) == OnBoardAt(row, column, dr, dc, j + 1)
    ensures OnBoardAt(row + dr, column + dc, dr, dc, j) ==>
      RaySquare(row + dr, column + dc, dr, dc, j) == RaySquare(row, column, dr, dc, j + 1)
  {
    AlongNext(row, dr, j);
    AlongNext(column, dc, j);
  }

  /** The i-th move of the ray walk goes to the i-th square of the ray, which
      is on the board and empty or an enemy; every move but the last goes to
      an empty square. */
  lemma {:induction false} RayMovesAt(b: seq<int>, start: int, row: int, column: int, dr: int, dc: int, i: nat)
    requires |b| == 64 && IsValidLocation(start) && IsDirection(dr, dc)
    requires i < |RayMoves(b, start, row, column, dr, dc)|
    ensures OnBoardAt(row, column, dr, dc, i)
    ensures RayMoves(b, start, row, column, dr, dc)[i] == ChessMove(start, RaySquare(row, column, dr, dc, i))
    ensures IsEmptyAt(b, RaySquare(row, column, dr, dc, i)) || IsAttackingEnemy(b, start, RaySquare(row, column, dr, dc, i))
    ensures i < |RayMoves(b, start, row, column, dr, dc)| - 1 ==> b[RaySquare(row, column, dr, dc, i)] == EMPTY
    decreases i
  {
    var r := RayMoves(b, start, row, column, dr, dc);
    var location := SquareAt(row, column);
    assert OnBoardAt(row, column, dr, dc, 0) && RaySquare(row, column, dr, dc, 0) == location;
    if i > 0 {
      var row', column' := row + dr, column + dc;
      var rest := RayMoves(b, start, row', column', dr, dc);
      assert r == [ChessMove(start, location)] + rest;
      assert r[i] == rest[i - 1];
      RayMovesAt(b, start, row', column', dr, dc, i - 1);
      AlongNext(row, dr, i - 1);
      AlongNext(column, dc, i - 1);
    }
  }

  /** Why the ray walk from (row, column) stops after its n moves: the n-th
      move took an enemy, or the next square of the ray is off the board or
      holds a friendly piece. */
  predicate RayStops(b: seq<int>, start: int, row: int, column: int, dr: int, dc: int)
    requires |b| == 64 && IsValidLocation(start) && IsDirection(dr, dc)
  {
    var r := RayMoves(b, start, row, column, dr, dc);
    var n := |r|;
    || (n > 0 && IsAttackingEnemy(b, start, r[n - 1].to))
    || !OnBoardAt(row, column, dr, dc, n)
    || (b[RaySquare(row, column, dr, dc, n)] != EMPTY && Sign(b[RaySquare(row, column, dr, dc, n)]) == Sign(b[start]))
  }

  /** Walking over an empty square keeps the reason the walk stops. */
  lemma RayStopsStep(b: seq<int>, start: int, row: int, column: int, dr: int, dc: int)
    requires |b| == 64 && IsValidLocation(start) && IsDirection(dr, dc)
    requires IsValidRow(row) && IsValidColumn(column) && b[row * 8 + column] == EMPTY
    requires RayStops(b, start, row + dr, column + dc, dr, dc)
    ensures RayStops(b, start, row, column, dr, dc)
  {
    var location := row * 8 + column;
    var r := RayMoves(b, start, row, column, dr, dc);
    var rest := RayMoves(b, start, row + dr, column + dc, dr, dc);
    var n := |rest|;
    assert r == [ChessMove(start, location)] + rest;
    RayShift(row, column, dr, dc, n);
    if n > 0 && IsAttackingEnemy(b, start, rest[n - 1].to) {
      assert r[|r| - 1] == rest[n - 1];
    }
  }

  /** Every ray walk stops for one of those reasons. */
  lemma {:induction false} RayMovesEnd(b: seq<int>, start: int, row: int, column: int, dr: int, dc: int)
    requires |b| == 64 && IsValidLocation(start) && IsDirection(dr, dc)
    ensures RayStops(b, start, row, column, dr, dc)
    decreases StepsLeft(row, dr) + StepsLeft(column, dc)
  {
    assert Along(row, dr, 0) == row && Along(column, dc, 0) == column;
    if IsValidRow(row) && IsValidColumn(column) {
      var location := row * 8 + column;
      if b[location] == EMPTY {
        RayMovesEnd(b, start, row + dr, column + dc, dr, dc);
        RayStopsStep(b, start, row, column, dr, dc);
      } else {
        assert RaySquare(row, column, dr, dc, 0) == location;
      }
    }
  }

  /** m goes from start to the (i+1)-th square of the ray from start. */
  predicate OnRay(start: int, dr: int, dc: int, i: nat, m: Move)
    requires IsValidLocation(start)
  {
    OnBoardAt(Row(start), Column(start), dr, dc, i + 1)
    && m == ChessMove(start, RaySquare(Row(start), Column(start), dr, dc, i + 1))
  }

  /** The i-th move of getMovesInPath goes to the (i+1)-th square from the
      start, which is on the board and empty or an enemy; every move but the
      last goes to an empty square. */
  lemma PathMovesAt(b: seq<int>, start: int, dr: int, dc: int, i: nat)
    requires |b| == 64 && IsValidLocation(start) && IsDirection(dr, dc)
    requires i < |PathMoves(b, start, dr, dc)|
    ensures var r := PathMoves(b, start, dr, dc);
      && OnRay(start, dr, dc, i, r[i])
      && (IsEmptyAt(b, r[i].to) || IsAttackingEnemy(b, start, r[i].to))
      && (i < |r| - 1 ==> b[r[i].to] == EMPTY)
  {
    var row, column := Row(start), Column(start);
    RayMovesAt(b, start, row + dr, column + dc, dr, dc, i);
    RayShift(row, column, dr, dc, i);
  }

  /** getMovesInPath stops only at an enemy it takes, at the edge or in
      front of a friendly piece. */
  lemma PathMovesEnd(b: seq<int>, start: int, dr: int, dc: int)
    requires |b| == 64 && IsValidLocation(start) && IsDirection(dr, dc)
    ensures var r := PathMoves(b, start, dr, dc);
      var n := |r|;
      || (n > 0 && IsAttackingEnemy(b, start, r[n - 1].to))
      || !OnBoardAt(Row(start), Column(start), dr, dc, n + 1)
      || (b[RaySquare(Row(start), Column(start), dr, dc, n + 1)] != EMPTY
          && Sign(b[RaySquare(Row(start), Column(start), dr, dc, n + 1)]) == Sign(b[start]))
  {
    var row, column := Row(start), Column(start);
    RayMovesEnd(b, start, row + dr, column + dc, dr, dc);
    RayShift(row, column, dr, dc, |PathMoves(b, start, dr, dc)|);
  }

  /** getMovesInPath walks the ray square by square: its i-th move goes to
      the (i+1)-th square from the start, on the board and empty or enemy,
      every move but the last to an empty square; and it stops only at an
      enemy it takes, at the edge or in front of a friendly piece. */
  lemma PathMovesAlongRay(b: seq<int>, start: int, dr: int, dc: int)
    requires |b| == 64 && IsValidLocation(start) && IsDirection(dr, dc)
    ensures var r := PathMoves(b, start, dr, dc);
      forall i :: 0 <= i < |r| ==>
        && OnRay(start, dr, dc, i, r[i])
        && (IsEmptyAt(b, r[i].to) || IsAttackingEnemy(b, start, r[i].to))
        && (i < |r| - 1 ==> b[r[i].to] == EMPTY)
    ensures var r := PathMoves(b, start, dr, dc);
      var n := |r|;
      || (n > 0 && IsAttackingEnemy(b, start, r[n - 1].to))
      || !OnBoardAt(Row(start), Column(start), dr, dc, n + 1)
      || (b[RaySquare(Row(start), Column(start), dr, dc, n + 1)] != EMPTY
          && Sign(b[RaySquare(Row(start), Column(start), dr, dc, n + 1)]) == Sign(b[start]))
  {
    forall i | 0 <= i < |PathMoves(b, start, dr, dc)| {
      PathMovesAt(b, start, dr, dc, i);
    }
    PathMovesEnd(b, start, dr, dc);
  }

  /** getRookMoves before filtering: left, right, up, down. */
  function RookMoves(b: seq<int>, from: int): seq<Move>
    requires |b| == 64 && IsValidLocation(from)
  {
    PathMoves(b, from, 0, -1) + PathMoves(b, from, 0, 1) + PathMoves(b, from, -1, 0) + PathMoves(b, from, 1, 0)
  }

  /** getBishopMoves before filtering. */
  function BishopMoves(b: seq<int>, from: int): seq<Move>
    requires |b| == 64 && IsValidLocation(from)
  {
    PathMoves(b, from, 1, 1) + PathMoves(b, from, -1, -1) + PathMoves(b, from, 1, -1) + PathMoves(b, from, -1, 1)
  }

  // ---------------------------------------------------------------------
  // Knight (getKnightMoves)

  const KNIGHT_OFFSETS: seq<int> := [17, 15, -17, -15, 6, 10, -6, -10]

  /** The offsets, in order, whose destination passes isValidKnightMove. */
  function KnightMovesAmong(b: seq<int>, from: int, offsets: seq<int>): seq<Move>
    requires |b| == 64 && IsValidLocation(from)
  {
    if offsets == [] then []
    else
      (if IsValidKnightMove(b, from, from + offsets[0]) then [ChessMove(from, from + offsets[0])] else [])
      + KnightMovesAmong(b, from, offsets[1..])
  }

  /** getKnightMoves before filtering. */
  function KnightMoves(b: seq<int>, from: int): seq<Move>
    requires |b| == 64 && IsValidLocation(from)
  {
    KnightMovesAmong(b, from, KNIGHT_OFFSETS)
  }

  lemma {:induction false} KnightMovesAmongMembers(b: seq<int>, from: int, offsets: seq<int>, m: Move)
    requires |b| == 64 && IsValidLocation(from)
    ensures m in KnightMovesAmong(b, from, offsets) <==>
      m == ChessMove(from, m.to) && m.to - from in offsets && IsValidKnightMove(b, from, m.to)
  {
    if offsets != [] {
      KnightMovesAmongMembers(b, from, offsets[1..], m);
      assert forall x :: x in offsets <==> x == offsets[0] || x in offsets[1..];
    }
  }

  /** getKnightMoves offers exactly the valid knight moves: every square on
      the board a knight's jump away that is not friendly, and nothing that
      wraps across an edge. */
  lemma KnightMovesExact(b: seq<int>, from: int, m: Move)
    requires |b| == 64 && IsValidLocation(from)
    ensures m in KnightMoves(b, from) <==>
      m == ChessMove(from, m.to) && IsValidLocation(m.to)
      && Sign(b[m.to]) != Sign(b[from]) && KnightPattern(from, m.to)
  {
    KnightMovesAmongMembers(b, from, KNIGHT_OFFSETS, m);
    KnightMoveMeaning(b, from, m.to);
  }

  // ---------------------------------------------------------------------
  // King (getKingMoves)

  /** The candidate squares around the king, clockwise from above, without
      the three that would wrap past an edge column. */
  function KingCandidates(from: int): seq<int>
    requires IsValidLocation(from)
  {
    [from - 8]
    + (if !IsInRightMostColumn(from) then [from - 7, from + 1, from + 9] else [])
    + [from + 8]
    + (if !IsInLeftMostColumn(from) then [from + 7, from - 1, from - 9] else [])
  }

  /** The candidates, in order, that are on the board and enemy or empty. */
  function KingMovesAmong(b: seq<int>, from: int, candidates: seq<int>): seq<Move>
    requires |b| == 64 && IsValidLocation(from)
  {
    if candidates == [] then []
    else
      var to := candidates[0];
      (if IsValidLocation(to) && (IsAttackingEnemy(b, from, to) || IsEmptyAt(b, to)) then [ChessMove(from, to)] else [])
      + KingMovesAmong(b, from, candidates[1..])
  }

  /** One iteration of the for-of loop of getKingMoves over candidates[i..],
      for the moves already collected. */
  lemma KingMovesAmongStep(b: seq<int>, from: int, candidates: seq<int>, i: nat, moves: seq<Move>)
    requires |b| == 64 && IsValidLocation(from) && i < |candidates|
    ensures var to := candidates[i];
      moves + KingMovesAmong(b, from, candidates[i..]) ==
        (if IsValidLocation(to) && (IsAttackingEnemy(b, from, to) || IsEmptyAt(b, to))
         then moves + [ChessMove(from, to)] else moves)
        + KingMovesAmong(b, from, candidates[i + 1..])
  {
    assert candidates[i..][1..] == candidates[i + 1..];
  }

  /** getKingMoves before filtering (it offers no castle move). */
  function KingMoves(b: seq<int>, from: int): seq<Move>
    requires |b| == 64 && IsValidLocation(from)
  {
    KingMovesAmong(b, from, KingCandidates(from))
  }

  lemma {:induction false} KingMovesAmongMembers(b: seq<int>, from: int, candidates: seq<int>, m: Move)
    requires |b| == 64 && IsValidLocation(from)
    ensures m in KingMovesAmong(b, from, candidates) <==>
      m == ChessMove(from, m.to) && m.to in candidates && IsValidLocation(m.to)
      && (IsAttackingEnemy(b, from, m.to) || IsEmptyAt(b, m.to))
  {
    if candidates != [] {
      KingMovesAmongMembers(b, from, candidates[1..], m);
      assert forall x :: x in candidates <==> x == candidates[0] || x in candidates[1..];
    }
  }

  /** getKingMoves offers exactly the adjacent squares on the board (no
      wrap-around) that are empty or hold an enemy. */
  lemma KingMovesExact(b: seq<int>, from: int, m: Move)
    requires |b| == 64 && IsValidLocation(from)
    ensures m in KingMoves(b, from) <==>
      m == ChessMove(from, m.to) && IsValidLocation(m.to) && m.to != from
      && IsMoveOneSquareAway(from, m.to)
      && (IsAttackingEnemy(b, from, m.to) || IsEmptyAt(b, m.to))
  {
    KingMovesAmongMembers(b, from, KingCandidates(from), m);
    if IsValidLocation(m.to) && m.to != from {
      OneSquareAwayOffsets(from, m.to);
    }
  }

  // ---------------------------------------------------------------------
  // Pawn (getPawnMoves)

  /** The pawn's forward offset: up the board for White, down otherwise. */
  function PawnForward(b: seq<int>, from: int): int
    requires |b| == 64 && IsValidLocation(from)
  {
    if ColorOf(b[from]) == White then -8 else 8
  }

  /** getPawnMoves before filtering: one forward, left diagonal, right
      diagonal, two forward. */
  function PawnMoves(b: seq<int>, from: int): seq<Move>
    requires |b| == 64 && IsValidLocation(from)
  {
    var white := ColorOf(b[from]) == White;
    var forwardOne := from + (if white then -8 else 8);
    var one := if IsValidLocation(forwardOne) && IsEmptyAt(b, forwardOne) then [ChessMove(from, forwardOne)] else [];
    var leftDiagonal := from + (if white then -9 else 7);
    var left := if !IsInLeftMostColumn(from) && IsValidLocation(leftDiagonal) && IsAttackingEnemy(b, from, leftDiagonal)
                then [ChessMove(from, leftDiagonal)] else [];
    var rightDiagonal := from + (if white then -7 else 9);
    var right := if !IsInRightMostColumn(from) && IsValidLocation(rightDiagonal) && IsAttackingEnemy(b, from, rightDiagonal)
                 then [ChessMove(from, rightDiagonal)] else [];
    var forwardTwo := from + (if white then -16 else 16);
    var two := if IsPawnStartingLocation(b, from) && IsValidLocation(forwardTwo) && IsEmptyAt(b, forwardTwo) && IsEmptyAt(b, forwardOne)
               then [ChessMove(from, forwardTwo)] else [];
    one + left + right + two
  }

  /** The pawn's candidate moves: one step forward onto an empty square; two
      steps only from the colour's starting row (6 for White, 1 for Black)
      with both squares empty; a diagonal step only onto an enemy and only
      when it does not leave the board's edge column (exactly one column
      aside). */
  lemma PawnMovesExact(b: seq<int>, from: int, m: Move)
    requires |b| == 64 && IsValidLocation(from)
    ensures var forward := PawnForward(b, from);
      m in PawnMoves(b, from) <==>
      m == ChessMove(from, m.to) && IsValidLocation(m.to) &&
      ( (m.to == from + forward && b[m.to] == EMPTY)
      || (m.to == from + 2 * forward && IsPawnStartingLocation(b, from)
          && b[from + forward] == EMPTY && b[m.to] == EMPTY)
      || ((m.to == from + forward - 1 || m.to == from + forward + 1)
          && Distance(Column(m.to), Column(from)) == 1 && IsAttackingEnemy(b, from, m.to)) )
  {
    var forward := PawnForward(b, from);
    if m.to == from + forward - 1 && IsValidLocation(m.to) {
      DiagonalColumn(from, forward / 8, -1);
    } else if m.to == from + forward + 1 && IsValidLocation(m.to) {
      DiagonalColumn(from, forward / 8, 1);
    }
  }

  /** A square one row up or down and one column aside is exactly one
      column away unless the step wraps around the board's edge. */
  lemma DiagonalColumn(from: int, k: int, d: int)
    requires IsValidLocation(from) && (k == -1 || k == 1) && (d == -1 || d == 1)
    requires IsValidLocation(from + 8 * k + d)
    ensures Distance(Column(from + 8 * k + d), Column(from)) == 1 <==>
      (if d == -1 then !IsInLeftMostColumn(from) else !IsInRightMostColumn(from))
  {
    var to := from + 8 * k + d;
    assert to == (from / 8 + k) * 8 + from % 8 + d;
    assert IsInLeftMostColumn(from) <==> Column(from) == 0;
    assert IsInRightMostColumn(from) <==> Column(from) == 7;
  }

  // ---------------------------------------------------------------------
  // Dispatch (getMovesForPieceAt before filtering)

  /** The candidate moves of the piece at `from`, by kind; the queen's are
      the bishop's followed by the rook's. */
  function PieceMoves(b: seq<int>, from: int): seq<Move>
    requires |b| == 64 && IsValidLocation(from)
  {
    var kind := Abs(b[from]);
    if kind == PAWN then PawnMoves(b, from)
    else if kind == ROOK then RookMoves(b, from)
    else if kind == KNIGHT then KnightMoves(b, from)
    else if kind == BISHOP then BishopMoves(b, from)
    else if kind == QUEEN then BishopMoves(b, from) + RookMoves(b, from)
    else if kind == KING then KingMoves(b, from)
    else []
  }

  /** A candidate move of the kind every generator produces: from the given
      square, without promotion, onto a square that is empty or enemy. */
  predicate IsCandidateFrom(b: seq<int>, from: int, m: Move)
    requires |b| == 64 && IsValidLocation(from)
  {
    m == ChessMove(from, m.to) && IsValidLocation(m.to) && Sign(b[m.to]) != Sign(b[from])
  }

  lemma PathMovesCandidates(b: seq<int>, from: int, dr: int, dc: int)
    requires |b| == 64 && IsValidLocation(from) && b[from] != EMPTY && IsDirection(dr, dc)
    ensures forall m :: m in PathMoves(b, from, dr, dc) ==> IsCandidateFrom(b, from, m)
  {
    PathMovesAlongRay(b, from, dr, dc);
    var r := PathMoves(b, from, dr, dc);
    forall m | m in r ensures IsCandidateFrom(b, from, m) {
      var i :| 0 <= i < |r| && r[i] == m;
      assert IsValidLocation(m.to);
    }
  }

  /** Every candidate each generator offers from an occupied square goes to
      a square of another sign, so none of them is a castle move. */
  lemma GeneratorCandidates(b: seq<int>, from: int)
    requires |b| == 64 && IsValidLocation(from) && b[from] != EMPTY
    ensures forall m :: m in PawnMoves(b, from) ==> IsCandidateFrom(b, from, m)
    ensures forall m :: m in RookMoves(b, from) ==> IsCandidateFrom(b, from, m)
    ensures forall m :: m in KnightMoves(b, from) ==> IsCandidateFrom(b, from, m)
    ensures forall m :: m in BishopMoves(b, from) ==> IsCandidateFrom(b, from, m)
    ensures forall m :: m in KingMoves(b, from) ==> IsCandidateFrom(b, from, m)
  {
    PathMovesCandidates(b, from, 0, -1);
    PathMovesCandidates(b, from, 0, 1);
    PathMovesCandidates(b, from, -1, 0);
    PathMovesCandidates(b, from, 1, 0);
    PathMovesCandidates(b, from, 1, 1);
    PathMovesCandidates(b, from, -1, -1);
    PathMovesCandidates(b, from, 1, -1);
    PathMovesCandidates(b, from, -1, 1);
    forall m | m in PawnMoves(b, from) ensures IsCandidateFrom(b, from, m) {
      PawnMovesExact(b, from, m);
    }
    forall m | m in KnightMoves(b, from) ensures IsCandidateFrom(b, from, m) {
      KnightMovesExact(b, from, m);
    }
    forall m | m in KingMoves(b, from) ensures IsCandidateFrom(b, from, m) {
      KingMovesExact(b, from, m);
    }
  }

  /** The same for the dispatch of getMovesForPieceAt. */
  lemma PieceMovesCandidates(b: seq<int>, from: int)
    requires |b| == 64 && IsValidLocation(from) && b[from] != EMPTY
    ensures forall m :: m in PieceMoves(b, from) ==> IsCandidateFrom(b, from, m)
  {
    GeneratorCandidates(b, from);
    var kind := Abs(b[from]);
    if kind == QUEEN {
      assert PieceMoves(b, from) == BishopMoves(b, from) + RookMoves(b, from);
    } else if kind == PAWN {
      assert PieceMoves(b, from) == PawnMoves(b, from);
    } else if kind == ROOK {
      assert PieceMoves(b, from) == RookMoves(b, from);
    } else if kind == KNIGHT {
      assert PieceMoves(b, from) == KnightMoves(b, from);
    } else if kind == BISHOP {
      assert PieceMoves(b, from) == BishopMoves(b, from);
    } else if kind == KING {
      assert PieceMoves(b, from) == KingMoves(b, from);
    } else {
      assert PieceMoves(b, from) == [];
    }
  }
}
