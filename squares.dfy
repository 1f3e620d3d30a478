/** Board geometry: squares 0..63 in row-major order, row = index / 8 and
    column = index % 8. Row 0 is Black's back rank, row 7 White's. For the
    non-negative indices these functions are applied to, Dafny's / and %
    agree with the source's Math.trunc(x / 8) and x % 8. */
module Squares {

  /** isValidLocation */
  predicate IsValidLocation(index: int) {
    index > -1 && index < 64
  }

  function Row(square: int): int
    requires square >= 0
  {
    square / 8
  }

  function Column(square: int): int
    requires square >= 0
  {
    square % 8
  }

  /** isValidRow */
  predicate IsValidRow(row: int) {
    row > -1 && row < 8
  }

  /** isValidColumn */
  predicate IsValidColumn(column: int) {
    column > -1 && column < 8
  }

  /** The square at (row, column), and that it decomposes back. */
  function SquareAt(row: int, column: int): (sq: int)
    requires IsValidRow(row) && IsValidColumn(column)
    ensures IsValidLocation(sq)
  {
    row * 8 + column
  }

  lemma SquareDecomposes(sq: int)
    requires IsValidLocation(sq)
    ensures IsValidRow(Row(sq)) && IsValidColumn(Column(sq))
    ensures SquareAt(Row(sq), Column(sq)) == sq
  {
  }

  /** isInLeftMostColumn: the square begins its row, so the square before
      it, if any, lies on another row. */
  predicate IsInLeftMostColumn(square: int): (r: bool)
    requires IsValidLocation(square)
    ensures r <==> Column(square) == 0
    ensures r <==> square == 0 || Row(square - 1) != Row(square)
  {
    square % 8 == 0
  }

  /** isInRightMostColumn: the square ends its row, so the square after it,
      if any, lies on another row. */
  predicate IsInRightMostColumn(square: int): (r: bool)
    requires IsValidLocation(square)
    ensures r <==> Column(square) == 7
    ensures r <==> square == 63 || Row(square + 1) != Row(square)
  {
    (square + 1) % 8 == 0
  }

  /** isInFirstRow */
  predicate IsInFirstRow(square: int): (r: bool)
    ensures r <==> IsValidLocation(square) && Row(square) == 0
  {
    square > -1 && square < 8
  }

  /** isInLastRow */
  predicate IsInLastRow(square: int): (r: bool)
    ensures r <==> IsValidLocation(square) && Row(square) == 7
  {
    square > 55 && square < 64
  }

  function Distance(a: int, b: int): nat {
    if a < b then b - a else a - b
  }

  /** isMoveWithinSameRow */
  predicate IsMoveWithinSameRow(one: int, two: int)
    requires IsValidLocation(one) && IsValidLocation(two)
  {
    Row(one) == Row(two)
  }

  /** isMoveWithinSameColumn */
  predicate IsMoveWithinSameColumn(from: int, to: int)
    requires IsValidLocation(from) && IsValidLocation(to)
  {
    from % 8 == to % 8
  }

  /** isMoveWithinSameDiagonal */
  predicate IsMoveWithinSameDiagonal(from: int, to: int)
    requires IsValidLocation(from) && IsValidLocation(to)
  {
    Distance(Row(to), Row(from)) == Distance(Column(to), Column(from))
  }

  /** isMoveOneSquareAway */
  predicate IsMoveOneSquareAway(from: int, to: int)
    requires IsValidLocation(from) && IsValidLocation(to)
  {
    Distance(Row(to), Row(from)) < 2 && Distance(Column(to), Column(from)) < 2
  }

  /** isOneColumnAway */
  predicate IsOneColumnAway(from: int, to: int)
    requires IsValidLocation(from) && IsValidLocation(to)
  {
    Distance(Column(to), Column(from)) == 1
  }

  /** The eight index offsets of the king's neighbourhood are exactly the
      squares one step away: a square is one step from `from` iff its index
      differs by one of them and no column wrap-around occurred. */
  lemma OneSquareAwayOffsets(from: int, to: int)
    requires IsValidLocation(from) && IsValidLocation(to) && from != to
    ensures IsMoveOneSquareAway(from, to) <==>
      (to - from in {-8, 8}) ||
      (to - from in {-7, 1, 9} && Column(from) != 7) ||
      (to - from in {7, -1, -9} && Column(from) != 0)
  {
  }

  /** A knight's (2,1) or (1,2) pattern between two squares. */
  predicate KnightPattern(from: int, to: int)
    requires IsValidLocation(from) && IsValidLocation(to)
  {
    var dr := Distance(Row(to), Row(from));
    var dc := Distance(Column(to), Column(from));
    (dr == 2 && dc == 1) || (dr == 1 && dc == 2)
  }

  /** Every knight-pattern destination is one of the eight index offsets the
      source tries (+-17, +-15, +-10, +-6). */
  lemma KnightPatternOffsets(from: int, to: int)
    requires IsValidLocation(from) && IsValidLocation(to)
    requires KnightPattern(from, to)
    ensures to - from in {17, 15, -17, -15, 6, 10, -6, -10}
  {
  }
}
