/** isPathClear: the walk from one square towards another, stepping the row
    and the column independently by one until both agree, that fails at the
    first occupied square strictly before the destination. */
module Paths {
  import opened Pieces
  import opened Squares

  /** One step of a coordinate towards its target. */
  function StepToward(a: int, target: int): int {
    if a == target then a else if a < target then a + 1 else a - 1
  }

  /** The walk of isPathClear from the current (row, column). */
  function PathClearFrom(b: seq<int>, row: int, column: int, rowTo: int, columnTo: int): bool
    requires |b| == 64
    requires IsValidRow(row) && IsValidColumn(column) && IsValidRow(rowTo) && IsValidColumn(columnTo)
    decreases Distance(row, rowTo) + Distance(column, columnTo)
  {
    if row == rowTo && column == columnTo then true
    else
      var r := StepToward(row, rowTo);
      var c := StepToward(column, columnTo);
      if r == rowTo && c == columnTo then true
      else if b[SquareAt(r, c)] != EMPTY then false
      else PathClearFrom(b, r, c, rowTo, columnTo)
  }

  /** isPathClear(from, to) */
  predicate PathClear(b: seq<int>, from: int, to: int)
    requires |b| == 64 && IsValidLocation(from) && IsValidLocation(to)
  {
    SquareDecomposes(from);
    SquareDecomposes(to);
    PathClearFrom(b, Row(from), Column(from), Row(to), Column(to))
  }

  /** The coordinate reached after k steps towards the target. */
  function StepsToward(a: int, target: int, k: nat): int {
    if Distance(a, target) <= k then target else if a < target then a + k else a - k
  }

  /** The number of steps the walk takes: the larger coordinate distance. */
  function PathLength(from: int, to: int): nat
    requires IsValidLocation(from) && IsValidLocation(to)
  {
    var dr := Distance(Row(from), Row(to));
    var dc := Distance(Column(from), Column(to));
    if dr < dc then dc else dr
  }

  /** The k-th square the walk from `from` to `to` visits. */
  function PathSquare(from: int, to: int, k: nat): (sq: int)
    requires IsValidLocation(from) && IsValidLocation(to)
    ensures IsValidLocation(sq)
  {
    SquareAt(StepsToward(Row(from), Row(to), k), StepsToward(Column(from), Column(to), k))
  }

  function SquareFrom(row: int, column: int, rowTo: int, columnTo: int, k: nat): (sq: int)
    requires IsValidRow(row) && IsValidColumn(column) && IsValidRow(rowTo) && IsValidColumn(columnTo)
    ensures IsValidLocation(sq)
  {
    SquareAt(StepsToward(row, rowTo, k), StepsToward(column, columnTo, k))
  }

  lemma StepShift(a: int, target: int, k: nat)
    ensures StepsToward(StepToward(a, target), target, k) == StepsToward(a, target, k + 1)
  {
  }

  lemma {:induction false} PathClearFromEmptyBetween(b: seq<int>, row: int, column: int, rowTo: int, columnTo: int)
    requires |b| == 64
    requires IsValidRow(row) && IsValidColumn(column) && IsValidRow(rowTo) && IsValidColumn(columnTo)
    ensures var n := if Distance(row, rowTo) < Distance(column, columnTo)
                     then Distance(column, columnTo) else Distance(row, rowTo);
      PathClearFrom(b, row, column, rowTo, columnTo) <==>
      forall k :: 1 <= k < n ==> b[SquareFrom(row, column, rowTo, columnTo, k)] == EMPTY
    decreases Distance(row, rowTo) + Distance(column, columnTo)
  {
    var n := if Distance(row, rowTo) < Distance(column, columnTo)
             then Distance(column, columnTo) else Distance(row, rowTo);
    if row == rowTo && column == columnTo {
    } else {
      var r := StepToward(row, rowTo);
      var c := StepToward(column, columnTo);
      assert SquareFrom(row, column, rowTo, columnTo, 1) == SquareAt(r, c);
      if r == rowTo && c == columnTo {
        assert n == 1;
      } else {
        PathClearFromEmptyBetween(b, r, c, rowTo, columnTo);
        var n' := if Distance(r, rowTo) < Distance(c, columnTo)
                  then Distance(c, columnTo) else Distance(r, rowTo);
        assert n' == n - 1;
        forall k: nat
          ensures SquareFrom(r, c, rowTo, columnTo, k) == SquareFrom(row, column, rowTo, columnTo, k + 1)
        {
          StepShift(row, rowTo, k);
          StepShift(column, columnTo, k);
        }
        if b[SquareAt(r, c)] == EMPTY {
          if PathClearFrom(b, r, c, rowTo, columnTo) {
            forall k | 1 <= k < n
              ensures b[SquareFrom(row, column, rowTo, columnTo, k)] == EMPTY
            {
              if k > 1 {
                assert SquareFrom(r, c, rowTo, columnTo, k - 1) == SquareFrom(row, column, rowTo, columnTo, k);
              }
            }
          } else {
            var j :| 1 <= j < n' && b[SquareFrom(r, c, rowTo, columnTo, j)] != EMPTY;
            assert b[SquareFrom(row, column, rowTo, columnTo, j + 1)] != EMPTY;
          }
        }
      }
    }
  }

  /** The partner of isPathClear's loop: the path is clear exactly when every
      square the walk visits strictly before the destination is empty. */
  lemma PathClearIffEmptyBetween(b: seq<int>, from: int, to: int)
    requires |b| == 64 && IsValidLocation(from) && IsValidLocation(to)
    ensures PathClear(b, from, to) <==>
      forall k :: 1 <= k < PathLength(from, to) ==> b[PathSquare(from, to, k)] == EMPTY
  {
    SquareDecomposes(from);
    SquareDecomposes(to);
    PathClearFromEmptyBetween(b, Row(from), Column(from), Row(to), Column(to));
    forall k: nat ensures PathSquare(from, to, k) == SquareFrom(Row(from), Column(from), Row(to), Column(to), k) {
    }
  }
}
