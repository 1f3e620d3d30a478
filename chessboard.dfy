/** The Chessboard class: the board array and the fields beside it, with
    each operation that changes them proved to do what the matching
    function of GameState does to the state as a value. */
module Chessboards {
  import opened Pieces
  import opened Squares
  import opened ChessMoves
  import opened MoveRules
  import opened Paths
  import opened Generation
  import opened Check
  import opened GameState

  class Chessboard {
    var chessSquareHistory: map<int, int>
    var removedPieces: seq<int>
    var turn: Side
    const chessboard: array<int>
    var blackKingLocation: int
    var whiteKingLocation: int
    var moves: seq<Move>

    /** The fields as a GameState value. */
    ghost function Abstract(): State
      reads this, chessboard
    {
      State(chessboard[..], whiteKingLocation, blackKingLocation, chessSquareHistory, removedPieces, moves, turn)
    }

    ghost predicate Valid()
      reads this, chessboard
    {
      chessboard.Length == 64 && WellFormed(Abstract())
    }

    /** A new board on the given layout, the black king cached on 4 and the
        white king on 60. */
    constructor(initial: seq<int>)
      requires |initial| == 64
      ensures Valid() && Abstract() == InitialState(initial)
      ensures fresh(chessboard)
    {
      var a := new int[64];
      forall i | 0 <= i < 64 {
        a[i] := initial[i];
      }
      chessboard := a;
      chessSquareHistory := ZeroCounts(64);
      removedPieces := [];
      turn := White;
      blackKingLocation := 4;
      whiteKingLocation := 60;
      moves := [];
    }

    /** updateLocation */
    method UpdateLocation(chessPiece: int, newLocation: int)
      modifies this
      ensures Abstract() == GameState.UpdateLocation(old(Abstract()), chessPiece, newLocation)
    {
      if chessPiece == WHITE_KING {
        whiteKingLocation := newLocation;
      } else if chessPiece == BLACK_KING {
        blackKingLocation := newLocation;
      }
    }

    /** incrementSquareHistory, on the counters preloaded with 0. */
    method IncrementSquareHistory(boardLocation: int)
      requires boardLocation in chessSquareHistory
      modifies this
      ensures Abstract() == old(Abstract()).(history := Increment(old(chessSquareHistory), boardLocation))
    {
      chessSquareHistory := chessSquareHistory[boardLocation := chessSquareHistory[boardLocation] + 1];
    }

    /** decrementSquareHistory */
    method DecrementSquareHistory(boardLocation: int)
      requires boardLocation in chessSquareHistory
      modifies this
      ensures Abstract() == old(Abstract()).(history := Decrement(old(chessSquareHistory), boardLocation))
    {
      chessSquareHistory := chessSquareHistory[boardLocation := chessSquareHistory[boardLocation] - 1];
    }

    /** changeTurn */
    method ChangeTurn()
      modifies this
      ensures Abstract() == old(Abstract()).(turn := Opponent(old(turn)))
      ensures turn != old(turn)
    {
      turn := if turn == White then Black else White;
    }

    /** applyCastleMove */
    method ApplyCastleMove(chessMove: Move)
      requires Valid() && MoveOnBoard(chessMove) && CastleLandsOnBoard(chessMove)
      modifies this, chessboard
      ensures Abstract() == ApplyCastle(old(Abstract()), chessMove)
      ensures Valid()
    {
      ghost var s := Abstract();
      var rook := chessboard[chessMove.to];
      var king := chessboard[chessMove.from];
      var kingSquare, rookSquare := PlaceCastle(chessMove);
      ghost var s0 := Abstract();
      assert s0 == s.(board := CastleBoard(s.board, chessMove));
      UpdateLocation(king, kingSquare);
      UpdateLocation(rook, rookSquare);
      ghost var s1 := Abstract();
      assert s1 == GameState.UpdateLocation(GameState.UpdateLocation(s0, king, kingSquare), rook, rookSquare);
      assert kingSquare in s.history && rookSquare in s.history;
      IncrementSquareHistory(kingSquare);
      IncrementSquareHistory(rookSquare);
      assert Abstract() == s1.(history := Increment(Increment(s.history, kingSquare), rookSquare));
    }

    /** The board writes of applyCastleMove: both squares cleared, then the
        king and the rook put down two squares on, the rook last. */
    method PlaceCastle(chessMove: Move) returns (kingSquare: int, rookSquare: int)
      requires chessboard.Length == 64 && MoveOnBoard(chessMove) && CastleLandsOnBoard(chessMove)
      modifies chessboard
      ensures kingSquare == chessMove.from + KingShift(chessMove)
      ensures rookSquare == chessMove.to + RookShift(chessMove)
      ensures chessboard[..] == CastleBoard(old(chessboard[..]), chessMove)
    {
      var rook := chessboard[chessMove.to];
      var king := chessboard[chessMove.from];
      var kingShift, rookShift;
      if chessMove.from % 8 < chessMove.to % 8 {
        kingShift, rookShift := 2, -2;
      } else {
        kingShift, rookShift := -2, 3;
      }
      kingSquare, rookSquare := chessMove.from + kingShift, chessMove.to + rookShift;
      chessboard[chessMove.from] := EMPTY;
      chessboard[chessMove.to] := EMPTY;
      chessboard[kingSquare] := king;
      chessboard[rookSquare] := rook;
    }

    /** movePiece */
    method MovePiece(chessMove: Move)
      requires Valid() && Applicable(Abstract(), chessMove)
      modifies this, chessboard
      ensures Abstract() == GameState.MovePiece(old(Abstract()), chessMove)
      ensures Valid()
    {
      ghost var s := Abstract();
      var target := chessboard[chessMove.to];
      var attackingPiece := chessboard[chessMove.from];
      if IsCastleMove(chessboard[..], chessMove) {
        ApplyCastleMove(chessMove);
      } else {
        UpdateLocation(attackingPiece, chessMove.to);
        IncrementSquareHistory(chessMove.to);
        chessboard[chessMove.to] := attackingPiece;
        removedPieces := removedPieces + [target];
        chessboard[chessMove.from] := EMPTY;
        if chessMove.promotion.Some? {
          chessboard[chessMove.to] := chessMove.promotion.value;
        }
        assert chessboard[..] == (if chessMove.promotion.Some?
          then s.board[chessMove.to := attackingPiece][chessMove.from := EMPTY][chessMove.to := chessMove.promotion.value]
          else s.board[chessMove.to := attackingPiece][chessMove.from := EMPTY]);
      }
      moves := moves + [chessMove];
      ChangeTurn();
    }

    /** undoPawnPromotion, as evidently intended: the pawn put back on
        `from` has the colour of the promoted piece standing there. */
    method UndoPawnPromotion(chessMove: Move)
      requires chessboard.Length == 64 && IsValidLocation(chessMove.from)
      modifies chessboard
      ensures Abstract() == old(Abstract()).(board := old(chessboard[..])[chessMove.from := RestoredPawn(old(chessboard[chessMove.from]))])
    {
      if chessboard[chessMove.from] > 0 {
        chessboard[chessMove.from] := WHITE_PAWN;
      } else {
        chessboard[chessMove.from] := BLACK_PAWN;
      }
    }

    /** undoMove */
    method UndoMove(chessMove: Move)
      requires Valid() && MoveOnBoard(chessMove) && Undoable(Abstract(), chessMove)
      modifies this, chessboard
      ensures Abstract() == GameState.UndoMove(old(Abstract()), chessMove)
      ensures Valid()
    {
      ghost var s := Abstract();
      var attacker := chessboard[chessMove.to];
      var target := chessboard[chessMove.from];
      if target == EMPTY {
        target := removedPieces[|removedPieces| - 1];
        removedPieces := removedPieces[..|removedPieces| - 1];
      }
      chessboard[chessMove.from] := attacker;
      chessboard[chessMove.to] := target;
      assert chessboard[..] == s.board[chessMove.from := attacker][chessMove.to := target];
      ghost var s0 := Abstract();
      UpdateLocation(attacker, chessMove.from);
      UpdateLocation(target, chessMove.to);
      ghost var s1 := Abstract();
      assert s1 == GameState.UpdateLocation(GameState.UpdateLocation(s0, attacker, chessMove.from), target, chessMove.to);
      DecrementSquareHistory(chessMove.to);
      ghost var s2 := Abstract();
      assert s2 == s1.(history := Decrement(s1.history, chessMove.to));
      if chessMove.promotion.Some? {
        UndoPawnPromotion(chessMove);
      }
      ghost var s3 := Abstract();
      assert s3 == if chessMove.promotion.Some? then s2.(board := s2.board[chessMove.from := RestoredPawn(s2.board[chessMove.from])]) else s2;
      if |moves| > 0 {
        moves := moves[..|moves| - 1];
      }
      ghost var s4 := Abstract();
      assert s4 == s3.(moves := if |s3.moves| > 0 then s3.moves[..|s3.moves| - 1] else s3.moves);
      ChangeTurn();
      assert Abstract() == s4.(turn := Opponent(s4.turn));
      UndoMoveInSteps(s, chessMove);
    }

    /** promotePawn: false, with nothing changed, when there is no last move
        (where the source throws). */
    method PromotePawn(chessPiece: int) returns (ok: bool)
      requires Valid()
      modifies this, chessboard
      ensures ok == GameState.PromotePawn(old(Abstract()), chessPiece).Some?
      ensures ok ==> Valid() && Abstract() == GameState.PromotePawn(old(Abstract()), chessPiece).value
      ensures !ok ==> Abstract() == old(Abstract())
    {
      if |moves| == 0 {
        return false;
      }
      ghost var s := Abstract();
      var chessMove := moves[|moves| - 1];
      chessMove := chessMove.(promotion := Some(chessPiece));
      moves := moves[|moves| - 1 := chessMove];
      chessboard[chessMove.to] := chessPiece;
      assert chessboard[..] == s.board[chessMove.to := chessPiece];
      ok := true;
    }

    // -------------------------------------------------------------------
    // Check detection

    /** The loop of isInCheckFrom: walk the ray from the king until it
        leaves the board or meets a piece, and say where. */
    method FindFirstOccupied(rowDirection: int, columnDirection: int, kingLocation: int) returns (found: Option<int>)
      requires chessboard.Length == 64 && IsValidLocation(kingLocation) && IsDirection(rowDirection, columnDirection)
      ensures found == FirstOccupied(chessboard[..], Row(kingLocation) + rowDirection, Column(kingLocation) + columnDirection,
                                     rowDirection, columnDirection)
    {
      ghost var b := chessboard[..];
      var row := kingLocation / 8 + rowDirection;
      var column := kingLocation % 8 + columnDirection;
      ghost var first := FirstOccupied(b, row, column, rowDirection, columnDirection);
      while IsValidRow(row) && IsValidColumn(column)
        invariant b == chessboard[..]
        invariant FirstOccupied(b, row, column, rowDirection, columnDirection) == first
        decreases StepsLeft(row, rowDirection) + StepsLeft(column, columnDirection)
      {
        var locationInPath := row * 8 + column;
        FirstOccupiedStep(b, row, column, rowDirection, columnDirection);
        StepsLeftDecrease(row, column, rowDirection, columnDirection);
        if chessboard[locationInPath] != EMPTY {
          return Some(locationInPath);
        }
        row := row + rowDirection;
        column := column + columnDirection;
      }
      return None;
    }

    /** isInCheckFrom: whether the first piece on the ray could move onto
        the king's square; no piece, no check. */
    method IsInCheckFrom(rowDirection: int, columnDirection: int, kingLocation: int) returns (r: bool)
      requires chessboard.Length == 64 && IsValidLocation(kingLocation) && IsDirection(rowDirection, columnDirection)
      ensures r == CheckFrom(chessboard[..], rowDirection, columnDirection, kingLocation)
    {
      var found := FindFirstOccupied(rowDirection, columnDirection, kingLocation);
      match found
      case None => r := false;
      case Some(locationInPath) => r := MoveRules.IsValidMove(chessboard[..], locationInPath, kingLocation);
    }

    /** isInCheck */
    method IsInCheck(color: Side) returns (r: bool)
      requires Valid()
      ensures r == InCheck(Abstract(), color)
    {
      var kingLocation := if color == White then whiteKingLocation else blackKingLocation;
      if EnemyKnightAround(chessboard[..], kingLocation) {
        return true;
      }
      r := IsInCheckFrom(0, -1, kingLocation);
      if r { return; }
      r := IsInCheckFrom(0, 1, kingLocation);
      if r { return; }
      r := IsInCheckFrom(1, -1, kingLocation);
      if r { return; }
      r := IsInCheckFrom(1, 1, kingLocation);
      if r { return; }
      r := IsInCheckFrom(1, 0, kingLocation);
      if r { return; }
      r := IsInCheckFrom(-1, -1, kingLocation);
      if r { return; }
      r := IsInCheckFrom(-1, 1, kingLocation);
      if r { return; }
      r := IsInCheckFrom(-1, 0, kingLocation);
    }

    /** isInCheckAfterMove: make the move, ask whether the mover's king is
        in check, take the move back. */
    method IsInCheckAfterMove(chessMove: Move) returns (r: bool)
      requires Valid() && Applicable(Abstract(), chessMove)
      requires IsCastleMove(chessboard[..], chessMove) ==> |removedPieces| > 0
      modifies this, chessboard
      ensures Valid()
      ensures r == InCheckAfterMove(old(Abstract()), chessMove)
      ensures Abstract() == AfterProbe(old(Abstract()), chessMove)
    {
      ghost var s := Abstract();
      var colorOfPlayer := turn;
      MovePiece(chessMove);
      assert IsCastleMove(s.board, chessMove) ==> removedPieces == s.removed;
      r := IsInCheck(colorOfPlayer);
      UndoMove(chessMove);
    }

    /** removeIllegalMoves: the moves after which the mover is not in check,
        in their order; each probe leaves the board as it was. */
    method RemoveIllegalMoves(ms: seq<Move>) returns (legalMoves: seq<Move>)
      requires Valid() && AllRestorable(Abstract(), ms)
      modifies this, chessboard
      ensures Valid() && Abstract() == old(Abstract())
      ensures AllApplicable(Abstract(), ms)
      ensures legalMoves == FilterLegal(Abstract(), ms)
    {
      ghost var s := Abstract();
      RestorableAllApplicable(s, ms);
      legalMoves := [];
      var i := 0;
      while i < |ms|
        invariant 0 <= i <= |ms|
        invariant Valid() && Abstract() == s
        invariant legalMoves == FilterLegal(s, ms[..i])
      {
        var move := ms[i];
        FilterLegalProbeStep(s, ms, i);
        var check := IsInCheckAfterMove(move);
        if !check {
          legalMoves := legalMoves + [move];
        }
        i := i + 1;
      }
      assert ms[..|ms|] == ms;
    }

    // -------------------------------------------------------------------
    // Move generation

    /** getMovesInPath */
    method GetMovesInPath(startingLocation: int, rowDirection: int, columnDirection: int) returns (path: seq<Move>)
      requires chessboard.Length == 64 && IsValidLocation(startingLocation) && IsDirection(rowDirection, columnDirection)
      ensures path == PathMoves(chessboard[..], startingLocation, rowDirection, columnDirection)
    {
      ghost var b := chessboard[..];
      path := [];
      var row := startingLocation / 8 + rowDirection;
      var column := startingLocation % 8 + columnDirection;
      while IsValidRow(row) && IsValidColumn(column)
        invariant path + RayMoves(b, startingLocation, row, column, rowDirection, columnDirection)
               == PathMoves(b, startingLocation, rowDirection, columnDirection)
        decreases StepsLeft(row, rowDirection) + StepsLeft(column, columnDirection)
      {
        var locationInPath := row * 8 + column;
        RayMovesStep(b, startingLocation, row, column, rowDirection, columnDirection, path);
        StepsLeftDecrease(row, column, rowDirection, columnDirection);
        var move := ChessMove(startingLocation, locationInPath);
        if chessboard[locationInPath] != EMPTY && Sign(chessboard[startingLocation]) != Sign(chessboard[locationInPath]) {
          path := path + [move];
          return;
        } else if chessboard[locationInPath] == EMPTY {
          path := path + [move];
        } else {
          return;
        }
        row := row + rowDirection;
        column := column + columnDirection;
      }
      assert path + [] == path;
    }

    /** The precondition of every generator: a piece on `from`, and every
        king where its cache says, so that each probe is taken back. */
    ghost predicate CanGenerate(from: int)
      reads this, chessboard
    {
      Valid() && CachesTrack(Abstract()) && IsValidLocation(from) && chessboard[from] != EMPTY
    }

    /** getPawnMoves */
    method GetPawnMoves(from: int) returns (r: seq<Move>)
      requires CanGenerate(from)
      modifies this, chessboard
      ensures Valid() && Abstract() == old(Abstract())
      ensures AllApplicable(Abstract(), PawnMoves(chessboard[..], from))
      ensures r == FilterLegal(Abstract(), PawnMoves(chessboard[..], from))
    {
      GeneratorsRestorable(Abstract(), from);
      r := RemoveIllegalMoves(PawnMoves(chessboard[..], from));
    }

    /** getRookMoves */
    method GetRookMoves(from: int) returns (r: seq<Move>)
      requires CanGenerate(from)
      modifies this, chessboard
      ensures Valid() && Abstract() == old(Abstract())
      ensures AllApplicable(Abstract(), RookMoves(chessboard[..], from))
      ensures r == FilterLegal(Abstract(), RookMoves(chessboard[..], from))
    {
      GeneratorsRestorable(Abstract(), from);
      var left := GetMovesInPath(from, 0, -1);
      var right := GetMovesInPath(from, 0, 1);
      var up := GetMovesInPath(from, -1, 0);
      var down := GetMovesInPath(from, 1, 0);
      r := RemoveIllegalMoves(left + right + up + down);
    }

    /** getBishopMoves */
    method GetBishopMoves(from: int) returns (r: seq<Move>)
      requires CanGenerate(from)
      modifies this, chessboard
      ensures Valid() && Abstract() == old(Abstract())
      ensures AllApplicable(Abstract(), BishopMoves(chessboard[..], from))
      ensures r == FilterLegal(Abstract(), BishopMoves(chessboard[..], from))
    {
      GeneratorsRestorable(Abstract(), from);
      var downRight := GetMovesInPath(from, 1, 1);
      var upLeft := GetMovesInPath(from, -1, -1);
      var downLeft := GetMovesInPath(from, 1, -1);
      var upRight := GetMovesInPath(from, -1, 1);
      r := RemoveIllegalMoves(downRight + upLeft + downLeft + upRight);
    }

    /** getQueenMoves: the filtered bishop moves, then the filtered rook moves. */
    method GetQueenMoves(from: int) returns (r: seq<Move>)
      requires CanGenerate(from)
      modifies this, chessboard
      ensures Valid() && Abstract() == old(Abstract())
      ensures AllApplicable(Abstract(), BishopMoves(chessboard[..], from))
      ensures AllApplicable(Abstract(), RookMoves(chessboard[..], from))
      ensures r == FilterLegal(Abstract(), BishopMoves(chessboard[..], from))
                 + FilterLegal(Abstract(), RookMoves(chessboard[..], from))
    {
      var bishop := GetBishopMoves(from);
      var rook := GetRookMoves(from);
      r := bishop + rook;
    }

    /** getKnightMoves */
    method GetKnightMoves(from: int) returns (r: seq<Move>)
      requires CanGenerate(from)
      modifies this, chessboard
      ensures Valid() && Abstract() == old(Abstract())
      ensures AllApplicable(Abstract(), KnightMoves(chessboard[..], from))
      ensures r == FilterLegal(Abstract(), KnightMoves(chessboard[..], from))
    {
      GeneratorsRestorable(Abstract(), from);
      r := RemoveIllegalMoves(KnightMoves(chessboard[..], from));
    }

    /** getKingMoves: the adjacent candidates, clockwise from above, that
        are on the board and not friendly. */
    method GetKingMoves(from: int) returns (r: seq<Move>)
      requires CanGenerate(from)
      modifies this, chessboard
      ensures Valid() && Abstract() == old(Abstract())
      ensures AllApplicable(Abstract(), KingMoves(chessboard[..], from))
      ensures r == FilterLegal(Abstract(), KingMoves(chessboard[..], from))
    {
      ghost var s := Abstract();
      ghost var b := chessboard[..];
      var potentialMoveLocations := KingCandidates(from);
      var kingMoves := [];
      var i := 0;
      while i < |potentialMoveLocations|
        invariant 0 <= i <= |potentialMoveLocations|
        invariant Valid() && Abstract() == s
        invariant kingMoves + KingMovesAmong(b, from, potentialMoveLocations[i..]) == KingMoves(b, from)
      {
        var to := potentialMoveLocations[i];
        KingMovesAmongStep(b, from, potentialMoveLocations, i, kingMoves);
        if IsValidLocation(to) {
          if IsAttackingEnemy(chessboard[..], from, to) || IsEmptyAt(chessboard[..], to) {
            kingMoves := kingMoves + [ChessMove(from, to)];
          }
        }
        i := i + 1;
      }
      assert kingMoves == KingMoves(b, from) by {
        assert potentialMoveLocations[i..] == [];
        assert kingMoves + [] == kingMoves;
      }
      KingMovesRestorable(Abstract(), from);
      r := RemoveIllegalMoves(kingMoves);
    }

    /** getMovesForPieceAt */
    method GetMovesForPieceAt(boardLocation: int) returns (r: seq<Move>)
      requires Valid() && CachesTrack(Abstract()) && IsValidLocation(boardLocation)
      modifies this, chessboard
      ensures Valid() && Abstract() == old(Abstract())
      ensures r == LegalPieceMoves(Abstract(), boardLocation)
    {
      var kind := Abs(chessboard[boardLocation]);
      if kind == PAWN {
        r := GetPawnMoves(boardLocation);
      } else if kind == ROOK {
        r := GetRookMoves(boardLocation);
      } else if kind == KNIGHT {
        r := GetKnightMoves(boardLocation);
      } else if kind == BISHOP {
        r := GetBishopMoves(boardLocation);
      } else if kind == QUEEN {
        r := GetQueenMoves(boardLocation);
      } else if kind == KING {
        r := GetKingMoves(boardLocation);
      } else {
        r := [];
      }
    }

    /** getValidMovesForPieceAt */
    method GetValidMovesForPieceAt(boardLocation: int) returns (r: seq<Move>)
      requires Valid() && CachesTrack(Abstract()) && IsValidLocation(boardLocation)
      modifies this, chessboard
      ensures Valid() && Abstract() == old(Abstract())
      ensures r == ValidMovesForPieceAt(Abstract(), boardLocation)
    {
      if ColorOf(chessboard[boardLocation]) == turn {
        var pieceMoves := GetMovesForPieceAt(boardLocation);
        LegalPieceMovesRestorable(Abstract(), boardLocation);
        r := RemoveIllegalMoves(pieceMoves);
      } else {
        r := [];
      }
    }

    /** getAllMoves */
    method GetAllMoves() returns (r: seq<Move>)
      requires Valid() && CachesTrack(Abstract())
      modifies this, chessboard
      ensures Valid() && Abstract() == old(Abstract())
      ensures r == AllMoves(Abstract())
    {
      ghost var s := Abstract();
      var all := [];
      var boardLocation := 0;
      while boardLocation < 64
        invariant 0 <= boardLocation <= 64
        invariant Valid() && Abstract() == s
        invariant all == CollectedMoves(s, boardLocation)
      {
        if ColorOf(chessboard[boardLocation]) == turn {
          var pieceMoves := GetMovesForPieceAt(boardLocation);
          all := all + pieceMoves;
        }
        boardLocation := boardLocation + 1;
      }
      CollectedMovesRestorable(s, 64);
      r := RemoveIllegalMoves(all);
    }

    /** isCheckmate */
    method IsCheckmate() returns (r: bool)
      requires Valid() && CachesTrack(Abstract())
      modifies this, chessboard
      ensures Valid() && Abstract() == old(Abstract())
      ensures r == Checkmate(Abstract())
    {
      var check := IsInCheck(turn);
      if check {
        var all := GetAllMoves();
        r := |all| == 0;
      } else {
        r := false;
      }
    }

    /** isStalemate */
    method IsStalemate() returns (r: bool)
      requires Valid() && CachesTrack(Abstract())
      modifies this, chessboard
      ensures Valid() && Abstract() == old(Abstract())
      ensures r == Stalemate(Abstract())
    {
      var check := IsInCheck(turn);
      if check {
        r := false;
      } else {
        var all := GetAllMoves();
        r := |all| == 0;
      }
    }

    /** evaluate: the sum of valueOf over the board, 200 less when
        checkmated. */
    method Evaluate() returns (boardValue: int)
      requires Valid() && CachesTrack(Abstract())
      modifies this, chessboard
      ensures Valid() && Abstract() == old(Abstract())
      ensures boardValue == GameState.Evaluate(Abstract())
    {
      boardValue := 0;
      var i := 0;
      while i < 64
        invariant 0 <= i <= 64
        invariant boardValue == Material(chessboard[..], turn, i)
      {
        boardValue := boardValue + ValueOf(chessboard[i], turn);
        i := i + 1;
      }
      var mate := IsCheckmate();
      if mate {
        boardValue := boardValue + -200;
      }
    }

    // -------------------------------------------------------------------
    // isPathClear and castling

    /** isPathClear */
    method IsPathClear(from: int, to: int) returns (r: bool)
      requires chessboard.Length == 64 && IsValidLocation(from) && IsValidLocation(to)
      ensures r == PathClear(chessboard[..], from, to)
    {
      ghost var b := chessboard[..];
      var row := from / 8;
      var column := from % 8;
      var rowTo := to / 8;
      var columnTo := to % 8;
      while row != rowTo || column != columnTo
        invariant IsValidRow(row) && IsValidColumn(column)
        invariant PathClearFrom(b, row, column, rowTo, columnTo) == PathClear(b, from, to)
        decreases Distance(row, rowTo) + Distance(column, columnTo)
      {
        if row != rowTo {
          row := if row < rowTo then row + 1 else row - 1;
        }
        if column != columnTo {
          column := if column < columnTo then column + 1 else column - 1;
        }
        if row == rowTo && column == columnTo {
          return true;
        }
        if chessboard[row * 8 + column] != EMPTY {
          return false;
        }
      }
      return true;
    }

    /** isValidCastleMove, with its probe loop stopping before `to`: the
        guard, the king not in check, then the king moved to each square on
        the way and taken back, out of check on every one. A castle whose
        probes would include one onto a piece of the king's colour is
        refused before any probe. */
    method IsValidCastleMove(from: int, to: int) returns (r: bool)
      requires Valid() && CachesTrack(Abstract()) && IsValidLocation(from) && IsValidLocation(to)
      modifies this, chessboard
      ensures Valid() && Abstract() == old(Abstract())
      ensures r == CastleValid(Abstract(), from, to)
    {
      var king := chessboard[from];
      var rook := chessboard[to];
      var clear := IsPathClear(from, to);
      if Abs(rook) != ROOK || !clear || Abs(king) != KING || HasPieceAtMoved(chessSquareHistory, from)
        || HasPieceAtMoved(chessSquareHistory, to) || Sign(rook) != Sign(king)
      {
        return false;
      }
      var friendly := HasOwnPieceBetween(from, to);
      if friendly {
        return false;
      }
      var check := IsInCheck(SideOf(king));
      if check {
        return false;
      }
      r := ProbeCastlePath(from, to);
    }

    /** Whether a square at an index strictly between holds a piece of the
        colour on `from`, so that moving it there would be a castle. */
    method HasOwnPieceBetween(from: int, to: int) returns (found: bool)
      requires Valid() && IsValidLocation(from) && IsValidLocation(to)
      ensures found <==> !ProbesNotCastle(Abstract(), from, to)
    {
      var low := if from < to then from else to;
      var high := if from < to then to else from;
      var square := low + 1;
      while square < high
        invariant low + 1 <= square <= high || (square == low + 1 && high <= low + 1)
        invariant forall other :: low < other < square ==> Sign(chessboard[other]) != Sign(chessboard[from])
      {
        if Sign(chessboard[square]) == Sign(chessboard[from]) {
          return true;
        }
        square := square + 1;
      }
      return false;
    }

    /** The loop of isValidCastleMove, stopping before `to`: move the king to
        each square on the way and ask whether it stands there in check. */
    method ProbeCastlePath(from: int, to: int) returns (r: bool)
      requires Valid() && CachesTrack(Abstract()) && IsValidLocation(from) && IsValidLocation(to) && from != to
      requires ProbesNotCastle(Abstract(), from, to)
      modifies this, chessboard
      ensures Valid() && Abstract() == old(Abstract())
      ensures r == CastleProbesFrom(Abstract(), from, to, from)
    {
      ghost var s := Abstract();
      var direction := if to > from then 1 else -1;
      var locationInPath := from;
      while locationInPath + direction != to
        invariant locationInPath == from || Between(from, to, locationInPath)
        invariant Valid() && Abstract() == s
        invariant CastleProbesFrom(s, from, to, locationInPath) == CastleProbesFrom(s, from, to, from)
        decreases Distance(locationInPath, to)
      {
        CastleProbeStep(s, from, to, locationInPath);
        locationInPath := locationInPath + direction;
        var inCheck := ProbeCastleSquare(from, to, locationInPath);
        if inCheck {
          return false;
        }
      }
      return true;
    }

    /** One probe of the loop of isValidCastleMove: the king moved to a
        square on the way, the check asked and the move taken back. */
    method ProbeCastleSquare(from: int, to: int, square: int) returns (inCheck: bool)
      requires Valid() && CachesTrack(Abstract()) && IsValidLocation(from) && IsValidLocation(to)
      requires Between(from, to, square) && ProbesNotCastle(Abstract(), from, to)
      modifies this, chessboard
      ensures Valid() && Abstract() == old(Abstract())
      ensures inCheck == InCheckAfterMove(old(Abstract()), ChessMove(from, square))
    {
      ghost var s := Abstract();
      assert Tracks(s, from) && Tracks(s, square);
      ProbeRestores(s, ChessMove(from, square));
      inCheck := IsInCheckAfterMove(ChessMove(from, square));
    }

    /** isValidKingMove */
    method IsValidKingMove(from: int, to: int) returns (r: bool)
      requires Valid() && CachesTrack(Abstract()) && IsValidLocation(from) && IsValidLocation(to)
      modifies this, chessboard
      ensures Valid() && Abstract() == old(Abstract())
      ensures r == KingMoveValid(Abstract(), from, to)
    {
      if IsValidKingStep(chessboard[..], from, to) {
        return true;
      }
      r := IsValidCastleMove(from, to);
    }

    /** isValidMove, with the castle disjunct for a king. */
    method IsValidMove(from: int, to: int) returns (r: bool)
      requires Valid() && CachesTrack(Abstract()) && IsValidLocation(from) && IsValidLocation(to)
      modifies this, chessboard
      ensures Valid() && Abstract() == old(Abstract())
      ensures r == MoveValid(Abstract(), from, to)
    {
      if Abs(chessboard[from]) == KING {
        r := IsValidKingMove(from, to);
      } else {
        r := MoveRules.IsValidMove(chessboard[..], from, to);
      }
    }
  }
}
