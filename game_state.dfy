/** The state of a Chessboard as a value, and what each state-changing
    operation of the class does to it: movePiece, applyCastleMove, undoMove,
    undoPawnPromotion, promotePawn, the landing counters, and the legality
    filter, game-end tests and evaluation built on them. The class in
    chessboard.dfy is proved against these functions. */
module GameState {
  import opened Pieces
  import opened Squares
  import opened Paths
  import opened ChessMoves
  import opened MoveRules
  import opened Generation
  import opened Check

  /** The fields of the class: the board, the cached king squares, the
      landing counter per square (preloaded with 0 on every square), the
      stack of captured pieces, the move log and whose turn it is. */
  datatype State = State(
    board: seq<int>,
    whiteKing: int,
    blackKing: int,
    history: map<int, int>,
    removed: seq<int>,
    moves: seq<Move>,
    turn: Side)

  predicate MoveOnBoard(m: Move) {
    IsValidLocation(m.from) && IsValidLocation(m.to)
  }

  predicate WellFormed(s: State) {
    && |s.board| == 64
    && IsValidLocation(s.whiteKing) && IsValidLocation(s.blackKing)
    && (forall square :: 0 <= square < 64 ==> square in s.history)
    && (forall i :: 0 <= i < |s.moves| ==> MoveOnBoard(s.moves[i]))
  }

  /** The state of a new board: kings on 60 and 4, no counts, no captures,
      no moves, White to move. */
  function InitialState(board: seq<int>): (s: State)
    requires |board| == 64
    ensures WellFormed(s)
  {
    State(board, 60, 4, ZeroCounts(64), [], [], White)
  }

  /** A counter of 0 for each of the squares 0..n-1. */
  function ZeroCounts(n: nat): (h: map<int, int>)
    ensures forall square :: square in h <==> 0 <= square < n
    ensures forall square :: square in h ==> h[square] == 0
  {
    if n == 0 then map[] else ZeroCounts(n - 1)[n - 1 := 0]
  }

  /** getKingLocation */
  function KingLocation(s: State, c: Side): int {
    if c == White then s.whiteKing else s.blackKing
  }

  /** updateLocation: only a king moves a king cache. */
  function UpdateLocation(s: State, piece: int, location: int): State {
    if piece == WHITE_KING then s.(whiteKing := location)
    else if piece == BLACK_KING then s.(blackKing := location)
    else s
  }

  /** incrementSquareHistory */
  function Increment(h: map<int, int>, square: int): (r: map<int, int>)
    requires square in h
  {
    h[square := h[square] + 1]
  }

  /** decrementSquareHistory */
  function Decrement(h: map<int, int>, square: int): (r: map<int, int>)
    requires square in h
  {
    h[square := h[square] - 1]
  }

  lemma DecrementUndoesIncrement(h: map<int, int>, square: int)
    requires square in h
    ensures Decrement(Increment(h, square), square) == h
  {
  }

  // ---------------------------------------------------------------------
  // Castling (applyCastleMove)

  /** Towards the higher column the king lands two to the right and the rook
      two to the left of its square; otherwise the king two to the left and
      the rook three to the right. */
  function KingShift(m: Move): int
    requires MoveOnBoard(m)
  {
    if m.from % 8 < m.to % 8 then 2 else -2
  }

  function RookShift(m: Move): int
    requires MoveOnBoard(m)
  {
    if m.from % 8 < m.to % 8 then -2 else 3
  }

  predicate CastleLandsOnBoard(m: Move)
    requires MoveOnBoard(m)
  {
    IsValidLocation(m.from + KingShift(m)) && IsValidLocation(m.to + RookShift(m))
  }

  /** A move the class can apply without writing off the board. */
  predicate Applicable(s: State, m: Move)
    requires WellFormed(s)
  {
    MoveOnBoard(m) && (IsCastleMove(s.board, m) ==> CastleLandsOnBoard(m))
  }

  /** The board of applyCastleMove: both squares cleared, then the king and
      the rook put on their landing squares, the rook last. */
  function CastleBoard(b: seq<int>, m: Move): (placed: seq<int>)
    requires |b| == 64 && MoveOnBoard(m) && CastleLandsOnBoard(m)
    ensures |placed| == 64
    ensures var kingSquare, rookSquare := m.from + KingShift(m), m.to + RookShift(m);
      && placed[rookSquare] == b[m.to]
      && (kingSquare != rookSquare ==> placed[kingSquare] == b[m.from])
      && (m.from != kingSquare && m.from != rookSquare ==> placed[m.from] == EMPTY)
      && (m.to != kingSquare && m.to != rookSquare ==> placed[m.to] == EMPTY)
      && (forall square :: (0 <= square < 64 && square != m.from && square != m.to
            && square != kingSquare && square != rookSquare) ==> placed[square] == b[square])
  {
    var kingSquare, rookSquare := m.from + KingShift(m), m.to + RookShift(m);
    b[m.from := EMPTY][m.to := EMPTY][kingSquare := b[m.from]][rookSquare := b[m.to]]
  }

  /** applyCastleMove: the castle board, the king caches moved with the two
      pieces and a landing counted on each landing square. */
  function ApplyCastle(s: State, m: Move): (r: State)
    requires WellFormed(s) && MoveOnBoard(m) && CastleLandsOnBoard(m)
    ensures WellFormed(r)
    ensures r.board == CastleBoard(s.board, m)
    ensures r.removed == s.removed && r.moves == s.moves && r.turn == s.turn
    ensures r.history == Increment(Increment(s.history, m.from + KingShift(m)), m.to + RookShift(m))
    ensures r.whiteKing == (if s.board[m.to] == WHITE_KING then m.to + RookShift(m)
                            else if s.board[m.from] == WHITE_KING then m.from + KingShift(m)
                            else s.whiteKing)
    ensures r.blackKing == (if s.board[m.to] == BLACK_KING then m.to + RookShift(m)
                            else if s.board[m.from] == BLACK_KING then m.from + KingShift(m)
                            else s.blackKing)
  {
    var rook := s.board[m.to];
    var king := s.board[m.from];
    var kingSquare, rookSquare := m.from + KingShift(m), m.to + RookShift(m);
    var s1 := UpdateLocation(UpdateLocation(s.(board := CastleBoard(s.board, m)), king, kingSquare), rook, rookSquare);
    s1.(history := Increment(Increment(s.history, kingSquare), rookSquare))
  }

  // ---------------------------------------------------------------------
  // movePiece and undoMove

  /** movePiece: a castle move is handed to applyCastleMove; any other move
      moves the king cache with the mover, counts a landing on `to`, puts
      the mover (or the promotion piece) on `to`, empties `from` and pushes
      the piece it replaced. Either way the move is logged and the turn
      passes. */
  function MovePiece(s: State, m: Move): (r: State)
    requires WellFormed(s) && Applicable(s, m)
    ensures WellFormed(r)
    ensures r.moves == s.moves + [m] && r.turn == Opponent(s.turn)
    ensures !IsCastleMove(s.board, m) ==>
      && m.from != m.to
      && r.board[m.to] == (if m.promotion.Some? then m.promotion.value else s.board[m.from])
      && r.board[m.from] == EMPTY
      && (forall square :: 0 <= square < 64 && square != m.from && square != m.to ==>
            r.board[square] == s.board[square])
      && r.removed == s.removed + [s.board[m.to]]
      && r.history == Increment(s.history, m.to)
  {
    if IsCastleMove(s.board, m) then
      var t := ApplyCastle(s, m);
      t.(moves := t.moves + [m], turn := Opponent(t.turn))
    else
      var target := s.board[m.to];
      var attacker := s.board[m.from];
      var s1 := UpdateLocation(s, attacker, m.to);
      var placed := s.board[m.to := attacker][m.from := EMPTY];
      var board := if m.promotion.Some? then placed[m.to := m.promotion.value] else placed;
      s1.(history := Increment(s.history, m.to), board := board,
          removed := s.removed + [target], moves := s.moves + [m], turn := Opponent(s.turn))
  }

  /** The pawn undoPawnPromotion puts back, as evidently intended: one of
      the promoted piece's colour. */
  function RestoredPawn(promoted: int): (pawn: int)
    ensures Abs(pawn) == PAWN
    ensures ColorOf(pawn) == (if ColorOf(promoted) == White then White else Black)
  {
    if promoted > 0 then WHITE_PAWN else BLACK_PAWN
  }

  /** undoPawnPromotion as written: it tests whether the promoted piece on
      `from` is a white pawn, which it never is after a promotion to another
      piece, and so puts back a black pawn. */
  function RestoredPawnAsWritten(promoted: int): int {
    if promoted == WHITE_PAWN then WHITE_PAWN else BLACK_PAWN
  }

  /** The source pops undefined from an empty capture stack; the model asks
      for a non-empty one where undoMove pops. */
  predicate Undoable(s: State, m: Move)
    requires WellFormed(s) && MoveOnBoard(m)
  {
    s.board[m.from] == EMPTY ==> |s.removed| > 0
  }

  /** undoMove without its promotion step: the piece on `to` goes back to
      `from`, and `to` gets the piece on `from` when there is one (the source
      takes that for a castle) or else the top of the capture stack; both
      caches follow their pieces, the landing count on `to` drops, the log
      loses its last move (pop on an empty log does nothing) and the turn
      passes. */
  function UndoBoardMove(s: State, m: Move): (r: State)
    requires WellFormed(s) && MoveOnBoard(m) && Undoable(s, m)
    ensures WellFormed(r)
    ensures r.turn == Opponent(s.turn)
    ensures r.board[m.to] == (if s.board[m.from] == EMPTY then s.removed[|s.removed| - 1] else s.board[m.from])
    ensures m.from != m.to ==> r.board[m.from] == s.board[m.to]
    ensures forall square :: 0 <= square < 64 && square != m.from && square != m.to ==>
      r.board[square] == s.board[square]
    ensures |r.moves| == if |s.moves| == 0 then 0 else |s.moves| - 1
  {
    var attacker := s.board[m.to];
    var fromPiece := s.board[m.from];
    var target := if fromPiece == EMPTY then s.removed[|s.removed| - 1] else fromPiece;
    var removed := if fromPiece == EMPTY then s.removed[..|s.removed| - 1] else s.removed;
    var board := s.board[m.from := attacker][m.to := target];
    var s1 := UpdateLocation(UpdateLocation(s.(board := board, removed := removed), attacker, m.from), target, m.to);
    s1.(history := Decrement(s.history, m.to),
        moves := if |s.moves| == 0 then s.moves else s.moves[..|s.moves| - 1],
        turn := Opponent(s.turn))
  }

  /** undoMove, with undoPawnPromotion as evidently intended. */
  function UndoMove(s: State, m: Move): (r: State)
    requires WellFormed(s) && MoveOnBoard(m) && Undoable(s, m)
    ensures WellFormed(r)
    ensures m.promotion.Some? && m.from != m.to ==> r.board[m.from] == RestoredPawn(s.board[m.to])
  {
    var t := UndoBoardMove(s, m);
    if m.promotion.Some? then t.(board := t.board[m.from := RestoredPawn(t.board[m.from])]) else t
  }

  /** undoMove in the order the class makes its changes: the two squares,
      the king caches, the landing count, the promotion, the log, the turn. */
  lemma UndoMoveInSteps(s: State, m: Move)
    requires WellFormed(s) && MoveOnBoard(m) && Undoable(s, m)
    ensures var attacker := s.board[m.to];
      var target := if s.board[m.from] == EMPTY then s.removed[|s.removed| - 1] else s.board[m.from];
      var removed := if s.board[m.from] == EMPTY then s.removed[..|s.removed| - 1] else s.removed;
      var s0 := s.(board := s.board[m.from := attacker][m.to := target], removed := removed);
      var s1 := UpdateLocation(UpdateLocation(s0, attacker, m.from), target, m.to);
      var s2 := s1.(history := Decrement(s1.history, m.to));
      var s3 := if m.promotion.Some? then s2.(board := s2.board[m.from := RestoredPawn(s2.board[m.from])]) else s2;
      var s4 := s3.(moves := if |s3.moves| > 0 then s3.moves[..|s3.moves| - 1] else s3.moves);
      UndoMove(s, m) == s4.(turn := Opponent(s4.turn))
  {
    var attacker := s.board[m.to];
    var target := if s.board[m.from] == EMPTY then s.removed[|s.removed| - 1] else s.board[m.from];
    var removed := if s.board[m.from] == EMPTY then s.removed[..|s.removed| - 1] else s.removed;
    var s0 := s.(board := s.board[m.from := attacker][m.to := target], removed := removed);
    var s1 := UpdateLocation(UpdateLocation(s0, attacker, m.from), target, m.to);
    assert s1.history == s.history && s1.moves == s.moves && s1.turn == s.turn && s1.board == s0.board;
    var t := UndoBoardMove(s, m);
    assert t == s1.(history := Decrement(s.history, m.to),
        moves := if |s.moves| == 0 then s.moves else s.moves[..|s.moves| - 1], turn := Opponent(s.turn));
  }

  /** undoMove with undoPawnPromotion as written. */
  function UndoMoveAsWritten(s: State, m: Move): (r: State)
    requires WellFormed(s) && MoveOnBoard(m) && Undoable(s, m)
    ensures WellFormed(r)
  {
    var t := UndoBoardMove(s, m);
    if m.promotion.Some? then t.(board := t.board[m.from := RestoredPawnAsWritten(t.board[m.from])]) else t
  }

  /** A square whose piece, if it is a king, is where its cache says. */
  predicate Tracks(s: State, square: int)
    requires WellFormed(s) && IsValidLocation(square)
  {
    && (s.board[square] == WHITE_KING ==> s.whiteKing == square)
    && (s.board[square] == BLACK_KING ==> s.blackKing == square)
  }

  /** No king stands anywhere but where its cache says. */
  predicate CachesTrack(s: State)
    requires WellFormed(s)
  {
    forall square :: 0 <= square < 64 ==> Tracks(s, square)
  }

  /** Both caches hold their kings, and no other square holds a king. */
  predicate KingsConsistent(s: State)
    requires WellFormed(s)
  {
    s.board[s.whiteKing] == WHITE_KING && s.board[s.blackKing] == BLACK_KING && CachesTrack(s)
  }

  /** With consistent caches the castle disjunct of isValidKingMove never
      fires inside isInCheck: the square asked about holds a king, and the
      castle guard wants a rook there. So check detection may use the
      dispatch without it. */
  lemma CheckIgnoresCastling(s: State, c: Side, from: int)
    requires WellFormed(s) && KingsConsistent(s) && IsValidLocation(from)
    ensures !CastleGuard(s.board, s.history, from, KingLocation(s, c))
  {
    CastleGuardNeedsRook(s.board, s.history, from, KingLocation(s, c));
  }

  /** The moves movePiece followed by undoMove takes back: not a castle
      move, a promotion only from a pawn of the promotion piece's colour
      and not to a king code, and any king on the two squares where its
      cache says. */
  predicate Restorable(s: State, m: Move)
  {
    && WellFormed(s) && MoveOnBoard(m)
    && !IsCastleMove(s.board, m)
    && (m.promotion.Some? ==>
          s.board[m.from] == RestoredPawn(m.promotion.value) && !IsKingCode(m.promotion.value))
    && Tracks(s, m.from) && Tracks(s, m.to)
  }

  /** undoMove takes back movePiece: the board, both king squares, the
      landing counts, the capture stack, the move log and the turn all come
      back, promotion included once undoPawnPromotion restores the pawn of
      the promoted piece's colour. */
  lemma MoveThenUndo(s: State, m: Move)
    requires Restorable(s, m)
    ensures Undoable(MovePiece(s, m), m)
    ensures UndoMove(MovePiece(s, m), m) == s
  {
    var t := MovePiece(s, m);
    var u := UndoMove(t, m);
    assert t.board[m.from] == EMPTY;
    assert u.board == s.board;
    assert u.history == s.history;
    assert t.removed[..|t.removed| - 1] == s.removed;
    assert t.moves[..|t.moves| - 1] == s.moves;
  }

  /** A move undoMove takes back is one movePiece can make. */
  lemma RestorableApplicable(s: State, m: Move)
    requires Restorable(s, m)
    ensures Applicable(s, m) && !IsCastleMove(s.board, m)
  {
  }

  /** isInCheckAfterMove leaves the board as it found it on every move
      undoMove takes back. */
  lemma ProbeRestores(s: State, m: Move)
    requires Restorable(s, m)
    ensures Applicable(s, m) && AfterProbe(s, m) == s
  {
    MoveThenUndo(s, m);
  }

  /** A non-castle move whose promotion, if any, is not a king keeps every
      king where its cache says. */
  lemma MovePieceKeepsCachesTrack(s: State, m: Move)
    requires WellFormed(s) && CachesTrack(s) && Applicable(s, m) && !IsCastleMove(s.board, m)
    requires m.promotion.Some? ==> !IsKingCode(m.promotion.value)
    ensures CachesTrack(MovePiece(s, m))
  {
    var t := MovePiece(s, m);
    var mover := s.board[m.from];
    assert t.whiteKing == if mover == WHITE_KING then m.to else s.whiteKing;
    assert t.blackKing == if mover == BLACK_KING then m.to else s.blackKing;
    assert Tracks(s, m.from);
    forall square | 0 <= square < 64 ensures Tracks(t, square) {
      assert Tracks(s, square);
    }
  }

  /** A castle between two different squares keeps every king where its
      cache says: a king on either square lands with its cache. */
  lemma ApplyCastleKeepsCachesTrack(s: State, m: Move)
    requires WellFormed(s) && CachesTrack(s) && MoveOnBoard(m) && CastleLandsOnBoard(m)
    requires m.from != m.to
    ensures CachesTrack(ApplyCastle(s, m))
  {
    var t := ApplyCastle(s, m);
    assert Tracks(s, m.from) && Tracks(s, m.to);
    forall square | 0 <= square < 64 ensures Tracks(t, square) {
      assert Tracks(s, square);
    }
  }

  /** As written, undoing a promotion to anything but a white pawn leaves a
      black pawn on `from`, whatever colour the promoted pawn was. */
  lemma UndoPromotionAsWrittenLeavesBlackPawn(s: State, m: Move)
    requires WellFormed(s) && Applicable(s, m) && !IsCastleMove(s.board, m)
    requires m.promotion.Some? && m.promotion.value != WHITE_PAWN
    ensures Undoable(MovePiece(s, m), m)
    ensures UndoMoveAsWritten(MovePiece(s, m), m).board[m.from] == BLACK_PAWN
  {
  }

  /** The smallest instance: a white pawn on 8 promoting to a queen on the
      empty square 0 comes back as a black pawn. */
  lemma WhitePromotionUndoneAsBlackPawn(s: State)
    requires WellFormed(s) && s.board[8] == WHITE_PAWN && s.board[0] == EMPTY
    ensures var m := Move(8, 0, Some(QUEEN));
      && Applicable(s, m) && Undoable(MovePiece(s, m), m)
      && UndoMoveAsWritten(MovePiece(s, m), m).board[8] == BLACK_PAWN
      && UndoMove(MovePiece(s, m), m).board[8] == WHITE_PAWN
  {
    var m := Move(8, 0, Some(QUEEN));
    UndoPromotionAsWrittenLeavesBlackPawn(s, m);
  }

  // ---------------------------------------------------------------------
  // promotePawn and needsPawnPromotion

  /** promotePawn: the last logged move gets the promotion piece, which is
      put on its destination. The source dereferences the last move of an
      empty log and throws; the model returns None. */
  function PromotePawn(s: State, piece: int): (r: Option<State>)
    requires WellFormed(s)
    ensures r.None? <==> |s.moves| == 0
    ensures r.Some? ==>
      var last := s.moves[|s.moves| - 1];
      && WellFormed(r.value)
      && r.value.moves == s.moves[..|s.moves| - 1] + [last.(promotion := Some(piece))]
      && r.value.board == s.board[last.to := piece]
      && r.value.removed == s.removed && r.value.history == s.history && r.value.turn == s.turn
      && r.value.whiteKing == s.whiteKing && r.value.blackKing == s.blackKing
  {
    if |s.moves| == 0 then None
    else
      var last := s.moves[|s.moves| - 1];
      var promoted := last.(promotion := Some(piece));
      Some(s.(moves := s.moves[|s.moves| - 1 := promoted], board := s.board[last.to := piece]))
  }

  /** Moving a pawn and then promoting it is the move with the promotion
      given up front. */
  lemma PromoteAfterMove(s: State, m: Move, piece: int)
    requires WellFormed(s) && Applicable(s, m) && !IsCastleMove(s.board, m) && m.promotion.None?
    ensures PromotePawn(MovePiece(s, m), piece) == Some(MovePiece(s, m.(promotion := Some(piece))))
  {
    var t := MovePiece(s, m);
    var u := MovePiece(s, m.(promotion := Some(piece)));
    assert t.moves[..|t.moves| - 1] == s.moves;
    assert PromotePawn(t, piece).value.board == u.board;
  }

  /** So undoMove of the promoted log entry takes the whole sequence back. */
  lemma PromoteThenUndo(s: State, m: Move, piece: int)
    requires Restorable(s, m) && m.promotion.None?
    requires s.board[m.from] == RestoredPawn(piece) && !IsKingCode(piece)
    ensures var t := PromotePawn(MovePiece(s, m), piece).value;
      Undoable(t, t.moves[|t.moves| - 1]) && UndoMove(t, t.moves[|t.moves| - 1]) == s
  {
    var promoted := m.(promotion := Some(piece));
    PromoteAfterMove(s, m, piece);
    MoveThenUndo(s, promoted);
  }

  /** needsPawnPromotion */
  predicate NeedsPawnPromotion(b: seq<int>, m: Move)
    requires |b| == 64 && IsValidLocation(m.to)
  {
    m.promotion.None? && ((IsWhitePawn(b, m.to) && m.to < 8) || (IsBlackPawn(b, m.to) && m.to > 55))
  }

  /** A pawn move without promotion needs one exactly when the pawn lands
      on the last row of its direction: row 0 for White, row 7 for Black. */
  lemma NeedsPawnPromotionMeaning(s: State, m: Move)
    requires WellFormed(s) && Applicable(s, m) && !IsCastleMove(s.board, m) && m.promotion.None?
    requires Abs(s.board[m.from]) == PAWN
    ensures NeedsPawnPromotion(MovePiece(s, m).board, m) <==>
      (if ColorOf(s.board[m.from]) == White then IsInFirstRow(m.to) else IsInLastRow(m.to))
  {
  }

  /** After promotePawn the logged move no longer needs a promotion. */
  lemma PromotedMoveNeedsNone(s: State, piece: int)
    requires WellFormed(s) && |s.moves| > 0
    ensures var t := PromotePawn(s, piece).value;
      !NeedsPawnPromotion(t.board, t.moves[|t.moves| - 1]) && t.board[t.moves[|t.moves| - 1].to] == piece
  {
  }

  // ---------------------------------------------------------------------
  // Check and legality

  /** isInCheck(color) */
  predicate InCheck(s: State, c: Side)
    requires WellFormed(s)
  {
    InCheckAt(s.board, KingLocation(s, c))
  }

  /** isInCheckAfterMove: whether the side to move is in check once the move
      is made. */
  predicate InCheckAfterMove(s: State, m: Move)
    requires WellFormed(s) && Applicable(s, m)
  {
    InCheck(MovePiece(s, m), s.turn)
  }

  predicate AllApplicable(s: State, ms: seq<Move>)
    requires WellFormed(s)
  {
    forall m :: m in ms ==> Applicable(s, m)
  }

  /** The moves of ms that keep admits, in their order. */
  function Keep(ms: seq<Move>, keep: Move -> bool): (r: seq<Move>)
    ensures |r| <= |ms|
  {
    if ms == [] then []
    else
      var last := ms[|ms| - 1];
      Keep(ms[..|ms| - 1], keep) + (if keep(last) then [last] else [])
  }

  /** An order-preserving subsequence. */
  predicate IsSubsequence<T(==)>(xs: seq<T>, ys: seq<T>)
    decreases |ys|
  {
    if ys == [] then xs == []
    else
      || IsSubsequence(xs, ys[..|ys| - 1])
      || (xs != [] && xs[|xs| - 1] == ys[|ys| - 1] && IsSubsequence(xs[..|xs| - 1], ys[..|ys| - 1]))
  }

  lemma SubsequenceExtend<T>(xs: seq<T>, ys: seq<T>, y: T)
    requires IsSubsequence(xs, ys)
    ensures IsSubsequence(xs, ys + [y]) && IsSubsequence(xs + [y], ys + [y])
  {
    assert (ys + [y])[..|ys|] == ys;
    assert (xs + [y])[..|xs|] == xs;
  }

  lemma {:induction false} KeepSubsequence(ms: seq<Move>, keep: Move -> bool)
    ensures IsSubsequence(Keep(ms, keep), ms)
  {
    if ms != [] {
      var init := ms[..|ms| - 1];
      var last := ms[|ms| - 1];
      KeepSubsequence(init, keep);
      SubsequenceExtend(Keep(init, keep), init, last);
      assert init + [last] == ms;
      if !keep(last) {
        assert Keep(init, keep) + [] == Keep(init, keep);
      }
    }
  }

  lemma {:induction false} KeepMembers(ms: seq<Move>, keep: Move -> bool, m: Move)
    ensures m in Keep(ms, keep) <==> m in ms && keep(m)
  {
    if ms != [] {
      var init := ms[..|ms| - 1];
      KeepMembers(init, keep, m);
      assert ms == init + [ms[|ms| - 1]];
    }
  }

  lemma KeepAdmitted(ms: seq<Move>, keep: Move -> bool)
    ensures forall m :: m in Keep(ms, keep) ==> m in ms && keep(m)
  {
    forall m | m in Keep(ms, keep) ensures m in ms && keep(m) {
      KeepMembers(ms, keep, m);
    }
  }

  lemma {:induction false} KeepAppend(xs: seq<Move>, ys: seq<Move>, keep: Move -> bool)
    ensures Keep(xs + ys, keep) == Keep(xs, keep) + Keep(ys, keep)
    decreases |ys|
  {
    if ys == [] {
      assert xs + ys == xs;
    } else {
      var init := ys[..|ys| - 1];
      var last := ys[|ys| - 1];
      var tail := if keep(last) then [last] else [];
      KeepAppend(xs, init, keep);
      assert (xs + ys)[..|xs + ys| - 1] == xs + init;
      assert (xs + ys)[|xs + ys| - 1] == last;
      calc {
        Keep(xs + ys, keep);
        Keep(xs + init, keep) + tail;
        (Keep(xs, keep) + Keep(init, keep)) + tail;
        Keep(xs, keep) + (Keep(init, keep) + tail);
        Keep(xs, keep) + Keep(ys, keep);
      }
    }
  }

  lemma {:induction false} KeepIdempotent(ms: seq<Move>, keep: Move -> bool)
    ensures Keep(Keep(ms, keep), keep) == Keep(ms, keep)
  {
    if ms != [] {
      var init := ms[..|ms| - 1];
      var last := ms[|ms| - 1];
      KeepIdempotent(init, keep);
      var tail := if keep(last) then [last] else [];
      KeepAppend(Keep(init, keep), tail, keep);
      if tail != [] {
        assert tail[..0] == [];
      }
    }
  }

  /** The test removeIllegalMoves applies to each move. */
  function Legal(s: State): Move -> bool
    requires WellFormed(s)
  {
    m => Applicable(s, m) && !InCheckAfterMove(s, m)
  }

  /** removeIllegalMoves: the moves after which the side to move is not in
      check, in their order. */
  function FilterLegal(s: State, ms: seq<Move>): (r: seq<Move>)
    requires WellFormed(s) && AllApplicable(s, ms)
    ensures |r| <= |ms|
    ensures AllApplicable(s, r)
  {
    KeepAdmitted(ms, Legal(s));
    Keep(ms, Legal(s))
  }

  /** One iteration of the loop of removeIllegalMoves. */
  lemma FilterLegalStep(s: State, ms: seq<Move>, i: nat)
    requires WellFormed(s) && AllApplicable(s, ms) && i < |ms|
    ensures AllApplicable(s, ms[..i]) && AllApplicable(s, ms[..i + 1])
    ensures FilterLegal(s, ms[..i + 1]) ==
      FilterLegal(s, ms[..i]) + (if InCheckAfterMove(s, ms[i]) then [] else [ms[i]])
  {
    assert forall m :: m in ms[..i + 1] ==> m in ms;
    assert forall m :: m in ms[..i] ==> m in ms;
    var prefix := ms[..i + 1];
    assert prefix[..|prefix| - 1] == ms[..i] && prefix[|prefix| - 1] == ms[i];
    assert Keep(prefix, Legal(s)) == Keep(ms[..i], Legal(s)) + (if Legal(s)(ms[i]) then [ms[i]] else []);
    assert Legal(s)(ms[i]) == !InCheckAfterMove(s, ms[i]);
  }

  /** Every move of the list is one undoMove takes back. */
  predicate AllRestorable(s: State, ms: seq<Move>) {
    forall m :: m in ms ==> Restorable(s, m)
  }

  lemma RestorableAllApplicable(s: State, ms: seq<Move>)
    requires WellFormed(s) && AllRestorable(s, ms)
    ensures AllApplicable(s, ms)
  {
    forall m | m in ms ensures Applicable(s, m) {
      RestorableApplicable(s, m);
    }
  }

  /** One iteration of removeIllegalMoves over moves undoMove takes back:
      the probe of the i-th move leaves the state as it was, and the kept
      list grows by that move exactly when it leaves the mover out of
      check. */
  lemma FilterLegalProbeStep(s: State, ms: seq<Move>, i: nat)
    requires WellFormed(s) && AllRestorable(s, ms) && i < |ms|
    ensures AllApplicable(s, ms) && AllApplicable(s, ms[..i]) && AllApplicable(s, ms[..i + 1])
    ensures Restorable(s, ms[i]) && Applicable(s, ms[i]) && !IsCastleMove(s.board, ms[i])
    ensures AfterProbe(s, ms[i]) == s
    ensures FilterLegal(s, ms[..i + 1]) ==
      FilterLegal(s, ms[..i]) + (if InCheckAfterMove(s, ms[i]) then [] else [ms[i]])
  {
    RestorableAllApplicable(s, ms);
    assert ms[i] in ms;
    ProbeRestores(s, ms[i]);
    FilterLegalStep(s, ms, i);
  }

  /** removeIllegalMoves keeps its input's order: its output is a
      subsequence of the input. */
  lemma FilterLegalSubsequence(s: State, ms: seq<Move>)
    requires WellFormed(s) && AllApplicable(s, ms)
    ensures IsSubsequence(FilterLegal(s, ms), ms)
  {
    KeepSubsequence(ms, Legal(s));
  }

  /** removeIllegalMoves keeps exactly the moves after which the side to
      move is not in check. */
  lemma FilterLegalMembers(s: State, ms: seq<Move>, m: Move)
    requires WellFormed(s) && AllApplicable(s, ms)
    ensures m in FilterLegal(s, ms) <==> m in ms && !InCheckAfterMove(s, m)
  {
    KeepMembers(ms, Legal(s), m);
  }

  /** removeIllegalMoves distributes over concatenation, so the queen's
      two filtered lists are the filter of the joined list. */
  lemma FilterLegalAppend(s: State, xs: seq<Move>, ys: seq<Move>)
    requires WellFormed(s) && AllApplicable(s, xs) && AllApplicable(s, ys)
    ensures AllApplicable(s, xs + ys)
    ensures FilterLegal(s, xs + ys) == FilterLegal(s, xs) + FilterLegal(s, ys)
  {
    KeepAppend(xs, ys, Legal(s));
  }

  /** removeIllegalMoves is idempotent, so filtering the generators' already
      filtered lists again in getAllMoves changes nothing. */
  lemma FilterLegalIdempotent(s: State, ms: seq<Move>)
    requires WellFormed(s) && AllApplicable(s, ms)
    ensures FilterLegal(s, FilterLegal(s, ms)) == FilterLegal(s, ms)
  {
    KeepIdempotent(ms, Legal(s));
  }

  // ---------------------------------------------------------------------
  // Generators after filtering, getAllMoves, checkmate and stalemate

  lemma CandidatesApplicable(s: State, from: int, ms: seq<Move>)
    requires WellFormed(s) && IsValidLocation(from)
    requires forall m :: m in ms ==> IsCandidateFrom(s.board, from, m)
    ensures AllApplicable(s, ms)
    ensures forall m :: m in ms ==> !IsCastleMove(s.board, m)
  {
  }

  lemma GeneratorsApplicable(s: State, from: int)
    requires WellFormed(s) && IsValidLocation(from)
    ensures s.board[from] != EMPTY ==>
      && AllApplicable(s, PawnMoves(s.board, from)) && AllApplicable(s, RookMoves(s.board, from))
      && AllApplicable(s, KnightMoves(s.board, from)) && AllApplicable(s, BishopMoves(s.board, from))
      && AllApplicable(s, KingMoves(s.board, from)) && AllApplicable(s, PieceMoves(s.board, from))
  {
    if s.board[from] != EMPTY {
      GeneratorCandidates(s.board, from);
      PieceMovesCandidates(s.board, from);
      CandidatesApplicable(s, from, PawnMoves(s.board, from));
      CandidatesApplicable(s, from, RookMoves(s.board, from));
      CandidatesApplicable(s, from, KnightMoves(s.board, from));
      CandidatesApplicable(s, from, BishopMoves(s.board, from));
      CandidatesApplicable(s, from, KingMoves(s.board, from));
      CandidatesApplicable(s, from, PieceMoves(s.board, from));
    }
  }

  /** getMovesForPieceAt: each generator filters its own list; the queen's
      is the filtered bishop list followed by the filtered rook list. */
  function LegalPieceMoves(s: State, from: int): (r: seq<Move>)
    requires WellFormed(s) && IsValidLocation(from)
    ensures AllApplicable(s, r)
    ensures s.board[from] != EMPTY ==> AllApplicable(s, PieceMoves(s.board, from))
  {
    GeneratorsApplicable(s, from);
    var kind := Abs(s.board[from]);
    if kind == PAWN then FilterLegal(s, PawnMoves(s.board, from))
    else if kind == ROOK then FilterLegal(s, RookMoves(s.board, from))
    else if kind == KNIGHT then FilterLegal(s, KnightMoves(s.board, from))
    else if kind == BISHOP then FilterLegal(s, BishopMoves(s.board, from))
    else if kind == QUEEN then FilterLegal(s, BishopMoves(s.board, from)) + FilterLegal(s, RookMoves(s.board, from))
    else if kind == KING then FilterLegal(s, KingMoves(s.board, from))
    else []
  }

  /** What getMovesForPieceAt returns is the filter of the dispatched
      candidate list. */
  lemma LegalPieceMovesFiltered(s: State, from: int)
    requires WellFormed(s) && IsValidLocation(from) && s.board[from] != EMPTY
    ensures AllApplicable(s, PieceMoves(s.board, from))
    ensures LegalPieceMoves(s, from) == FilterLegal(s, PieceMoves(s.board, from))
  {
    GeneratorsApplicable(s, from);
    var b, kind := s.board, Abs(s.board[from]);
    if kind == QUEEN {
      FilterLegalAppend(s, BishopMoves(b, from), RookMoves(b, from));
      assert PieceMoves(b, from) == BishopMoves(b, from) + RookMoves(b, from);
    } else if kind == PAWN {
      assert PieceMoves(b, from) == PawnMoves(b, from);
    } else if kind == ROOK {
      assert PieceMoves(b, from) == RookMoves(b, from);
    } else if kind == KNIGHT {
      assert PieceMoves(b, from) == KnightMoves(b, from);
    } else if kind == BISHOP {
      assert PieceMoves(b, from) == BishopMoves(b, from);
    } else if kind == KING {
      assert PieceMoves(b, from) == KingMoves(b, from);
    } else {
      assert PieceMoves(b, from) == [];
    }
  }

  /** getValidMovesForPieceAt: the filtered moves of a piece of the side to
      move, and none for any other square. Its second filter removes
      nothing the generator's own filter kept. */
  function ValidMovesForPieceAt(s: State, from: int): (r: seq<Move>)
    requires WellFormed(s) && IsValidLocation(from)
    ensures ColorOf(s.board[from]) != s.turn ==> r == []
    ensures ColorOf(s.board[from]) == s.turn ==> r == LegalPieceMoves(s, from)
    ensures AllApplicable(s, r)
  {
    if ColorOf(s.board[from]) == s.turn then
      LegalPieceMovesFiltered(s, from);
      FilterLegalIdempotent(s, PieceMoves(s.board, from));
      FilterLegal(s, LegalPieceMoves(s, from))
    else []
  }

  /** The forEach of getAllMoves over the first n squares. */
  function CollectedMoves(s: State, n: nat): (r: seq<Move>)
    requires WellFormed(s) && n <= 64
    ensures AllApplicable(s, r)
  {
    if n == 0 then []
    else
      var rest := CollectedMoves(s, n - 1);
      var own := if ColorOf(s.board[n - 1]) == s.turn then LegalPieceMoves(s, n - 1) else [];
      FilterLegalAppend(s, rest, own);
      rest + own
  }

  /** getAllMoves */
  function AllMoves(s: State): (r: seq<Move>)
    requires WellFormed(s)
    ensures AllApplicable(s, r)
  {
    FilterLegal(s, CollectedMoves(s, 64))
  }

  lemma {:induction false} CollectedMovesFiltered(s: State, n: nat)
    requires WellFormed(s) && n <= 64
    ensures FilterLegal(s, CollectedMoves(s, n)) == CollectedMoves(s, n)
  {
    if n > 0 {
      var rest := CollectedMoves(s, n - 1);
      var own := if ColorOf(s.board[n - 1]) == s.turn then LegalPieceMoves(s, n - 1) else [];
      CollectedMovesFiltered(s, n - 1);
      FilterLegalAppend(s, rest, own);
      if own != [] {
        LegalPieceMovesFiltered(s, n - 1);
        FilterLegalIdempotent(s, PieceMoves(s.board, n - 1));
      }
    }
  }

  /** A candidate of a piece of the side to move after which that side is
      not in check. */
  predicate LegalCandidate(s: State, from: int, m: Move)
    requires WellFormed(s)
  {
    && IsValidLocation(from) && ColorOf(s.board[from]) == s.turn
    && m in PieceMoves(s.board, from) && Applicable(s, m) && !InCheckAfterMove(s, m)
  }

  lemma LegalPieceMovesMembers(s: State, from: int, m: Move)
    requires WellFormed(s) && IsValidLocation(from) && ColorOf(s.board[from]) == s.turn
    ensures m in LegalPieceMoves(s, from) <==> LegalCandidate(s, from, m)
  {
    LegalPieceMovesFiltered(s, from);
    FilterLegalMembers(s, PieceMoves(s.board, from), m);
  }

  /** A move is collected from the first n squares exactly when it is a
      legal candidate of a piece of the side to move on one of them. */
  lemma {:induction false} CollectedMovesMembers(s: State, n: nat, m: Move)
    requires WellFormed(s) && n <= 64
    ensures m in CollectedMoves(s, n) <==> exists from :: 0 <= from < n && LegalCandidate(s, from, m)
  {
    if n > 0 {
      var from := n - 1;
      var rest := CollectedMoves(s, n - 1);
      var own := if ColorOf(s.board[from]) == s.turn then LegalPieceMoves(s, from) else [];
      assert CollectedMoves(s, n) == rest + own;
      CollectedMovesMembers(s, n - 1, m);
      if ColorOf(s.board[from]) == s.turn {
        LegalPieceMovesMembers(s, from, m);
      }
      assert m in own <==> LegalCandidate(s, from, m);
      if m in CollectedMoves(s, n) {
        if m in rest {
          var f :| 0 <= f < n - 1 && LegalCandidate(s, f, m);
        }
      } else {
        assert m !in rest && m !in own;
        forall f | 0 <= f < n ensures !LegalCandidate(s, f, m) {
          if f == from {
            assert m !in own;
          }
        }
      }
    }
  }

  /** getAllMoves returns the legal moves of the side to move: the candidate
      moves of its pieces after which it is not in check, and no others. */
  lemma AllMovesMeaning(s: State, m: Move)
    requires WellFormed(s)
    ensures m in AllMoves(s) <==> exists from :: LegalCandidate(s, from, m)
  {
    CollectedMovesFiltered(s, 64);
    CollectedMovesMembers(s, 64, m);
  }

  /** isCheckmate */
  predicate Checkmate(s: State)
    requires WellFormed(s)
  {
    if InCheck(s, s.turn) then |AllMoves(s)| == 0 else false
  }

  /** isStalemate */
  predicate Stalemate(s: State)
    requires WellFormed(s)
  {
    if InCheck(s, s.turn) then false else |AllMoves(s)| == 0
  }

  /** Checkmate and stalemate exclude each other, and together they are
      exactly the positions where the side to move has no legal move. */
  lemma GameEndCases(s: State)
    requires WellFormed(s)
    ensures !(Checkmate(s) && Stalemate(s))
    ensures Checkmate(s) || Stalemate(s) <==> |AllMoves(s)| == 0
  {
  }

  /** Every candidate a generator offers from an occupied square is a move
      movePiece and undoMove take back, once the caches track the kings. */
  lemma CandidatesRestorable(s: State, from: int, ms: seq<Move>)
    requires WellFormed(s) && CachesTrack(s) && IsValidLocation(from)
    requires forall m :: m in ms ==> IsCandidateFrom(s.board, from, m)
    ensures forall m :: m in ms ==> Restorable(s, m)
  {
  }

  lemma GeneratorsRestorable(s: State, from: int)
    requires WellFormed(s) && CachesTrack(s) && IsValidLocation(from) && s.board[from] != EMPTY
    ensures forall m :: m in PawnMoves(s.board, from) ==> Restorable(s, m)
    ensures forall m :: m in RookMoves(s.board, from) ==> Restorable(s, m)
    ensures forall m :: m in KnightMoves(s.board, from) ==> Restorable(s, m)
    ensures forall m :: m in BishopMoves(s.board, from) ==> Restorable(s, m)
    ensures forall m :: m in KingMoves(s.board, from) ==> Restorable(s, m)
    ensures forall m :: m in PieceMoves(s.board, from) ==> Restorable(s, m)
  {
    GeneratorCandidates(s.board, from);
    PieceMovesCandidates(s.board, from);
    CandidatesRestorable(s, from, PawnMoves(s.board, from));
    CandidatesRestorable(s, from, RookMoves(s.board, from));
    CandidatesRestorable(s, from, KnightMoves(s.board, from));
    CandidatesRestorable(s, from, BishopMoves(s.board, from));
    CandidatesRestorable(s, from, KingMoves(s.board, from));
    CandidatesRestorable(s, from, PieceMoves(s.board, from));
  }

  lemma KingMovesRestorable(s: State, from: int)
    requires WellFormed(s) && CachesTrack(s) && IsValidLocation(from) && s.board[from] != EMPTY
    ensures forall m :: m in KingMoves(s.board, from) ==> Restorable(s, m)
  {
    GeneratorsRestorable(s, from);
  }

  /** The moves getMovesForPieceAt returns, and those getAllMoves collects,
      are all taken back by undoMove. */
  lemma LegalPieceMovesRestorable(s: State, from: int)
    requires WellFormed(s) && CachesTrack(s) && IsValidLocation(from)
    ensures forall m :: m in LegalPieceMoves(s, from) ==> Restorable(s, m)
  {
    if s.board[from] != EMPTY {
      GeneratorsRestorable(s, from);
      LegalPieceMovesFiltered(s, from);
      forall m | m in LegalPieceMoves(s, from) ensures Restorable(s, m) {
        FilterLegalMembers(s, PieceMoves(s.board, from), m);
      }
    }
  }

  lemma {:induction false} CollectedMovesRestorable(s: State, n: nat)
    requires WellFormed(s) && CachesTrack(s) && n <= 64
    ensures forall m :: m in CollectedMoves(s, n) ==> Restorable(s, m)
  {
    if n > 0 {
      CollectedMovesRestorable(s, n - 1);
      LegalPieceMovesRestorable(s, n - 1);
    }
  }

  // ---------------------------------------------------------------------
  // isValidCastleMove, with its probe loop stopping before `to`

  /** The colour of a non-empty piece. */
  function SideOf(piece: int): (c: Side)
    ensures piece != EMPTY ==> c == ColorOf(piece)
  {
    if piece > 0 then White else Black
  }

  function CastleDirection(from: int, to: int): int {
    if to > from then 1 else -1
  }

  predicate Between(from: int, to: int, square: int) {
    (from < square < to) || (to < square < from)
  }

  /** The probes the king makes on its way are ordinary moves: every square
      strictly between holds no piece of its colour. */
  predicate ProbesNotCastle(s: State, from: int, to: int)
    requires WellFormed(s) && IsValidLocation(from) && IsValidLocation(to)
  {
    forall square :: 0 <= square < 64 && Between(from, to, square) ==> Sign(s.board[square]) != Sign(s.board[from])
  }

  /** The probe loop from `square` on: the king is moved to each following
      square short of `to`, and it must stand there out of check. */
  predicate CastleProbesFrom(s: State, from: int, to: int, square: int)
    requires WellFormed(s) && IsValidLocation(from) && IsValidLocation(to) && from != to
    requires square == from || Between(from, to, square)
    requires ProbesNotCastle(s, from, to)
    decreases Distance(square, to)
  {
    var next := square + CastleDirection(from, to);
    if next == to then true
    else !InCheckAfterMove(s, ChessMove(from, next)) && CastleProbesFrom(s, from, to, next)
  }

  /** One iteration of the probe loop: the next square is strictly between,
      the probe there is a move undoMove takes back, and the loop goes on
      from it exactly when the king stands there out of check. */
  lemma CastleProbeStep(s: State, from: int, to: int, square: int)
    requires WellFormed(s) && CachesTrack(s) && IsValidLocation(from) && IsValidLocation(to) && from != to
    requires square == from || Between(from, to, square)
    requires ProbesNotCastle(s, from, to)
    requires square + CastleDirection(from, to) != to
    ensures var next := square + CastleDirection(from, to);
      && Between(from, to, next) && Restorable(s, ChessMove(from, next))
      && Applicable(s, ChessMove(from, next)) && AfterProbe(s, ChessMove(from, next)) == s
      && CastleProbesFrom(s, from, to, square) ==
           (!InCheckAfterMove(s, ChessMove(from, next)) && CastleProbesFrom(s, from, to, next))
  {
    var next := square + CastleDirection(from, to);
    assert Tracks(s, from) && Tracks(s, next);
    ProbeRestores(s, ChessMove(from, next));
  }

  /** The king would stand out of check on every square strictly between
      `square` and `to`. */
  ghost predicate OutOfCheckOnTheWay(s: State, from: int, to: int, square: int)
    requires WellFormed(s) && IsValidLocation(from) && IsValidLocation(to) && from != to
    requires square == from || Between(from, to, square)
    requires ProbesNotCastle(s, from, to)
  {
    forall other :: Between(square, to, other) ==> !InCheckAfterMove(s, ChessMove(from, other))
  }

  /** The squares strictly between `square` and `to` are the next one and
      those after it. */
  lemma OutOfCheckOnTheWayStep(s: State, from: int, to: int, square: int)
    requires WellFormed(s) && IsValidLocation(from) && IsValidLocation(to) && from != to
    requires square == from || Between(from, to, square)
    requires ProbesNotCastle(s, from, to)
    ensures var next := square + CastleDirection(from, to);
      && (next == to ==> OutOfCheckOnTheWay(s, from, to, square))
      && (next != to ==>
            && Between(from, to, next)
            && OutOfCheckOnTheWay(s, from, to, square) ==
                 (!InCheckAfterMove(s, ChessMove(from, next)) && OutOfCheckOnTheWay(s, from, to, next)))
  {
    var next := square + CastleDirection(from, to);
    if next != to {
      assert forall other :: Between(square, to, other) <==> other == next || Between(next, to, other);
    }
  }

  lemma CastleProbesFromStep(s: State, from: int, to: int, square: int)
    requires WellFormed(s) && IsValidLocation(from) && IsValidLocation(to) && from != to
    requires square == from || Between(from, to, square)
    requires ProbesNotCastle(s, from, to)
    ensures var next := square + CastleDirection(from, to);
      && (next == to ==> CastleProbesFrom(s, from, to, square))
      && (next != to ==>
            && Between(from, to, next)
            && CastleProbesFrom(s, from, to, square) ==
                 (!InCheckAfterMove(s, ChessMove(from, next)) && CastleProbesFrom(s, from, to, next)))
  {
  }

  lemma {:induction false} CastleProbesOutOfCheck(s: State, from: int, to: int, square: int)
    requires WellFormed(s) && IsValidLocation(from) && IsValidLocation(to) && from != to
    requires square == from || Between(from, to, square)
    requires ProbesNotCastle(s, from, to)
    ensures CastleProbesFrom(s, from, to, square) <==> OutOfCheckOnTheWay(s, from, to, square)
    decreases Distance(square, to)
  {
    OutOfCheckOnTheWayStep(s, from, to, square);
    CastleProbesFromStep(s, from, to, square);
    var next := square + CastleDirection(from, to);
    if next != to {
      CastleProbesOutOfCheck(s, from, to, next);
    }
  }

  /** The probe loop passes exactly when the king would stand out of check on
      every square strictly between `square` and `to`. */
  lemma CastleProbesMeaning(s: State, from: int, to: int, square: int)
    requires WellFormed(s) && IsValidLocation(from) && IsValidLocation(to) && from != to
    requires square == from || Between(from, to, square)
    requires ProbesNotCastle(s, from, to)
    ensures CastleProbesFrom(s, from, to, square) <==>
      forall other :: Between(square, to, other) ==> !InCheckAfterMove(s, ChessMove(from, other))
  {
    CastleProbesOutOfCheck(s, from, to, square);
  }

  /** isValidCastleMove with the probe loop stopping before `to`: the guard,
      the king not in check, and the king out of check on every square it
      is moved to on the way. When a piece of the king's colour stands at
      an index strictly between (possible only off a common row, lemma
      SameRowCastleProbesNotCastle), a probe would itself be a castle; the
      model refuses the castle there instead of running it. */
  predicate CastleValid(s: State, from: int, to: int)
    requires WellFormed(s) && IsValidLocation(from) && IsValidLocation(to)
  {
    && CastleGuard(s.board, s.history, from, to)
    && ProbesNotCastle(s, from, to)
    && !InCheck(s, SideOf(s.board[from]))
    && CastleProbesFrom(s, from, to, from)
  }

  /** isValidKingMove: a step to an adjacent square that is not friendly,
      or a valid castle. */
  predicate KingMoveValid(s: State, from: int, to: int)
    requires WellFormed(s) && IsValidLocation(from) && IsValidLocation(to)
  {
    IsValidKingStep(s.board, from, to) || CastleValid(s, from, to)
  }

  /** isValidMove with its castle disjunct. */
  predicate MoveValid(s: State, from: int, to: int)
    requires WellFormed(s) && IsValidLocation(from) && IsValidLocation(to)
  {
    if Abs(s.board[from]) == KING then KingMoveValid(s, from, to) else IsValidMove(s.board, from, to)
  }

  /** A king can castle exactly with a rook of its own colour at the end of
      a clear path, neither yet landed on, no piece of its colour at an
      index in between, out of check, and out of check on every square in
      between; the two are then different squares. */
  lemma CastleValidMeaning(s: State, from: int, to: int)
    requires WellFormed(s) && IsValidLocation(from) && IsValidLocation(to)
    ensures CastleValid(s, from, to) ==> from != to
    ensures CastleValid(s, from, to) <==>
      && Abs(s.board[from]) == KING && Abs(s.board[to]) == ROOK
      && ColorOf(s.board[from]) == ColorOf(s.board[to])
      && s.history[from] <= 0 && s.history[to] <= 0
      && PathClear(s.board, from, to)
      && ProbesNotCastle(s, from, to)
      && !InCheck(s, SideOf(s.board[from]))
      && forall other :: Between(from, to, other) ==> !InCheckAfterMove(s, ChessMove(from, other))
  {
    if Abs(s.board[from]) == KING && Abs(s.board[to]) == ROOK && ProbesNotCastle(s, from, to) {
      CastleProbesMeaning(s, from, to, from);
    }
  }

  /** On a common row the guard's clear path is every square between the
      two, so it leaves no piece there: every probe is an ordinary move. */
  lemma SameRowCastleProbesNotCastle(s: State, from: int, to: int)
    requires WellFormed(s) && IsValidLocation(from) && IsValidLocation(to)
    requires CastleGuard(s.board, s.history, from, to) && Row(from) == Row(to)
    ensures ProbesNotCastle(s, from, to)
  {
    PathClearIffEmptyBetween(s.board, from, to);
    forall square | 0 <= square < 64 && Between(from, to, square)
      ensures s.board[square] == EMPTY
    {
      var k := Distance(from, square);
      assert PathSquare(from, to, k) == square;
    }
  }

  /** Off a common row a probe can be a castle: a king on 60 and a rook of
      its colour on 44 with 52 empty pass the guard, and a piece of theirs
      on 59, between the two indices but off the path, makes the first
      probe a move onto a friendly piece. */
  lemma OffRowProbeIsCastle(s: State)
    requires WellFormed(s)
    requires s.board[60] == WHITE_KING && s.board[44] == ROOK && s.board[52] == EMPTY
    requires s.board[59] == QUEEN && s.history[60] == 0 && s.history[44] == 0
    ensures CastleGuard(s.board, s.history, 60, 44)
    ensures IsCastleMove(s.board, ChessMove(60, 59)) && !ProbesNotCastle(s, 60, 44)
    ensures !CastleValid(s, 60, 44)
  {
    PathClearIffEmptyBetween(s.board, 60, 44);
    assert PathSquare(60, 44, 1) == 52;
  }

  /** Where the dispatch without castling and isValidMove disagree: only on
      a king and a rook of its colour, so never on the king square isInCheck
      asks about when the caches are consistent. */
  lemma MoveValidWithoutCastle(s: State, from: int, c: Side)
    requires WellFormed(s) && KingsConsistent(s) && IsValidLocation(from)
    ensures var king := KingLocation(s, c);
      MoveValid(s, from, king) == IsValidMove(s.board, from, king)
  {
    CheckIgnoresCastling(s, c, from);
  }

  // ---------------------------------------------------------------------
  // evaluate and valueOf

  /** valueOf: a piece's magnitude, positive for the side to move. Seen from
      White it is the signed code itself and from Black its negation. */
  function ValueOf(piece: int, turn: Side): (v: int)
    ensures turn == White ==> v == piece
    ensures turn == Black ==> v == -piece
    ensures v > 0 ==> ColorOf(piece) == turn
  {
    if ColorOf(piece) == turn then Abs(piece) else -Abs(piece)
  }

  /** The sum of valueOf over the first n squares. */
  function Material(b: seq<int>, turn: Side, n: nat): int
    requires n <= |b|
  {
    if n == 0 then 0 else Material(b, turn, n - 1) + ValueOf(b[n - 1], turn)
  }

  function SumOfCodes(b: seq<int>, n: nat): int
    requires n <= |b|
  {
    if n == 0 then 0 else SumOfCodes(b, n - 1) + b[n - 1]
  }

  /** From White's side the material is the plain sum of the signed codes,
      and from Black's side its negation: the evaluation is zero-sum. */
  lemma {:induction false} MaterialIsSignedSum(b: seq<int>, n: nat)
    requires n <= |b|
    ensures Material(b, White, n) == SumOfCodes(b, n)
    ensures Material(b, Black, n) == -SumOfCodes(b, n)
  {
    if n > 0 {
      MaterialIsSignedSum(b, n - 1);
    }
  }

  /** evaluate: the material from the side to move's view, with 200 taken
      off when it is checkmated. */
  function Evaluate(s: State): int
    requires WellFormed(s)
  {
    Material(s.board, s.turn, 64) + (if Checkmate(s) then -200 else 0)
  }

  lemma EvaluateMeaning(s: State)
    requires WellFormed(s)
    ensures Evaluate(s) == (if s.turn == White then SumOfCodes(s.board, 64) else -SumOfCodes(s.board, 64))
                           - (if Checkmate(s) then 200 else 0)
  {
    MaterialIsSignedSum(s.board, 64);
  }

  // ---------------------------------------------------------------------
  // Landing counters as written

  /** The counter the source keeps: the map starts empty, so a first
      `get(square) + 1` is undefined + 1, which is NaN, and NaN stays NaN. */
  datatype Counter = NaN | Count(n: int)

  datatype HistoryOp = Inc(square: int) | Dec(square: int)

  function StepAsWritten(h: map<int, Counter>, op: HistoryOp): map<int, Counter> {
    var square := op.square;
    var delta := if op.Inc? then 1 else -1;
    h[square := if square in h && h[square].Count? then Count(h[square].n + delta) else NaN]
  }

  function RunAsWritten(h: map<int, Counter>, ops: seq<HistoryOp>): map<int, Counter>
    decreases |ops|
  {
    if ops == [] then h else RunAsWritten(StepAsWritten(h, ops[0]), ops[1..])
  }

  /** hasPieceAtMoved as written: undefined > 0 and NaN > 0 are false. */
  predicate HasPieceAtMovedAsWritten(h: map<int, Counter>, square: int) {
    square in h && h[square].Count? && h[square].n > 0
  }

  predicate NoCounts(h: map<int, Counter>) {
    forall square :: square in h ==> h[square] == NaN
  }

  lemma {:induction false} RunAsWrittenNoCounts(h: map<int, Counter>, ops: seq<HistoryOp>)
    requires NoCounts(h)
    ensures NoCounts(RunAsWritten(h, ops))
    decreases |ops|
  {
    if ops != [] {
      RunAsWrittenNoCounts(StepAsWritten(h, ops[0]), ops[1..]);
    }
  }

  /** As written, no sequence of landings ever makes hasPieceAtMoved true,
      so isValidCastleMove never refuses a king or rook that has moved. */
  lemma HistoryAsWrittenNeverCounts(ops: seq<HistoryOp>, square: int)
    ensures !HasPieceAtMovedAsWritten(RunAsWritten(map[], ops), square)
  {
    RunAsWrittenNoCounts(map[], ops);
  }

  /** With the counters preloaded with 0, a landing on a square is seen by
      hasPieceAtMoved, and undoing it is not. */
  lemma PreloadedHistoryCounts(s: State, m: Move)
    requires WellFormed(s) && Applicable(s, m) && !IsCastleMove(s.board, m) && s.history[m.to] == 0
    ensures HasPieceAtMoved(MovePiece(s, m).history, m.to)
    ensures !HasPieceAtMoved(Decrement(MovePiece(s, m).history, m.to), m.to)
  {
  }

  // ---------------------------------------------------------------------
  // The castle probe of isValidCastleMove

  /** The state isInCheckAfterMove leaves behind: movePiece then undoMove. */
  function AfterProbe(s: State, m: Move): (r: State)
    requires WellFormed(s) && Applicable(s, m) && (IsCastleMove(s.board, m) ==> |s.removed| > 0)
  {
    var t := MovePiece(s, m);
    assert IsCastleMove(s.board, m) ==> t.removed == s.removed;
    UndoMove(t, m)
  }

  /** The loop of isValidCastleMove runs until its square equals `to`, so
      its last probe is the castle move itself, which undoMove does not take
      back: on the usual king-side position the king stays on 62, the rook
      on 61, 60 stays empty and 63 gets the top of the capture stack. */
  lemma CastleProbeMovesPieces(s: State)
    requires WellFormed(s) && |s.removed| > 0
    requires s.board[60] == WHITE_KING && s.board[63] == ROOK
    requires s.board[61] == EMPTY && s.board[62] == EMPTY
    ensures var m := ChessMove(60, 63);
      && IsCastleMove(s.board, m) && Applicable(s, m)
      && AfterProbe(s, m).board[60] == EMPTY
      && AfterProbe(s, m).board[61] == ROOK
      && AfterProbe(s, m).board[62] == WHITE_KING
      && AfterProbe(s, m).board[63] == s.removed[|s.removed| - 1]
      && AfterProbe(s, m).board != s.board
  {
    var m := ChessMove(60, 63);
    var t := MovePiece(s, m);
    assert t.board[60] == EMPTY && t.board[63] == EMPTY;
    assert t.board[61] == ROOK && t.board[62] == WHITE_KING;
    assert AfterProbe(s, m).board[61] != s.board[61];
  }
}
