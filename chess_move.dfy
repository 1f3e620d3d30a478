/** A move: origin and destination squares and an optional promotion piece. */
module ChessMoves {

  datatype Option<T> = None | Some(value: T)

  datatype Move = Move(from: int, to: int, promotion: Option<int>)

  /** new ChessMove(from, to): a move without promotion. */
  function ChessMove(from: int, to: int): Move {
    Move(from, to, None)
  }
}
