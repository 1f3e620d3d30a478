/** Piece codes and colours.

    A square holds a signed integer: zero is an empty square, the sign is the
    colour (positive White, negative Black) and the magnitude is the kind.
    The numeric values of the kinds are a choice of this model; only their
    distinctness and positivity matter to the rules. */
module Pieces {

  const EMPTY: int := 0
  const PAWN: int := 1
  const KNIGHT: int := 2
  const BISHOP: int := 3
  const ROOK: int := 4
  const QUEEN: int := 5
  const KING: int := 6

  const WHITE_PAWN: int := PAWN
  const BLACK_PAWN: int := -PAWN
  const WHITE_KING: int := KING
  const BLACK_KING: int := -KING

  /** The colour of a piece code, or Empty for an empty square. */
  datatype Color = White | Black | Empty

  /** A side to move: the turn is never Empty. */
  type Side = c: Color | c != Empty witness White

  /** Math.sign */
  function Sign(x: int): (r: int)
    ensures r == 0 <==> x == 0
    ensures r == 1 <==> x > 0
    ensures r == -1 <==> x < 0
  {
    if x > 0 then 1 else if x < 0 then -1 else 0
  }

  /** Math.abs */
  function Abs(x: int): (r: int)
    ensures r >= 0 && (r == x || r == -x)
  {
    if x < 0 then -x else x
  }

  /** getColorOf: the colour a piece code stands for. */
  function ColorOf(piece: int): (c: Color)
    ensures c == White <==> piece > 0
    ensures c == Black <==> piece < 0
    ensures c == Empty <==> piece == EMPTY
  {
    match Sign(piece)
    case -1 => Black
    case 1 => White
    case _ => Empty
  }

  /** getOpponentColor, and the turn update of changeTurn: the other side,
      which for a side is the only other one there is. */
  function Opponent(c: Color): (r: Side)
    ensures r != c
    ensures c == Empty ==> r == White
  {
    if c == White then Black else White
  }

  /** The king code of a side. */
  function KingOf(c: Side): (k: int)
    ensures Abs(k) == KING && ColorOf(k) == c
  {
    if c == White then WHITE_KING else BLACK_KING
  }

  predicate IsKingCode(piece: int) {
    piece == WHITE_KING || piece == BLACK_KING
  }

  /** Flipping the side to move twice gives the side back, and a flip always
      changes it: the two turn phases alternate. */
  lemma OpponentAlternates(c: Side)
    ensures Opponent(c) != c
    ensures Opponent(Opponent(c)) == c
  {
  }
}
