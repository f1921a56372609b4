/** Grid cells and the four movement directions of the snake game. */
module Geometry {

  /** One grid square, compared structurally: equal iff both coordinates match. */
  datatype Cell = Cell(x: int, y: int)

  datatype Direction = Up | Down | Left | Right

  /** The reversal of a direction: the 180-degree turn the board forbids. */
  function Opposite(d: Direction): (r: Direction)
    ensures r != d
  {
    match d
    case Up => Down
    case Down => Up
    case Left => Right
    case Right => Left
  }

  /** Opposite is an involution, so "D is the reversal of the last move" and
      "the last move is the reversal of D" say the same thing. */
  lemma OppositeInvolution(d: Direction)
    ensures Opposite(Opposite(d)) == d
  {
  }

  /** The neighbouring cell in direction d (screen coordinates: Up decreases y). */
  function Step(c: Cell, d: Direction): (r: Cell)
    ensures r != c
    ensures (r.x == c.x && (r.y == c.y - 1 || r.y == c.y + 1))
         || (r.y == c.y && (r.x == c.x - 1 || r.x == c.x + 1))
  {
    match d
    case Up => Cell(c.x, c.y - 1)
    case Down => Cell(c.x, c.y + 1)
    case Left => Cell(c.x - 1, c.y)
    case Right => Cell(c.x + 1, c.y)
  }

  /** The cells on a board of `columns` by `rows` squares. */
  predicate InBounds(c: Cell, columns: int, rows: int)
  {
    0 <= c.x < columns && 0 <= c.y < rows
  }
}
