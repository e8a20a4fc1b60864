/** The squares of a chess board and the pieces that occupy them.

    The piece classes themselves (their move generation, promotion rank and
    values) are not part of this model; what the board needs from them is
    gathered in `Moves.PieceRules`.  Here live the plain values: colours,
    piece kinds, positions and the contents of one square.
 */
module Pieces {

  datatype Option<+T> = None | Some(value: T)

  datatype Color = White | Black

  /** The six piece classes the board places or creates. */
  datatype Kind = King | Queen | Bishop | Knight | Rook | Pawn

  /** A (row, col) pair as the game passes it around; it may lie off the board. */
  datatype Pos = Pos(row: int, col: int)

  /** Number of rows (and of columns) of the grid. */
  const Size: int := 8

  /** Both coordinates lie in [0, Size - 1]. */
  predicate InBounds(p: Pos) {
    0 <= p.row <= Size - 1 && 0 <= p.col <= Size - 1
  }

  /** A position that names one of the 64 squares. */
  type OnBoard = p: Pos | InBounds(p) witness Pos(0, 0)

  /** The contents of one square: nothing, or a piece that remembers where it stands. */
  datatype Square = Empty | Piece(kind: Kind, color: Color, pos: OnBoard)

  /** The colour a square reports; an empty square has none. */
  function ColorOf(s: Square): Option<Color> {
    match s
    case Empty => None
    case Piece(_, color, _) => Some(color)
  }

  /** `s` is a piece of colour `c`. */
  predicate IsPieceOf(s: Square, c: Color) {
    s.Piece? && s.color == c
  }

  /** `s` is the king of colour `c`. */
  predicate IsKingOf(s: Square, c: Color) {
    s.Piece? && s.kind == King && s.color == c
  }
}
