/** The capability the board borrows from the piece classes, and the raw
    move that both real moves and simulations go through.
 */
module Moves {
  import opened Pieces
  import opened Grid

  /** What the piece classes provide and this model leaves abstract:
      - `candidates(b, p)`: the squares the piece at `p` could move to on `b`,
        ignoring whether that leaves its own king attacked;
      - `isPromoted(piece)`: whether a pawn standing where `piece` says has
        reached its promotion rank;
      - `value(kind)`: the material value of a piece class. */
  datatype PieceRules = PieceRules(
    candidates: (Board, OnBoard) -> set<OnBoard>,
    isPromoted: Square -> bool,
    value: Kind -> int)

  /** A pawn that reports itself promoted is replaced by a queen. */
  predicate Promotes(rules: PieceRules, piece: Square) {
    piece.Piece? && piece.kind == Pawn && rules.isPromoted(piece)
  }

  /** The promotion step after a move: a promoted pawn becomes a queen of its
      colour on its square; in every other case the board is left alone. */
  function CheckPawnPromotion(rules: PieceRules, b: Board, piece: Square): (r: Board)
    requires piece.Piece?
    ensures Promotes(rules, piece) ==> Get(r, piece.pos) == Piece(Queen, piece.color, piece.pos)
    ensures !Promotes(rules, piece) ==> r == b
    ensures forall q: OnBoard {:trigger Get(r, q)} :: q != piece.pos ==> Get(r, q) == Get(b, q)
  {
    if Promotes(rules, piece) then Set(b, piece.pos, Piece(Queen, piece.color, piece.pos))
    else b
  }

  /** The unchecked move: the piece at `from` is written to `to` (capturing
      whatever stood there), `from` is emptied, the piece's stored position
      becomes `to`, and a promoted pawn is then swapped for a queen.  The
      emptying happens after the write, so a move onto its own square leaves
      that square empty unless the piece promotes. */
  function MovePiece(rules: PieceRules, b: Board, from: OnBoard, to: OnBoard): (r: Board)
    requires Get(b, from).Piece?
    ensures forall q: OnBoard {:trigger Get(r, q)} :: q != from && q != to ==> Get(r, q) == Get(b, q)
    ensures from != to ==> Get(r, from) == Empty
    ensures var moved := Get(b, from).(pos := to);
      && (Promotes(rules, moved) ==> Get(r, to) == Piece(Queen, moved.color, to))
      && (!Promotes(rules, moved) && from != to ==> Get(r, to) == moved)
      && (!Promotes(rules, moved) && from == to ==> Get(r, to) == Empty)
  {
    var piece := Get(b, from);
    var placed := Set(b, to, piece);
    var vacated := Set(placed, from, Empty);
    var moved := piece.(pos := to);
    var updated := if from == to then vacated else Set(vacated, to, moved);
    CheckPawnPromotion(rules, updated, moved)
  }

  /** The raw move keeps every stored position equal to the square holding it. */
  lemma MovePiecePreservesConsistent(rules: PieceRules, b: Board, from: OnBoard, to: OnBoard)
    requires Consistent(b)
    requires Get(b, from).Piece?
    ensures Consistent(MovePiece(rules, b, from, to))
  {
    var r := MovePiece(rules, b, from, to);
    forall q: OnBoard | Get(r, q).Piece?
      ensures Get(r, q).pos == q
    {
      if q != from && q != to {
        assert Get(r, q) == Get(b, q);
      }
    }
  }
}
