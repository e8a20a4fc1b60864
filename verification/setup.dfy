/** A new board: either empty or holding both armies in their starting
    squares, placed colour by colour from the per-colour position tables.
 */
module Setup {
  import opened Pieces
  import opened Grid
  import opened Moves
  import opened Queries

  /** The starting squares of each piece class, per colour, as the board's
      position tables list them. */
  function Positions(c: Color, k: Kind): seq<OnBoard> {
    match (c, k)
    case (White, King) => [Pos(0, 4)]
    case (White, Queen) => [Pos(0, 3)]
    case (White, Bishop) => [Pos(0, 2), Pos(0, 5)]
    case (White, Knight) => [Pos(0, 1), Pos(0, 6)]
    case (White, Rook) => [Pos(0, 0), Pos(0, 7)]
    case (White, Pawn) =>
      [Pos(1, 0), Pos(1, 1), Pos(1, 2), Pos(1, 3), Pos(1, 4), Pos(1, 5), Pos(1, 6), Pos(1, 7)]
    case (Black, King) => [Pos(7, 4)]
    case (Black, Queen) => [Pos(7, 3)]
    case (Black, Bishop) => [Pos(7, 2), Pos(7, 5)]
    case (Black, Knight) => [Pos(7, 1), Pos(7, 6)]
    case (Black, Rook) => [Pos(7, 0), Pos(7, 7)]
    case (Black, Pawn) =>
      [Pos(6, 0), Pos(6, 1), Pos(6, 2), Pos(6, 3), Pos(6, 4), Pos(6, 5), Pos(6, 6), Pos(6, 7)]
  }

  /** The pieces of the back rank, from column 0 to column 7. */
  const BackRank: seq<Kind> := [Rook, Knight, Bishop, Queen, King, Bishop, Knight, Rook]

  /** The row holding a colour's back rank. */
  function HomeRow(c: Color): int {
    if c == White then 0 else Size - 1
  }

  /** The row holding a colour's pawns. */
  function PawnRow(c: Color): int {
    if c == White then 1 else Size - 2
  }

  /** The piece class colour `c` starts with on square `q`, if any: the back
      rank on its home row, pawns on the row in front of it. */
  function StartKind(c: Color, q: OnBoard): Option<Kind> {
    if q.row == HomeRow(c) then Some(BackRank[q.col])
    else if q.row == PawnRow(c) then Some(Pawn)
    else None
  }

  /** What square `q` holds in the standard opening position. */
  function StandardSquare(q: OnBoard): Square {
    if StartKind(White, q).Some? then Piece(StartKind(White, q).value, White, q)
    else if StartKind(Black, q).Some? then Piece(StartKind(Black, q).value, Black, q)
    else Empty
  }

  /** One table entry placed: each listed square receives a fresh piece of
      class `k` and colour `c` that knows its square; nothing else changes. */
  function PlaceAll(b: Board, k: Kind, c: Color, ps: seq<OnBoard>): (r: Board)
    ensures forall q: OnBoard {:trigger Get(r, q)} :: q in ps ==> Get(r, q) == Piece(k, c, q)
    ensures forall q: OnBoard {:trigger Get(r, q)} :: q !in ps ==> Get(r, q) == Get(b, q)
    decreases |ps|
  {
    if ps == [] then b
    else PlaceAll(Set(b, ps[0], Piece(k, c, ps[0])), k, c, ps[1..])
  }

  /** Colour `c` starts with a piece of class `k` on `q` exactly when the
      position table lists `q` under `k`. */
  lemma PositionsExact(c: Color, k: Kind, q: OnBoard)
    ensures q in Positions(c, k) <==> StartKind(c, q) == Some(k)
  {
    assert BackRank[0] == Rook && BackRank[1] == Knight && BackRank[2] == Bishop
        && BackRank[3] == Queen && BackRank[4] == King && BackRank[5] == Bishop
        && BackRank[6] == Knight && BackRank[7] == Rook;
  }

  /** One colour's army placed, class by class in the table's order (king,
      queen, bishops, knights, rooks, pawns). */
  function SetUpPieces(b: Board, c: Color): Board {
    var withKing := PlaceAll(b, King, c, Positions(c, King));
    var withQueen := PlaceAll(withKing, Queen, c, Positions(c, Queen));
    var withBishops := PlaceAll(withQueen, Bishop, c, Positions(c, Bishop));
    var withKnights := PlaceAll(withBishops, Knight, c, Positions(c, Knight));
    var withRooks := PlaceAll(withKnights, Rook, c, Positions(c, Rook));
    PlaceAll(withRooks, Pawn, c, Positions(c, Pawn))
  }

  /** What placing an army does to one square: a starting square of `c`
      receives the piece `c` starts with there, any other square keeps what
      it held. */
  lemma SetUpPiecesSquare(b: Board, c: Color, q: OnBoard)
    ensures StartKind(c, q).Some? ==> Get(SetUpPieces(b, c), q) == Piece(StartKind(c, q).value, c, q)
    ensures StartKind(c, q).None? ==> Get(SetUpPieces(b, c), q) == Get(b, q)
  {
    PositionsExact(c, King, q);
    PositionsExact(c, Queen, q);
    PositionsExact(c, Bishop, q);
    PositionsExact(c, Knight, q);
    PositionsExact(c, Rook, q);
    PositionsExact(c, Pawn, q);
  }

  /** The opening position: every square as `StandardSquare` describes it. */
  ghost predicate IsStandard(b: Board) {
    forall q: OnBoard :: Get(b, q) == StandardSquare(q)
  }

  /** White's army then black's, on an empty board, put on `q` what the
      opening position has there. */
  lemma SetUpBothSquare(q: OnBoard)
    ensures Get(SetUpPieces(SetUpPieces(EmptyBoard(), White), Black), q) == StandardSquare(q)
  {
    SetUpPiecesSquare(EmptyBoard(), White, q);
    SetUpPiecesSquare(SetUpPieces(EmptyBoard(), White), Black, q);
  }

  /** White's army then black's, on an empty board, give the opening position. */
  lemma SetUpBothIsStandard()
    ensures IsStandard(SetUpPieces(SetUpPieces(EmptyBoard(), White), Black))
  {
    forall q: OnBoard
      ensures Get(SetUpPieces(SetUpPieces(EmptyBoard(), White), Black), q) == StandardSquare(q)
    {
      SetUpBothSquare(q);
    }
  }

  /** The opening position is consistent and holds both kings. */
  lemma StandardWellFormed(b: Board)
    requires IsStandard(b)
    ensures Consistent(b) && HasKing(b, White) && HasKing(b, Black)
  {
    assert IsKingOf(Get(b, Pos(0, 4)), White);
    assert IsKingOf(Get(b, Pos(7, 4)), Black);
  }

  /** A new board: empty squares everywhere, then, when `setup` holds, white's
      army and black's army.  The set-up board is the opening position, every
      piece on it stands where it says, and both kings are on it. */
  function NewBoard(setup: bool): (r: Board)
    ensures !setup ==> forall q: OnBoard :: Get(r, q) == Empty
    ensures setup ==> IsStandard(r)
    ensures setup ==> Consistent(r) && HasKing(r, White) && HasKing(r, Black)
  {
    if setup then
      SetUpBothIsStandard();
      var r := SetUpPieces(SetUpPieces(EmptyBoard(), White), Black);
      StandardWellFormed(r);
      r
    else EmptyBoard()
  }

  /** A row holding no piece of colour `c` from column `col` on adds nothing. */
  lemma {:induction false} RowMaterialNone(rules: PieceRules, b: Board, c: Color, r: int, col: int)
    requires 0 <= r < Size && 0 <= col <= Size
    requires forall q: OnBoard :: q.row == r && q.col >= col ==> !IsPieceOf(Get(b, q), c)
    ensures RowMaterial(rules, b, c, r, col) == 0
    decreases Size - col
  {
    if col < Size {
      assert !IsPieceOf(Get(b, Pos(r, col)), c);
      RowMaterialNone(rules, b, c, r, col + 1);
    }
  }

  /** Rows `lo` up to `hi` holding no piece of colour `c` add nothing. */
  lemma {:induction false} MaterialSkipsRows(rules: PieceRules, b: Board, c: Color, lo: int, hi: int)
    requires 0 <= lo <= hi <= Size
    requires forall q: OnBoard :: lo <= q.row < hi ==> !IsPieceOf(Get(b, q), c)
    ensures MaterialFrom(rules, b, c, lo) == MaterialFrom(rules, b, c, hi)
    decreases hi - lo
  {
    if lo < hi {
      RowMaterialNone(rules, b, c, lo, 0);
      MaterialSkipsRows(rules, b, c, lo + 1, hi);
    }
  }

  /** On the opening board, white's row `r` is worth what black's mirrored
      row `Size - 1 - r` is worth, column by column from `col`. */
  lemma {:induction false} RowMaterialMirror(rules: PieceRules, b: Board, r: int, col: int)
    requires IsStandard(b)
    requires 0 <= r < Size && 0 <= col <= Size
    ensures RowMaterial(rules, b, White, r, col) == RowMaterial(rules, b, Black, Size - 1 - r, col)
    decreases Size - col
  {
    if col < Size {
      assert Get(b, Pos(r, col)) == StandardSquare(Pos(r, col));
      assert Get(b, Pos(Size - 1 - r, col)) == StandardSquare(Pos(Size - 1 - r, col));
      RowMaterialMirror(rules, b, r, col + 1);
    }
  }

  /** A colour whose pieces all stand on rows `lo` and `lo + 1` has just the
      material of those two rows. */
  lemma MaterialOfTwoRows(rules: PieceRules, b: Board, c: Color, lo: int)
    requires 0 <= lo <= Size - 2
    requires forall q: OnBoard :: q.row != lo && q.row != lo + 1 ==> !IsPieceOf(Get(b, q), c)
    ensures Material(rules, b, c) == RowMaterial(rules, b, c, lo, 0) + RowMaterial(rules, b, c, lo + 1, 0)
  {
    MaterialSkipsRows(rules, b, c, 0, lo);
    MaterialSkipsRows(rules, b, c, lo + 2, Size);
    assert MaterialFrom(rules, b, c, lo)
        == RowMaterial(rules, b, c, lo, 0) + RowMaterial(rules, b, c, lo + 1, 0)
           + MaterialFrom(rules, b, c, lo + 2);
  }

  /** On the opening board white's pieces stand on rows 0 and 1 only, black's
      on the last two rows only. */
  lemma StandardRows(b: Board)
    requires IsStandard(b)
    ensures forall q: OnBoard :: q.row != 0 && q.row != 1 ==> !IsPieceOf(Get(b, q), White)
    ensures forall q: OnBoard :: q.row != Size - 2 && q.row != Size - 1 ==> !IsPieceOf(Get(b, q), Black)
  {
    forall q: OnBoard
      ensures q.row != 0 && q.row != 1 ==> !IsPieceOf(Get(b, q), White)
      ensures q.row != Size - 2 && q.row != Size - 1 ==> !IsPieceOf(Get(b, q), Black)
    {
      assert Get(b, q) == StandardSquare(q);
    }
  }

  /** Armies confined to mirrored row pairs whose rows are worth the same
      carry the same material. */
  lemma MirroredMaterialEqual(rules: PieceRules, b: Board)
    requires forall q: OnBoard :: q.row != 0 && q.row != 1 ==> !IsPieceOf(Get(b, q), White)
    requires forall q: OnBoard :: q.row != Size - 2 && q.row != Size - 1 ==> !IsPieceOf(Get(b, q), Black)
    requires RowMaterial(rules, b, White, 0, 0) == RowMaterial(rules, b, Black, Size - 1, 0)
    requires RowMaterial(rules, b, White, 1, 0) == RowMaterial(rules, b, Black, Size - 2, 0)
    ensures Material(rules, b, White) == Material(rules, b, Black)
  {
    MaterialOfTwoRows(rules, b, White, 0);
    MaterialOfTwoRows(rules, b, Black, Size - 2);
  }

  /** Both armies of the opening position carry the same material. */
  lemma StandardMaterialEqual(rules: PieceRules, b: Board)
    requires IsStandard(b)
    ensures Material(rules, b, White) == Material(rules, b, Black)
  {
    StandardRows(b);
    RowMaterialMirror(rules, b, 0, 0);
    RowMaterialMirror(rules, b, 1, 0);
    MirroredMaterialEqual(rules, b);
  }

  /** Both armies of the opening position score the same, whatever values
      the piece classes carry. */
  lemma StandardScoresEqual(rules: PieceRules, b: Board)
    requires IsStandard(b)
    ensures Scores(rules, b)[White] == Scores(rules, b)[Black]
  {
    ScoresAreMaterial(rules, b, White);
    ScoresAreMaterial(rules, b, Black);
    StandardMaterialEqual(rules, b);
  }

  /** A board built with set-up gives both colours the same score. */
  lemma NewBoardScoresEqual(rules: PieceRules)
    ensures Scores(rules, NewBoard(true))[White] == Scores(rules, NewBoard(true))[Black]
  {
    StandardScoresEqual(rules, NewBoard(true));
  }
}
