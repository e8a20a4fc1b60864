/** Queries derived from the rules: every legal move of a colour, the most
    valuable piece a colour can capture, and the material score.
 */
module Queries {
  import opened Pieces
  import opened Grid
  import opened Moves
  import opened Legality

  /** Every (from, to) pair of a piece of colour `c` whose candidate move does
      not leave `c` in check.  The source shuffles the list it builds; a set
      has no order to shuffle. */
  function AllMoves(rules: PieceRules, b: Board, c: Color): (r: set<(OnBoard, OnBoard)>)
    requires Consistent(b)
    ensures forall m :: m in r ==>
      Owns(b, m.0, c) && m.1 in rules.candidates(b, m.0) && ValidMove(rules, b, m.0, m.1, c)
  {
    FindPiecesExact(b, c);
    set p, t | p in FindPieces(b, c) && t in rules.candidates(b, p.pos)
                && ValidMove(rules, b, p.pos, t, c) :: (p.pos, t)
  }

  /** The moves listed are exactly those of a piece of `c` to one of its
      candidate squares that leave `c` out of check. */
  lemma AllMovesExact(rules: PieceRules, b: Board, c: Color, from: OnBoard, to: OnBoard)
    requires Consistent(b)
    ensures (from, to) in AllMoves(rules, b, c) <==>
      Owns(b, from, c) && to in rules.candidates(b, from) && ValidMove(rules, b, from, to, c)
  {
    FindPiecesExact(b, c);
    if Owns(b, from, c) && to in rules.candidates(b, from) && ValidMove(rules, b, from, to, c) {
      var p := Get(b, from);
      assert p in FindPieces(b, c) && p.pos == from;
    }
  }

  /** A pair is listed exactly when requesting that move would be accepted. */
  lemma AllMovesAreAcceptedMoves(rules: PieceRules, b: Board, c: Color, from: OnBoard, to: OnBoard)
    requires Consistent(b)
    ensures (from, to) in AllMoves(rules, b, c) <==> Move(rules, b, from, to, c).status == Moved
  {
    AllMovesExact(rules, b, c, from, to);
  }

  /** Checkmate is being in check with no move listed. */
  lemma CheckmateIffNoMoves(rules: PieceRules, b: Board, c: Color)
    requires Consistent(b)
    requires HasKing(b, c)
    ensures Checkmate(rules, b, c) <==> InCheck(rules, b, c) && AllMoves(rules, b, c) == {}
  {
    FindPiecesExact(b, c);
    if InCheck(rules, b, c) && AllMoves(rules, b, c) == {} {
      forall p | p in FindPieces(b, c)
        ensures !CanEscape(rules, b, p.pos, c)
      {
        if CanEscape(rules, b, p.pos, c) {
          var t :| t in rules.candidates(b, p.pos) && ValidMove(rules, b, p.pos, t, c);
          AllMovesExact(rules, b, c, p.pos, t);
        }
      }
    }
  }

  /** The move `m` captures: its destination holds a piece not of colour `c`. */
  predicate Captures(b: Board, m: (OnBoard, OnBoard), c: Color) {
    Get(b, m.1).Piece? && ColorOf(Get(b, m.1)) != Some(c)
  }

  /** The value of the piece a move would capture. */
  function CaptureValue(rules: PieceRules, b: Board, m: (OnBoard, OnBoard)): int
    requires Get(b, m.1).Piece?
  {
    rules.value(Get(b, m.1).kind)
  }

  /** The scan behind the best capture, over any set of moves: starting
      from 0, keep the largest value of an opposing piece on a destination. */
  method MaxCaptureOver(rules: PieceRules, b: Board, c: Color, moves: set<(OnBoard, OnBoard)>)
    returns (max: int)
    ensures max >= 0
    ensures forall m :: m in moves && Captures(b, m, c) ==> CaptureValue(rules, b, m) <= max
    ensures max == 0 ||
      (exists m :: m in moves && Captures(b, m, c) && CaptureValue(rules, b, m) == max)
  {
    var rest := moves;
    max := 0;
    ghost var best: (OnBoard, OnBoard) := (Pos(0, 0), Pos(0, 0));
    while rest != {}
      invariant rest <= moves
      invariant max >= 0
      invariant forall m :: m in moves - rest && Captures(b, m, c) ==> CaptureValue(rules, b, m) <= max
      invariant max == 0 ||
        (best in moves - rest && Captures(b, best, c) && CaptureValue(rules, b, best) == max)
      decreases rest
    {
      var m :| m in rest;
      var piece := Get(b, m.1);
      if !piece.Empty? && ColorOf(piece) != Some(c) && rules.value(piece.kind) > max {
        max := rules.value(piece.kind);
        best := m;
      }
      rest := rest - {m};
    }
    assert moves - rest == moves;
  }

  /** The best capture of colour `c`: 0 when no listed move captures,
      otherwise the largest value among the opposing pieces it could take. */
  method MaxCaptureValue(rules: PieceRules, b: Board, c: Color) returns (max: int)
    requires Consistent(b)
    ensures max >= 0
    ensures forall m :: m in AllMoves(rules, b, c) && Captures(b, m, c) ==>
      CaptureValue(rules, b, m) <= max
    ensures max == 0 ||
      (exists m :: m in AllMoves(rules, b, c) && Captures(b, m, c) && CaptureValue(rules, b, m) == max)
  {
    max := MaxCaptureOver(rules, b, c, AllMoves(rules, b, c));
  }

  /** The value a square adds to colour `c`'s material. */
  function Worth(rules: PieceRules, s: Square, c: Color): int {
    if IsPieceOf(s, c) then rules.value(s.kind) else 0
  }

  /** The values of a list of pieces added up; an empty list adds to 0. */
  function SumValues(rules: PieceRules, pieces: seq<Square>): int {
    if pieces == [] then 0
    else (if pieces[0].Piece? then rules.value(pieces[0].kind) else 0) + SumValues(rules, pieces[1..])
  }

  /** For each colour, the values of its pieces added up. */
  function Scores(rules: PieceRules, b: Board): (r: map<Color, int>)
    ensures r.Keys == {White, Black}
  {
    map[White := SumValues(rules, FindPieces(b, White)),
        Black := SumValues(rules, FindPieces(b, Black))]
  }

  /** Colour `c`'s material read square by square along row `r`, from column `col`. */
  function RowMaterial(rules: PieceRules, b: Board, c: Color, r: int, col: int): int
    requires 0 <= r < Size && 0 <= col <= Size
    decreases Size - col
  {
    if col == Size then 0
    else Worth(rules, Get(b, Pos(r, col)), c) + RowMaterial(rules, b, c, r, col + 1)
  }

  /** Colour `c`'s material read row by row, from row `r`. */
  function MaterialFrom(rules: PieceRules, b: Board, c: Color, r: int): int
    requires 0 <= r <= Size
    decreases Size - r
  {
    if r == Size then 0
    else RowMaterial(rules, b, c, r, 0) + MaterialFrom(rules, b, c, r + 1)
  }

  /** Colour `c`'s material over the whole grid. */
  function Material(rules: PieceRules, b: Board, c: Color): int {
    MaterialFrom(rules, b, c, 0)
  }

  /** `Worth` added up along a sequence of squares. */
  function SumWorth(rules: PieceRules, s: seq<Square>, c: Color): int {
    if s == [] then 0 else Worth(rules, s[0], c) + SumWorth(rules, s[1..], c)
  }

  lemma {:induction false} SumValuesOfSelect(rules: PieceRules, s: seq<Square>, c: Color)
    ensures SumValues(rules, Select(s, c)) == SumWorth(rules, s, c)
  {
    if s != [] {
      SumValuesOfSelect(rules, s[1..], c);
      if IsPieceOf(s[0], c) {
        assert Select(s, c)[1..] == Select(s[1..], c);
      }
    }
  }

  lemma {:induction false} SumWorthAppend(rules: PieceRules, x: seq<Square>, y: seq<Square>, c: Color)
    ensures SumWorth(rules, x + y, c) == SumWorth(rules, x, c) + SumWorth(rules, y, c)
  {
    if x != [] {
      assert (x + y)[0] == x[0];
      assert (x + y)[1..] == x[1..] + y;
      SumWorthAppend(rules, x[1..], y, c);
    } else {
      assert x + y == y;
    }
  }

  lemma {:induction false} SumWorthOfRow(rules: PieceRules, b: Board, c: Color, r: int, col: int)
    requires 0 <= r < Size && 0 <= col <= Size
    ensures SumWorth(rules, b[r][col..], c) == RowMaterial(rules, b, c, r, col)
    decreases Size - col
  {
    if col < Size {
      assert b[r][col..][1..] == b[r][col + 1..];
      SumWorthOfRow(rules, b, c, r, col + 1);
    }
  }

  lemma {:induction false} SumWorthOfRows(rules: PieceRules, b: Board, c: Color, r: int)
    requires 0 <= r <= Size
    ensures SumWorth(rules, FlattenFrom(b, r), c) == MaterialFrom(rules, b, c, r)
    decreases Size - r
  {
    if r < Size {
      SumWorthAppend(rules, b[r], FlattenFrom(b, r + 1), c);
      assert b[r][0..] == b[r];
      SumWorthOfRow(rules, b, c, r, 0);
      SumWorthOfRows(rules, b, c, r + 1);
    }
  }

  /** The score of a colour is its material counted square by square. */
  lemma ScoresAreMaterial(rules: PieceRules, b: Board, c: Color)
    ensures Scores(rules, b)[c] == Material(rules, b, c)
  {
    SumValuesOfSelect(rules, Flatten(b), c);
    SumWorthOfRows(rules, b, c, 0);
  }
}
