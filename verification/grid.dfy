/** Board storage and the read-only queries over it: indexing, the deep
    copy used for simulation, the per-colour piece lists, the king lookup,
    the opponent colour and the bounds test.
 */
module Grid {
  import opened Pieces

  /** Every row has `Size` squares and there are `Size` rows. */
  ghost predicate Shaped(g: seq<seq<Square>>) {
    |g| == Size && forall r :: 0 <= r < |g| ==> |g[r]| == Size
  }

  /** The grid: rows indexed 0-7, each holding 8 squares. */
  type Board = g: seq<seq<Square>> | Shaped(g) witness EmptyGrid()

  /** An 8x8 grid of empty squares (what a fresh board without setup holds). */
  function EmptyGrid(): (g: seq<seq<Square>>)
    ensures Shaped(g)
    ensures forall r, c :: 0 <= r < Size && 0 <= c < Size ==> g[r][c] == Empty
  {
    seq(Size, _ => seq(Size, _ => Empty))
  }

  function EmptyBoard(): (b: Board)
    ensures forall q: OnBoard :: Get(b, q) == Empty
  {
    EmptyGrid()
  }

  /** Reading the square at a position. */
  function Get(b: Board, p: OnBoard): Square {
    b[p.row][p.col]
  }

  /** Writing the square at a position: only that square changes. */
  function Set(b: Board, p: OnBoard, s: Square): (r: Board)
    ensures Get(r, p) == s
    ensures forall q: OnBoard {:trigger Get(r, q)} :: q != p ==> Get(r, q) == Get(b, q)
  {
    b[p.row := b[p.row][p.col := s]]
  }

  /** Two boards that agree on every square are the same board. */
  lemma Extensionality(x: Board, y: Board)
    requires forall q: OnBoard :: Get(x, q) == Get(y, q)
    ensures x == y
  {
    forall r | 0 <= r < Size
      ensures x[r] == y[r]
    {
      forall c | 0 <= c < Size
        ensures x[r][c] == y[r][c]
      {
        assert Get(x, Pos(r, c)) == Get(y, Pos(r, c));
      }
    }
  }

  /** The bounds test as the board performs it: each coordinate of the pair
      lies between 0 and the grid's length minus one.  A position passes it
      exactly when it names one of the 64 squares, and then the grid has a
      square there. */
  function InBoundsOn(b: Board, p: Pos): (r: bool)
    ensures r <==> InBounds(p)
    ensures r ==> p.row < |b| && p.col < |b[p.row]|
  {
    var coords := [p.row, p.col];
    assert coords[0] == p.row && coords[1] == p.col;
    forall i :: 0 <= i < |coords| ==> 0 <= coords[i] <= |b| - 1
  }

  /** Simulation copy: a fresh empty board filled square by square, row by
      row, with a copy of the original's square.  With value semantics the
      copy is the board itself, so nothing done to it can reach the original. */
  method DupedBoard(b: Board) returns (d: Board)
    ensures d == b
  {
    d := EmptyBoard();
    var r := 0;
    while r < Size
      invariant 0 <= r <= Size
      invariant forall q: OnBoard :: q.row < r ==> Get(d, q) == Get(b, q)
      invariant forall q: OnBoard :: q.row >= r ==> Get(d, q) == Empty
    {
      var c := 0;
      while c < Size
        invariant 0 <= c <= Size
        invariant forall q: OnBoard :: (q.row < r || (q.row == r && q.col < c)) ==> Get(d, q) == Get(b, q)
        invariant forall q: OnBoard :: (q.row > r || (q.row == r && q.col >= c)) ==> Get(d, q) == Empty
      {
        d := Set(d, Pos(r, c), Get(b, Pos(r, c)));
        c := c + 1;
      }
      r := r + 1;
    }
    Extensionality(d, b);
  }

  /** The other colour. */
  function Opponent(c: Color): (r: Color)
    ensures r != c
  {
    if c == White then Black else White
  }

  /** Taking the opponent twice gives back the colour. */
  lemma OpponentInvolution(c: Color)
    ensures Opponent(Opponent(c)) == c
  {
  }

  /** Rows `i..` of the grid laid end to end. */
  function FlattenFrom(b: Board, i: nat): seq<Square>
    requires i <= Size
    decreases Size - i
  {
    if i == Size then [] else b[i] + FlattenFrom(b, i + 1)
  }

  /** The whole grid in row-major order. */
  function Flatten(b: Board): seq<Square> {
    FlattenFrom(b, 0)
  }

  /** Some square of the board holds `x`. */
  ghost predicate OnGrid(b: Board, x: Square) {
    exists q: OnBoard :: Get(b, q) == x
  }

  /** The flattened rows `i..` hold exactly the squares of rows `i..`. */
  lemma {:induction false} FlattenFromExact(b: Board, i: nat)
    requires i <= Size
    ensures forall q: OnBoard :: q.row >= i ==> Get(b, q) in FlattenFrom(b, i)
    ensures forall x :: x in FlattenFrom(b, i) ==> OnGrid(b, x)
    decreases Size - i
  {
    if i < Size {
      FlattenFromExact(b, i + 1);
      forall q: OnBoard | q.row == i
        ensures Get(b, q) in FlattenFrom(b, i)
      {
        assert Get(b, q) == b[i][q.col];
      }
      forall x | x in b[i]
        ensures OnGrid(b, x)
      {
        var c :| 0 <= c < |b[i]| && b[i][c] == x;
        assert Get(b, Pos(i, c)) == x;
      }
    }
  }

  /** The filter over `s` that keeps the pieces of colour `c`. */
  function Select(s: seq<Square>, c: Color): (r: seq<Square>)
    ensures forall x :: x in r <==> x in s && IsPieceOf(x, c)
    ensures forall i :: 0 <= i < |r| ==> IsPieceOf(r[i], c)
    ensures |r| <= |s|
  {
    if s == [] then []
    else if IsPieceOf(s[0], c) then [s[0]] + Select(s[1..], c)
    else Select(s[1..], c)
  }

  /** A piece stored on the board stands where the grid holds it. */
  ghost predicate Consistent(b: Board) {
    forall q: OnBoard :: Get(b, q).Piece? ==> Get(b, q).pos == q
  }

  /** The pieces of colour `c`: the grid's rows laid end to end, filtered. */
  function FindPieces(b: Board, c: Color): (r: seq<Square>)
    ensures forall i :: 0 <= i < |r| ==> IsPieceOf(r[i], c)
  {
    Select(Flatten(b), c)
  }

  /** The list holds every piece of colour `c` on the board and nothing
      else; on a consistent board each stands on the square it names. */
  lemma FindPiecesExact(b: Board, c: Color)
    ensures forall q: OnBoard :: IsPieceOf(Get(b, q), c) ==> Get(b, q) in FindPieces(b, c)
    ensures forall x :: x in FindPieces(b, c) ==> IsPieceOf(x, c) && OnGrid(b, x)
    ensures Consistent(b) ==> forall x :: x in FindPieces(b, c) ==> x.Piece? && Get(b, x.pos) == x
  {
    FlattenFromExact(b, 0);
  }

  /** Colour `c` has a king somewhere on the board. */
  ghost predicate HasKing(b: Board, c: Color) {
    exists q: OnBoard :: IsKingOf(Get(b, q), c)
  }

  /** A king among a sequence of squares, scanning from the front. */
  function FirstKing(s: seq<Square>): (r: Option<Square>)
    ensures r.Some? ==> r.value in s && r.value.Piece? && r.value.kind == King
    ensures r.None? ==> forall x :: x in s ==> !(x.Piece? && x.kind == King)
  {
    if s == [] then None
    else if s[0].Piece? && s[0].kind == King then Some(s[0])
    else FirstKing(s[1..])
  }

  /** A king of colour `c` taken from its piece list, or nothing when that
      colour has none. */
  function FindKing(b: Board, c: Color): (r: Option<Square>)
    ensures r.Some? <==> HasKing(b, c)
    ensures r.Some? ==> IsKingOf(r.value, c)
  {
    FindPiecesExact(b, c);
    var r := FirstKing(FindPieces(b, c));
    assert r.Some? ==> HasKing(b, c) by {
      if r.Some? {
        assert OnGrid(b, r.value);
      }
    }
    r
  }

  /** On a consistent board the king found stands on the square it names. */
  lemma FindKingOnGrid(b: Board, c: Color)
    requires Consistent(b)
    requires HasKing(b, c)
    ensures Get(b, FindKing(b, c).value.pos) == FindKing(b, c).value
  {
    FindPiecesExact(b, c);
  }
}
