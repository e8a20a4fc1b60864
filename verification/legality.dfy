/** Check, move legality and checkmate.

    A move is tried on a copy of the board; since boards are values here,
    the copy is the board itself and a simulation can never alter the real
    game state.  The piece's candidate squares come from `PieceRules`.
 */
module Legality {
  import opened Pieces
  import opened Grid
  import opened Moves

  /** Colour `c` owns the square `p`: the colour read there is `c`. */
  predicate Owns(b: Board, p: OnBoard, c: Color) {
    ColorOf(Get(b, p)) == Some(c)
  }

  /** The king of `c` is attacked: some piece of the other colour has the
      king's stored position among its candidate squares. */
  predicate InCheck(rules: PieceRules, b: Board, c: Color)
    requires HasKing(b, c)
  {
    var king := FindKing(b, c).value;
    exists p :: p in FindPieces(b, Opponent(c)) && king.pos in rules.candidates(b, p.pos)
  }

  /** On a consistent board, check reads directly off the grid: an opposing
      piece on some square has the king's square among its candidates. */
  lemma InCheckIffAttacked(rules: PieceRules, b: Board, c: Color, k: OnBoard)
    requires Consistent(b)
    requires HasKing(b, c)
    requires forall q: OnBoard :: IsKingOf(Get(b, q), c) ==> q == k
    ensures InCheck(rules, b, c) <==>
      exists q: OnBoard :: IsPieceOf(Get(b, q), Opponent(c)) && k in rules.candidates(b, q)
  {
    var king := FindKing(b, c).value;
    FindKingOnGrid(b, c);
    FindPiecesExact(b, Opponent(c));
    assert king.pos == k;
    if InCheck(rules, b, c) {
      var p :| p in FindPieces(b, Opponent(c)) && king.pos in rules.candidates(b, p.pos);
      assert Get(b, p.pos) == p;
    }
    if exists q: OnBoard :: IsPieceOf(Get(b, q), Opponent(c)) && k in rules.candidates(b, q) {
      var q: OnBoard :| IsPieceOf(Get(b, q), Opponent(c)) && k in rules.candidates(b, q);
      assert Get(b, q) in FindPieces(b, Opponent(c));
    }
  }

  /** The scan over one piece's candidate squares, looking for `target`. */
  method Reaches(rules: PieceRules, b: Board, from: OnBoard, target: OnBoard) returns (hit: bool)
    ensures hit <==> target in rules.candidates(b, from)
  {
    var moves := rules.candidates(b, from);
    var rest := moves;
    while rest != {}
      invariant rest <= moves
      invariant target !in moves - rest
      decreases rest
    {
      var m :| m in rest;
      if m == target {
        return true;
      }
      rest := rest - {m};
    }
    return false;
  }

  /** The scan over a list of pieces, stopping at the first whose candidate
      squares include `target`. */
  method AttackedBy(rules: PieceRules, b: Board, pieces: seq<Square>, target: OnBoard)
    returns (hit: bool)
    requires forall j :: 0 <= j < |pieces| ==> pieces[j].Piece?
    ensures hit <==> exists p :: p in pieces && p.Piece? && target in rules.candidates(b, p.pos)
  {
    var i := 0;
    while i < |pieces|
      invariant 0 <= i <= |pieces|
      invariant forall j :: 0 <= j < i ==> target !in rules.candidates(b, pieces[j].pos)
    {
      hit := Reaches(rules, b, pieces[i].pos, target);
      if hit {
        assert pieces[i] in pieces && pieces[i].Piece?;
        return;
      }
      i := i + 1;
    }
    assert forall p :: p in pieces ==> target !in rules.candidates(b, p.pos);
    hit := false;
  }

  /** The check test as a scan: find the king, then look through the
      opposing pieces for one that reaches its square. */
  method InCheckScan(rules: PieceRules, b: Board, c: Color) returns (check: bool)
    requires HasKing(b, c)
    ensures check == InCheck(rules, b, c)
  {
    var king := FindKing(b, c).value;
    check := AttackedBy(rules, b, FindPieces(b, Opponent(c)), king.pos);
  }

  /** Moving `from` to `to` leaves colour `c` a king to look for.  It fails
      only when the move lands on `c`'s own king. */
  predicate KingKept(rules: PieceRules, b: Board, from: OnBoard, to: OnBoard, c: Color)
    requires Get(b, from).Piece?
  {
    FindKing(MovePiece(rules, b, from, to), c).Some?
  }

  /** The move does not leave colour `c` in check, judged on a simulated copy.
      A simulation that leaves `c` no king at all counts as not valid (see
      `MoveAsWritten` for what `Board#in_check?` does then). */
  predicate ValidMove(rules: PieceRules, b: Board, from: OnBoard, to: OnBoard, c: Color)
    requires Get(b, from).Piece?
  {
    KingKept(rules, b, from, to, c) && !InCheck(rules, MovePiece(rules, b, from, to), c)
  }

  /** The simulation as written out: copy the board, make the raw move on the
      copy, ask the copy whether `c` is in check.  The board handed in is a
      value, so it is the same afterwards whatever the copy went through. */
  method ValidMoveSimulated(rules: PieceRules, b: Board, from: OnBoard, to: OnBoard, c: Color)
    returns (ok: bool)
    requires Get(b, from).Piece?
    ensures ok <==> ValidMove(rules, b, from, to, c)
    ensures ok ==> HasKing(MovePiece(rules, b, from, to), c)
  {
    var dup := DupedBoard(b);
    dup := MovePiece(rules, dup, from, to);
    if FindKing(dup, c).None? {
      return false;
    }
    var check := InCheckScan(rules, dup, c);
    ok := !check;
  }

  /** Why a requested move was refused, or that it was made. */
  datatype Status = Moved | NotYourPiece | SelfCheck | IllegalDestination

  /** The board the caller holds after a request, and how the request ended. */
  datatype MoveResult = MoveResult(board: Board, status: Status)

  /** A requested move, tested in a fixed order: ownership of the source
      square, then that the mover is not left in check, then that the
      destination is among the piece's candidates.  A refused request leaves
      the board as it was; an accepted one makes the raw move. */
  function Move(rules: PieceRules, b: Board, from: OnBoard, to: OnBoard, c: Color): (r: MoveResult)
    ensures r.status != Moved ==> r.board == b
    ensures r.status == NotYourPiece <==> !Owns(b, from, c)
    ensures r.status == SelfCheck <==> Owns(b, from, c) && !ValidMove(rules, b, from, to, c)
    ensures r.status == IllegalDestination <==>
      Owns(b, from, c) && ValidMove(rules, b, from, to, c) && to !in rules.candidates(b, from)
    ensures r.status == Moved <==>
      Owns(b, from, c) && ValidMove(rules, b, from, to, c) && to in rules.candidates(b, from)
    ensures r.status == Moved ==>
      r.board == MovePiece(rules, b, from, to) && HasKing(r.board, c) && !InCheck(rules, r.board, c)
  {
    if ColorOf(Get(b, from)) != Some(c) then MoveResult(b, NotYourPiece)
    else if !ValidMove(rules, b, from, to, c) then MoveResult(b, SelfCheck)
    else if to !in rules.candidates(b, from) then MoveResult(b, IllegalDestination)
    else MoveResult(MovePiece(rules, b, from, to), Moved)
  }

  /** Some piece of the other colour has at least one candidate square. */
  predicate OpponentCanMove(rules: PieceRules, b: Board, c: Color) {
    exists p :: p in FindPieces(b, Opponent(c)) && rules.candidates(b, p.pos) != {}
  }

  /** The outcome of `Board#in_check?` (lib/board.rb:110-120), including a
      board where `c` has no king: it fails (`None`) when the king is missing
      and an opposing piece has a candidate square, and answers "not in
      check" when the king is missing and no opposing piece has one.
      `InCheckAsWrittenScan` walks the loop that gives these outcomes. */
  function InCheckAsWritten(rules: PieceRules, b: Board, c: Color): Option<bool> {
    if FindKing(b, c).Some? then Some(InCheck(rules, b, c))
    else if OpponentCanMove(rules, b, c) then None
    else Some(false)
  }

  /** The scan over one piece's candidate squares with the king as looked up,
      possibly missing.  Each candidate is compared with the king's position,
      so the first candidate reads that position, and the read fails (`None`)
      when there is no king.  With no candidates nothing is read. */
  method ReachesAsWritten(rules: PieceRules, b: Board, from: OnBoard, king: Option<Square>)
    returns (r: Option<bool>)
    requires king.Some? ==> king.value.Piece?
    ensures r.None? <==> king.None? && rules.candidates(b, from) != {}
    ensures king.Some? ==> r == Some(king.value.pos in rules.candidates(b, from))
    ensures king.None? && rules.candidates(b, from) == {} ==> r == Some(false)
  {
    var moves := rules.candidates(b, from);
    var rest := moves;
    while rest != {}
      invariant rest <= moves
      invariant king.None? ==> rest == moves
      invariant king.Some? ==> king.value.pos !in moves - rest
      decreases rest
    {
      var m :| m in rest;
      if king.None? {
        return None;
      }
      if m == king.value.pos {
        return Some(true);
      }
      rest := rest - {m};
    }
    return Some(false);
  }

  /** The scan over a list of pieces with the king as looked up, possibly
      missing: it fails at the first candidate square when the king is
      missing, and otherwise stops at the first piece that reaches the king. */
  method AttackedByAsWritten(rules: PieceRules, b: Board, pieces: seq<Square>, king: Option<Square>)
    returns (r: Option<bool>)
    requires forall j :: 0 <= j < |pieces| ==> pieces[j].Piece?
    requires king.Some? ==> king.value.Piece?
    ensures r.None? <==>
      king.None? && exists p :: p in pieces && p.Piece? && rules.candidates(b, p.pos) != {}
    ensures king.Some? ==>
      r == Some(exists p :: p in pieces && p.Piece? && king.value.pos in rules.candidates(b, p.pos))
    ensures king.None? ==> r != Some(true)
  {
    var i := 0;
    while i < |pieces|
      invariant 0 <= i <= |pieces|
      invariant king.None? ==> forall j :: 0 <= j < i ==> rules.candidates(b, pieces[j].pos) == {}
      invariant king.Some? ==> forall j :: 0 <= j < i ==> king.value.pos !in rules.candidates(b, pieces[j].pos)
    {
      var step := ReachesAsWritten(rules, b, pieces[i].pos, king);
      if step.None? || step.value {
        assert pieces[i] in pieces && pieces[i].Piece?;
        return step;
      }
      i := i + 1;
    }
    if king.None? {
      assert forall p :: p in pieces ==> rules.candidates(b, p.pos) == {};
    } else {
      assert forall p :: p in pieces ==> king.value.pos !in rules.candidates(b, p.pos);
    }
    return Some(false);
  }

  /** The check test as `Board#in_check?` loops: look the king up (it may be
      missing), then scan the opposing pieces and each one's candidates.  It
      fails exactly when the king is missing and some opposing piece has a
      candidate; with a king it is `InCheck`. */
  method InCheckAsWrittenScan(rules: PieceRules, b: Board, c: Color) returns (r: Option<bool>)
    ensures r.None? <==> !HasKing(b, c) && OpponentCanMove(rules, b, c)
    ensures HasKing(b, c) ==> r == Some(InCheck(rules, b, c))
    ensures r == InCheckAsWritten(rules, b, c)
  {
    r := AttackedByAsWritten(rules, b, FindPieces(b, Opponent(c)), FindKing(b, c));
    if !HasKing(b, c) && !OpponentCanMove(rules, b, c) {
      assert r.Some? && !r.value;
    }
  }

  /** A requested move exactly as `Board#move` (lib/board.rb:71-81) tests
      it, with the self-check test as `InCheckAsWritten` gives it on the
      simulated board.  It fails (`None`) exactly when the mover's move takes
      away its own king while an opposing piece has a candidate square.  When
      the move keeps the king (or the piece is not the mover's) it agrees with
      `Move`.  When the move takes the king and no opposing piece can move,
      the self-check test passes: the request is refused as a bad
      destination, or, when the destination is a candidate, made, and the
      mover's king is captured. */
  function MoveAsWritten(rules: PieceRules, b: Board, from: OnBoard, to: OnBoard, c: Color)
    : (r: Option<MoveResult>)
    ensures r.None? <==>
      Owns(b, from, c) && !HasKing(MovePiece(rules, b, from, to), c)
      && OpponentCanMove(rules, MovePiece(rules, b, from, to), c)
    ensures (!Owns(b, from, c) || HasKing(MovePiece(rules, b, from, to), c)) ==>
      r == Some(Move(rules, b, from, to, c))
    ensures (Owns(b, from, c) && !HasKing(MovePiece(rules, b, from, to), c)
             && !OpponentCanMove(rules, MovePiece(rules, b, from, to), c)) ==>
        r.Some? && r.value.status != SelfCheck
        && (r.value.status == IllegalDestination <==> to !in rules.candidates(b, from))
        && (r.value.status == IllegalDestination ==> r.value.board == b)
        && (r.value.status == Moved ==>
              r.value.board == MovePiece(rules, b, from, to) && !HasKing(r.value.board, c))
  {
    if ColorOf(Get(b, from)) != Some(c) then Some(MoveResult(b, NotYourPiece))
    else
      match InCheckAsWritten(rules, MovePiece(rules, b, from, to), c)
      case None => None
      case Some(check) =>
        if check then Some(MoveResult(b, SelfCheck))
        else if to !in rules.candidates(b, from) then Some(MoveResult(b, IllegalDestination))
        else Some(MoveResult(MovePiece(rules, b, from, to), Moved))
  }

  /** A request that would land a non-king piece on the square of its own
      colour's only king is refused as leaving that colour in check, with the
      board unchanged, instead of failing. */
  lemma OntoOwnKingRefused(rules: PieceRules, b: Board, from: OnBoard, to: OnBoard, c: Color)
    requires Owns(b, from, c) && Get(b, from).kind != King
    requires forall q: OnBoard :: IsKingOf(Get(b, q), c) <==> q == to
    ensures Move(rules, b, from, to, c) == MoveResult(b, SelfCheck)
  {
    assert IsKingOf(Get(b, to), c);
    var r := MovePiece(rules, b, from, to);
    forall q: OnBoard
      ensures !IsKingOf(Get(r, q), c)
    {
      if q != from && q != to {
        assert Get(r, q) == Get(b, q);
      }
    }
  }

  /** A white king on (0, 4), a white rook on (0, 0) and a black king on
      (7, 4), nothing else. */
  function KingsAndRook(): Board {
    var kings := Set(Set(EmptyBoard(), Pos(0, 4), Piece(King, White, Pos(0, 4))),
                     Pos(7, 4), Piece(King, Black, Pos(7, 4)));
    Set(kings, Pos(0, 0), Piece(Rook, White, Pos(0, 0)))
  }

  /** The board after the rook on (0, 0) is moved onto its own king on (0, 4):
      the black king is the only king left. */
  lemma RookOnKingSquare(rules: PieceRules)
    ensures !HasKing(MovePiece(rules, KingsAndRook(), Pos(0, 0), Pos(0, 4)), White)
    ensures Get(MovePiece(rules, KingsAndRook(), Pos(0, 0), Pos(0, 4)), Pos(7, 4))
         == Piece(King, Black, Pos(7, 4))
  {
    var b := KingsAndRook();
    var r := MovePiece(rules, b, Pos(0, 0), Pos(0, 4));
    forall q: OnBoard
      ensures !IsKingOf(Get(r, q), White)
    {
      if q != Pos(0, 0) && q != Pos(0, 4) {
        assert Get(r, q) == Get(b, q);
      }
    }
    assert Get(r, Pos(7, 4)) == Get(b, Pos(7, 4));
  }

  /** Asking to move the rook onto its own king while the black king has a
      candidate square on the simulated board: `Board#move` fails reading the
      position of the white king it cannot find, instead of refusing the
      move; `Move` refuses it as a self-check and leaves the board alone. */
  lemma RookOntoOwnKing(rules: PieceRules)
    requires rules.candidates(MovePiece(rules, KingsAndRook(), Pos(0, 0), Pos(0, 4)), Pos(7, 4)) != {}
    ensures MoveAsWritten(rules, KingsAndRook(), Pos(0, 0), Pos(0, 4), White).None?
    ensures Move(rules, KingsAndRook(), Pos(0, 0), Pos(0, 4), White) == MoveResult(KingsAndRook(), SelfCheck)
  {
    var r := MovePiece(rules, KingsAndRook(), Pos(0, 0), Pos(0, 4));
    RookOnKingSquare(rules);
    FindPiecesExact(r, Black);
    assert Get(r, Pos(7, 4)) in FindPieces(r, Opponent(White));
  }

  /** The same request when the black king has no candidate square on the
      simulated board and (0, 4) is not a rook candidate: `Board#move` does
      not fail but refuses the move as a bad destination. */
  lemma RookOntoOwnKingUnopposed(rules: PieceRules)
    requires rules.candidates(MovePiece(rules, KingsAndRook(), Pos(0, 0), Pos(0, 4)), Pos(7, 4)) == {}
    requires Pos(0, 4) !in rules.candidates(KingsAndRook(), Pos(0, 0))
    ensures MoveAsWritten(rules, KingsAndRook(), Pos(0, 0), Pos(0, 4), White)
         == Some(MoveResult(KingsAndRook(), IllegalDestination))
  {
    var r := MovePiece(rules, KingsAndRook(), Pos(0, 0), Pos(0, 4));
    RookOnKingSquare(rules);
    BlackKingAlone(rules);
    FindPiecesExact(r, Black);
    assert !OpponentCanMove(rules, r, White);
  }

  /** After the rook lands on (0, 4), the black king on (7, 4) is the only
      black piece on the board. */
  lemma BlackKingAlone(rules: PieceRules)
    ensures forall q: OnBoard ::
      IsPieceOf(Get(MovePiece(rules, KingsAndRook(), Pos(0, 0), Pos(0, 4)), q), Black) ==> q == Pos(7, 4)
  {
    var b := KingsAndRook();
    var r := MovePiece(rules, b, Pos(0, 0), Pos(0, 4));
    forall q: OnBoard | IsPieceOf(Get(r, q), Black)
      ensures q == Pos(7, 4)
    {
      if q != Pos(0, 0) && q != Pos(0, 4) {
        assert Get(r, q) == Get(b, q);
      }
    }
  }

  /** Moves keep the board consistent, accepted or refused. */
  lemma MovePreservesConsistent(rules: PieceRules, b: Board, from: OnBoard, to: OnBoard, c: Color)
    requires Consistent(b)
    ensures Consistent(Move(rules, b, from, to, c).board)
  {
    if Move(rules, b, from, to, c).status == Moved {
      MovePiecePreservesConsistent(rules, b, from, to);
    }
  }

  /** The move generator never offers a piece its own square, nor a square
      held by a piece of its own colour. */
  ghost predicate NoSelfTarget(rules: PieceRules, b: Board) {
    forall from: OnBoard, to: OnBoard ::
      to in rules.candidates(b, from) && Get(b, from).Piece? ==>
        to != from && !IsPieceOf(Get(b, to), Get(b, from).color)
  }

  /** With such a generator no candidate move takes away its own king, so on
      candidate moves the no-king rule of `ValidMove` never applies and the
      simulation is exactly the check test. */
  lemma NoSelfTargetKeepsKing(rules: PieceRules, b: Board, c: Color)
    requires NoSelfTarget(rules, b)
    requires HasKing(b, c)
    ensures forall from: OnBoard, to: OnBoard ::
      Owns(b, from, c) && to in rules.candidates(b, from) ==> KingKept(rules, b, from, to, c)
  {
    forall from: OnBoard, to: OnBoard | Owns(b, from, c) && to in rules.candidates(b, from)
      ensures KingKept(rules, b, from, to, c)
    {
      var r := MovePiece(rules, b, from, to);
      assert to != from;
      if IsKingOf(Get(b, from), c) {
        assert IsKingOf(Get(r, to), c);
      } else {
        var g: OnBoard :| IsKingOf(Get(b, g), c);
        assert g != from && g != to;
        assert IsKingOf(Get(r, g), c);
      }
    }
  }

  /** Some candidate move of the piece on `from` leaves `c` out of check. */
  predicate CanEscape(rules: PieceRules, b: Board, from: OnBoard, c: Color)
    requires Get(b, from).Piece?
  {
    exists t :: t in rules.candidates(b, from) && ValidMove(rules, b, from, t, c)
  }

  /** The inner search: each candidate of one piece, simulated in turn,
      stopping at the first that leaves `c` out of check. */
  method EscapeScan(rules: PieceRules, b: Board, from: OnBoard, c: Color) returns (escape: bool)
    requires Get(b, from).Piece?
    ensures escape == CanEscape(rules, b, from, c)
  {
    var moves := rules.candidates(b, from);
    var rest := moves;
    while rest != {}
      invariant rest <= moves
      invariant forall t :: t in moves - rest ==> !ValidMove(rules, b, from, t, c)
      decreases rest
    {
      var t :| t in rest;
      var ok := ValidMoveSimulated(rules, b, from, t, c);
      if ok {
        return true;
      }
      rest := rest - {t};
    }
    assert moves - rest == moves;
    return false;
  }

  /** Colour `c` is in check and none of its pieces has a candidate move that
      gets it out of check. */
  predicate Checkmate(rules: PieceRules, b: Board, c: Color)
    requires Consistent(b)
    requires HasKing(b, c)
  {
    FindPiecesExact(b, c);
    && InCheck(rules, b, c)
    && forall p :: p in FindPieces(b, c) ==> !CanEscape(rules, b, p.pos, c)
  }

  /** The outer search over the squares of a list of pieces: true when none
      of them can escape, stopping at the first that can. */
  method NoneEscapes(rules: PieceRules, b: Board, froms: seq<OnBoard>, c: Color) returns (stuck: bool)
    requires forall j :: 0 <= j < |froms| ==> Get(b, froms[j]).Piece?
    ensures stuck <==> forall j :: 0 <= j < |froms| ==> !CanEscape(rules, b, froms[j], c)
  {
    var i := 0;
    while i < |froms|
      invariant 0 <= i <= |froms|
      invariant forall j :: 0 <= j < i ==> !CanEscape(rules, b, froms[j], c)
    {
      var escape := EscapeScan(rules, b, froms[i], c);
      if escape {
        return false;
      }
      i := i + 1;
    }
    return true;
  }

  /** The search as written: give up unless in check, then try every candidate
      of every piece of `c` on a simulated copy, stopping at the first that
      escapes check. */
  method CheckmateScan(rules: PieceRules, b: Board, c: Color) returns (mate: bool)
    requires Consistent(b)
    requires HasKing(b, c)
    ensures mate == Checkmate(rules, b, c)
    ensures mate ==> InCheck(rules, b, c)
  {
    var check := InCheckScan(rules, b, c);
    if !check {
      return false;
    }
    var pieces := FindPieces(b, c);
    FindPiecesExact(b, c);
    var froms := seq(|pieces|, j requires 0 <= j < |pieces| => pieces[j].pos);
    forall j | 0 <= j < |froms|
      ensures Owns(b, froms[j], c)
    {
      assert pieces[j] in pieces;
    }
    mate := NoneEscapes(rules, b, froms, c);
    if mate {
      forall p | p in pieces
        ensures !CanEscape(rules, b, p.pos, c)
      {
        var j :| 0 <= j < |pieces| && pieces[j] == p;
        assert froms[j] == p.pos;
      }
    }
  }

  /** Checkmate is exactly: in check, and every requested move of a candidate
      square is refused. */
  lemma CheckmateIffNoMoveAccepted(rules: PieceRules, b: Board, c: Color)
    requires Consistent(b)
    requires HasKing(b, c)
    ensures Checkmate(rules, b, c) <==>
      InCheck(rules, b, c) &&
      forall from: OnBoard, to: OnBoard :: to in rules.candidates(b, from) ==>
        Move(rules, b, from, to, c).status != Moved
  {
    FindPiecesExact(b, c);
    if Checkmate(rules, b, c) {
      forall from: OnBoard, to: OnBoard | to in rules.candidates(b, from)
        ensures Move(rules, b, from, to, c).status != Moved
      {
        if Owns(b, from, c) {
          assert Get(b, from) in FindPieces(b, c);
        }
      }
    }
    if InCheck(rules, b, c) &&
      forall from: OnBoard, to: OnBoard :: to in rules.candidates(b, from) ==>
        Move(rules, b, from, to, c).status != Moved
    {
      forall p | p in FindPieces(b, c)
        ensures !CanEscape(rules, b, p.pos, c)
      {
        assert Get(b, p.pos) == p;
        forall t | t in rules.candidates(b, p.pos)
          ensures !ValidMove(rules, b, p.pos, t, c)
        {
          assert Move(rules, b, p.pos, t, c).status != Moved;
        }
      }
    }
  }
}
