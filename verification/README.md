# Chess board rules core, modelled in Dafny

This project models `Board`, the rules core of a terminal chess game. The board is an 8x8 grid of squares, indexed by (row, col). Each square is empty or holds a piece that remembers its colour, its class and its own position. The board provides:

- reading and writing squares, and the bounds test;
- a deep copy used to try moves out;
- the raw move, with pawn promotion;
- move requests, which fail in a fixed order;
- check, checkmate and the legal-move list;
- the most valuable capture and the material scores;
- the opening set-up.

Boards are immutable values (`Grid.Board`, a `seq<seq<Square>>` of shape 8x8). Every mutating operation of `Board` is a function that returns the new board. A position is `Pieces.Pos`. `Pieces.OnBoard` is the subset of positions that name one of the 64 squares.

The piece classes are not part of this model. What the board asks of them is passed in as a `Moves.PieceRules` value:

- the candidate squares of the piece standing on a square;
- whether a pawn has reached its promotion rank;
- the value of each piece class.

Every property below holds for all such rules.

Modules:

- `Pieces`: colours, piece classes, positions, square contents.
- `Grid`: the board and its read-only queries: `[]`/`[]=`, `duped_board`, `find_pieces`, `find_king`, `opponent`, `in_bounds?`.
- `Moves`: `move_piece!` and `check_pawn_promotion`.
- `Legality`: `in_check?`, `valid_move?`, `move`, `checkmate?`.
- `Queries`: `all_moves`, `max_capture_value`, `scores`.
- `Setup`: the position tables, `set_up_pieces` and `initialize`.

The loops of `in_check?`, `checkmate?`, `max_capture_value` and `duped_board`, and the steps of `valid_move?`, are written as Dafny methods that follow the same scan. Each is proved equal to a declarative definition:

- `InCheckScan`, with `AttackedBy` and `Reaches`;
- `InCheckAsWrittenScan`, with `AttackedByAsWritten` and `ReachesAsWritten`, for a colour that may have no king;
- `EscapeScan`, `NoneEscapes` and `CheckmateScan`;
- `ValidMoveSimulated`;
- `MaxCaptureOver`;
- `DupedBoard`.

The loops of `all_moves`, `scores` and `set_up_pieces` are written as a set comprehension and recursive functions instead.

Lemmas connect the operations to each other. For example, a listed move is exactly a request that `move` accepts, and checkmate is exactly "in check with an empty move list".

## Behaviour worth noting

- **A raw move onto its own square.** `move_piece!` writes `to` first and then empties `from`. When the two are the same square, that square ends up empty, unless the piece promotes. `Moves.MovePiece` states this case separately.
- **Candidate destinations in `all_moves`.** `all_moves` only walks each piece's `possible_moves`, so every listed destination is a candidate square of its piece. `Queries.AllMovesExact` proves it.
- **Empty score list.** `scores` sums with `inject(:+)`, which gives `nil` for a colour with no pieces. The model gives 0; see `Queries.Scores` below.

## Model

| member | source | states |
|---|---|---|
| `Grid.Set` | lib/board.rb:33-41 | Reading a square just written gives the value written; every other square reads as before. |
| `Grid.InBoundsOn` | lib/board.rb:126-128 | The per-coordinate test against the grid length accepts a position exactly when both coordinates are in 0..7, and the grid then has a square there. |
| `Grid.DupedBoard` | lib/board.rb:61-69 | The square-by-square copy into a fresh empty board equals the original, so a simulation on the copy cannot change the original. |
| `Grid.Opponent` | lib/board.rb:122-124 | The opponent of a colour is a different colour. |
| `Grid.OpponentInvolution` | lib/board.rb:122-124 | Taking the opponent twice gives back the colour. |
| `Grid.Select` | lib/board.rb:103 | The filter keeps exactly the squares holding a piece of the colour, and nothing longer than its input. |
| `Grid.FindPieces` | lib/board.rb:102-104 | Every listed square is a piece of the requested colour. |
| `Grid.FindPiecesExact` | lib/board.rb:102-104 | The list holds every piece of that colour on the board and only pieces on the board; on a consistent board each stands on the square it names. |
| `Grid.FindKing` | lib/board.rb:106-108 | A king is found exactly when the colour has a king on the board, and what is found is a king of that colour. |
| `Grid.FindKingOnGrid` | lib/board.rb:106-108 | On a consistent board the king found stands on the square its position names. |
| `Moves.CheckPawnPromotion` | lib/board.rb:172-177 | A promoted pawn becomes a queen of its colour on its own square; in every other case the board is unchanged; other squares never change. |
| `Moves.MovePiece` | lib/board.rb:164-170 | Only the two named squares change. The source becomes empty when it differs from the destination. The destination holds the mover with position updated, or a queen of its colour when it promotes, or nothing for a non-promoting move onto its own square. |
| `Moves.MovePiecePreservesConsistent` | lib/board.rb:164-170 | The raw move keeps every stored position equal to the square holding it. |
| `Legality.Reaches` | lib/board.rb:115-117 | The scan over one piece's candidate squares finds the target exactly when the target is among them. |
| `Legality.AttackedBy` | lib/board.rb:114-119 | The scan over a list of pieces returns true exactly when some piece in the list has the target among its candidates, and false when none does. |
| `Legality.InCheckScan` | lib/board.rb:110-120 | The scan over opposing pieces and their candidates returns true exactly when some opposing piece has the king's position among its candidates, which is the declarative `Legality.InCheck`. |
| `Legality.InCheckIffAttacked` | lib/board.rb:110-120 | On a consistent board whose only king of the colour stands on `k`, check holds exactly when a piece of the other colour on some square has `k` among its candidates. |
| `Legality.ValidMoveSimulated` | lib/board.rb:83-87 | Copy, raw move and check test give true exactly when the declarative `Legality.ValidMove` holds, that is, when the simulated move keeps the mover's king and leaves it unattacked; the board passed in is a value and is never changed. A simulation that leaves the mover no king gives false: this case is the correction listed under "## Findings", where the source fails or answers "not in check". |
| `Legality.Move` | lib/board.rb:71-81 | Failures are tested in order: not the mover's piece, then leaves the mover in check, then destination not a candidate. Each status holds exactly in its case. A refused request leaves the board unchanged. An accepted one is the raw move and leaves the mover with a king not in check. |
| `Legality.ReachesAsWritten` | lib/board.rb:115-117 | The scan over one piece's candidates, with a king that may be missing: with a king it reports whether the king's position is a candidate; without one it fails exactly when the piece has a candidate, since the first candidate reads the missing king's position, and otherwise answers false. |
| `Legality.AttackedByAsWritten` | lib/board.rb:114-119 | The scan over a list of pieces, with a king that may be missing: without a king it fails exactly when some listed piece has a candidate and never reports an attack; with a king it reports whether some listed piece has the king's position among its candidates. |
| `Legality.InCheckAsWrittenScan` | lib/board.rb:110-120 | The check test as the source loops: it fails exactly when the colour has no king and some opposing piece has a candidate square. With a king it equals `InCheck`, and without a king and without opposing candidates it answers "not in check". |
| `Legality.MoveAsWritten` | lib/board.rb:71-87 | The request as the source evaluates it fails exactly when the mover's move takes its own king while an opposing piece has a candidate square. It agrees with `Move` whenever the move keeps the king. When the king is taken and no opposing piece can move, it never reports self-check: it refuses the request as a bad destination, or makes the move and the own king is captured. |
| `Legality.OntoOwnKingRefused` | lib/board.rb:71-87 | A non-king piece sent onto its colour's only king is refused as a self-check, with the board unchanged. |
| `Legality.RookOntoOwnKing` | lib/board.rb:71-87 | Board: white king on (0,4), white rook on (0,0), black king on (7,4). If the black king has a candidate square after the rook lands on (0,4), moving the rook onto its own king makes the as-written request fail, and `Move` refuses it. |
| `Legality.RookOntoOwnKingUnopposed` | lib/board.rb:71-87 | On the same board, if the black king has no candidate square and (0,4) is not a rook candidate, the as-written request does not fail; it refuses the move as a bad destination. |
| `Legality.MovePreservesConsistent` | lib/board.rb:71-81 | Requests, accepted or refused, keep the board consistent. |
| `Legality.NoSelfTargetKeepsKing` | lib/board.rb:83-87 | When candidates never include the own square or a square of the own colour, every candidate move keeps the mover's king, so the simulation is exactly the check test. |
| `Legality.EscapeScan` | lib/board.rb:93-97 | The inner scan over one piece's candidates returns true exactly when some candidate is a valid move. |
| `Legality.NoneEscapes` | lib/board.rb:91-99 | The outer scan returns true exactly when no listed piece has a valid candidate move. |
| `Legality.CheckmateScan` | lib/board.rb:89-100 | The early-exit search returns exactly the declarative `Legality.Checkmate` (in check, no piece of the colour has a valid candidate move), and checkmate implies check. |
| `Legality.CheckmateIffNoMoveAccepted` | lib/board.rb:89-100 | Checkmate holds exactly when the colour is in check and every request of a candidate move is refused by `move`. |
| `Queries.AllMoves` | lib/board.rb:179-188 | Every listed pair moves a piece of the colour to one of its candidate squares, and the simulated move is valid. |
| `Queries.AllMovesExact` | lib/board.rb:179-188 | A pair is listed exactly when the mover owns the source, the destination is one of its candidates, and the simulated move is valid. |
| `Queries.AllMovesAreAcceptedMoves` | lib/board.rb:179-188 | A pair is listed exactly when the request of that move would be accepted. |
| `Queries.CheckmateIffNoMoves` | lib/board.rb:89-100 | Checkmate holds exactly when the colour is in check and its move list is empty. |
| `Queries.MaxCaptureOver` | lib/board.rb:190-200 | The scan from 0 returns a value that is at least 0, at least the value of every capturable piece, and, unless 0, the value of one of them. |
| `Queries.MaxCaptureValue` | lib/board.rb:190-200 | Over the legal moves, the result is at least 0, bounds every capture value, and is 0 or the value of some capture. |
| `Queries.Scores` | lib/board.rb:202-212 | The result has exactly one entry per colour. |
| `Queries.ScoresAreMaterial` | lib/board.rb:202-212 | A colour's score equals its material counted square by square, row by row. |
| `Setup.PlaceAll` | lib/board.rb:132-149 | Each listed square receives a fresh piece of the class and colour that records that square; nothing else changes. |
| `Setup.PositionsExact` | lib/board.rb:7-23 | A position table lists a square under a class exactly when the standard layout puts that class of that colour there. |
| `Setup.SetUpPiecesSquare` | lib/board.rb:130-150 | Placing one colour's army with `Setup.SetUpPieces` puts its starting piece on each of its starting squares and leaves every other square as it was. |
| `Setup.SetUpBothIsStandard` | lib/board.rb:27-31 | White's army then black's, on an empty board, give the standard opening position. |
| `Setup.StandardWellFormed` | lib/board.rb:7-23 | The opening position is consistent and holds both kings. |
| `Setup.NewBoard` | lib/board.rb:27-31 | Without set-up every square is empty. With set-up the board is the opening position, consistent, and holds both kings. |
| `Setup.StandardScoresEqual` | lib/board.rb:7-23 | In the opening position both colours score the same, whatever the piece values. |
| `Setup.NewBoardScoresEqual` | lib/board.rb:27-31 | A board built with set-up gives both colours equal scores. |

## Left out

- `inspect` and `render`: they only print or format the grid for display.
- `piece_at`, `color_at` and `occupied?`: one-line readers of a square; `Grid.Get` and `Pieces.ColorOf` stand for them.
- The shuffle at the end of `all_moves`: its order is random. The list is modelled as a set of (from, to) pairs.
- The piece classes (`pieces/index`): not part of this model. Move generation, promotion rank and values are the parameters in `Moves.PieceRules`. A piece carries no state beyond its class, colour and position. The piece's `update_position` is modelled as setting its stored position and nothing else (`Moves.MovePiece`). The piece's `dup` is the identity, because squares are values. The pieces' back-references to the board are left out: the board is passed to `PieceRules.candidates` instead.
- The exception classes (`error.rb`) and their message strings: refused requests return a `Legality.Status` instead.
- `require 'byebug'` and the commented-out `debugger` call: debugging aids.
- `Queries.Scores`: gives 0 for a colour with no pieces, where `inject(:+)` over an empty list gives `nil`.
- `Queries.Scores`: has no step for dropping pieces whose value is `nil`, because values here are total (`Kind -> int`).
- `Legality.InCheckScan`: requires that the colour has a king. Without one, the source fails reading the missing king's position as soon as an opposing piece has a candidate square, and answers "not in check" when no opposing piece has any. `Legality.InCheckAsWrittenScan` models both outcomes. The same requirement sits on `Legality.InCheck`, `Legality.Checkmate` and `Legality.CheckmateScan`.
- Positions outside rows and columns 0..7: excluded by the type `Pieces.OnBoard`, for every square read or written and for every candidate square the piece rules return. In the source, `grid[row][col]` takes any pair: a negative index counts from the end (`grid[-1]` is row 7), a row past 7 gives `nil` and the next index fails, and a column past 7 gives `nil`, whose `.color` then fails in `move`. Out-of-range access is a caller error; callers are expected to test positions with `in_bounds?` first.
- `Moves.MovePiece`: requires a piece on the source square, because moving from an empty square calls the empty square's own `update_position`, which is not part of this model.
- `Legality.CheckmateScan`: requires a consistent board, where every piece's stored position is the square holding it. The source looks pieces up by their stored position, and every board this model builds is consistent. The same holds for `Queries.AllMovesExact`, `Queries.MaxCaptureValue` and `Queries.CheckmateIffNoMoves`.
- Stalemate: not distinguished from other positions, as in the source. Checkmate requires being in check.
- Games played with concrete piece rules: these need the piece classes, which are abstract here.

## Findings

| source | as written | input that shows it | evidently intended | confidence | as-written member | corrected member |
|---|---|---|---|---|---|---|
| lib/board.rb:83-87 | `valid_move?` makes the raw move on a copy, then `in_check?` scans the opposing pieces' candidates. It reads the position of the king it found (line 116) at the first candidate. When the moved piece landed on its own king, no king is found, and if any opposing piece has a candidate square, `move` (lines 71-81) fails on a `nil` receiver instead of raising `InvalidMove`. | White king on (0,4), white rook on (0,0), black king on (7,4) with at least one candidate square, `move([0, 0], [0, 4], :white)` | The request is refused as invalid and the board is unchanged. | medium; not executed | `Legality.MoveAsWritten`, `Legality.RookOntoOwnKing` | `Legality.Move`, `Legality.OntoOwnKingRefused`, `Legality.ValidMoveSimulated` |

When no opposing piece has a candidate, the source does not fail. It goes on to the destination test (`Legality.RookOntoOwnKingUnopposed`), and it makes the move, capturing the own king, if the destination is a candidate.

The corrected behaviour lives in `Legality.ValidMove`: a simulation that leaves the mover without a king counts as not valid. This makes `Move`, `Checkmate` and `AllMoves` defined on every consistent board that has the mover's king. `Legality.NoSelfTargetKeepsKing` shows that the correction changes nothing for candidate moves of any move generator that never targets its own colour.
