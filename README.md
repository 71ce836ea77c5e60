# chess_engine core in Dafny

This project models the engine part of a small Bevy chess program
(`src/main.rs`). It covers five things:

- the piece-square tables;
- the static evaluator `evaluate_board`, which reads the FEN string the board
  prints as;
- the FEN placement decode `spawn_board_from_fen_string`, which places the
  piece sprites;
- the look-ahead `minmax` and the move-selection loop of `bot_algorithm`;
- the square helper `coords_to_square` and the two-click move entry of
  `player`, in which the first click records the origin and the second makes
  the move.

The chess library (the `chess` crate) is not modelled. It appears as
parameters:

- a board type `B`;
- the legal-move generator `legal` (`MoveGen::new_legal`);
- the successor function `apply` (`Board::make_move`);
- the legality test `isLegal` (`Board::legal`);
- the FEN printer `fen` (`Board::to_string`);
- the side to move `sideToMove`.

Modules, in dependency order:

- `Text`: Rust's `split` on one character, its inverse `Join`, ASCII case
  swapping and reversal.
- `Fen`: the split of a FEN string's placement field into ranks. The
  evaluator and the decoder both use it.
- `Tables`: the six weight tables, copied exactly from the source. The source
  indexes them `[x - 1][y - 1]`, with x the position within a rank and y the
  rank number. The model keeps that indexing.
- `Pieces`: the twelve FEN piece letters, their kinds and their colours.
- `Evaluator`: `evaluate_board`. It is an imperative method proved equal to the
  specification function `Evaluation`. The properties proved about `Evaluation`
  are a ±3200 bound, which rules out `i32` overflow, and colour symmetry.
  Two quirks of the source are kept as written:
  - The position x advances once per character, even for a digit. A digit run
    therefore counts as one position.
  - A White `R` is scored from `KNIGHT_EVAL` and a White `N` from `ROOK_EVAL`.

  Colour symmetry is proved for placement fields that contain no `R`, `r`,
  `N` or `n`. `RookBreaksColourSymmetry` gives one board with a rook on
  which it fails. On some other boards with rooks it still holds, where the
  two tables happen to agree on the rook's square.
- `FenDecode`: the placement loop of `spawn_board_from_fen_string`. It is an
  imperative method proved to produce the reverse of `Placements(fen)`.
  `Placements` is a specification function; each spawned sprite is modelled as
  a `PiecePlacement`, and the list is built with `insert(0, ...)`, which is why
  the result comes out reversed. The lemmas show:
  - every piece letter yields exactly one placement, and nothing else does;
  - the placements are ordered by rank and then by file;
  - a digit skips that many files.
- `Squares`: squares, `ChessMove`, and `coords_to_square`.
- `Search`:
  - `minmax` is proved to return `LineValue`: the evaluation at the end of the
    line that always plays the first legal move, or 0 if the line gets stuck.
  - The selection loop of `bot_algorithm` is proved to return `Select`.
  - `Select` is shown to pick the first maximal-scoring move, or
    `ChessMove::default()` when no score exceeds -2000.
- `Game`: the `Chess` resource as a class. It has the fields `board`, `moving`
  and `startingSquare`. There are two methods:
  - the bot's turn (`BotAlgorithm`);
  - a click (`Click`).

## Model

| member | source | states |
|---|---|---|
| Tables.AllTables | src/main.rs:11-63 | each of the six piece-square tables is 8x8, with every weight between -50 and 50 |
| Tables.Lookup | src/main.rs:211-222 | indexing a table at 1-based x and y in 1..8 yields a weight within ±50 |
| Pieces.LetterRoundTrip | src/main.rs:107-119 | the twelve FEN letters correspond one to one with the (kind, colour) pairs; upper case is White |
| Pieces.SwapCaseLetter | src/main.rs:107-119 | swapping a letter's case keeps it a piece letter of the same kind and flips its colour |
| Evaluator.TableForKind | src/main.rs:210-222 | each letter is scored from its own kind's table, except that White R reads the knight table and White N reads the rook table |
| Evaluator.EvaluateBoard | src/main.rs:198-229 | the nested loop over ranks and characters returns `Evaluation(fen)`: the sum, over every piece letter at character position x of rank y, of +table[x-1][y-1] for White and -table[x-1][y-1] for Black; other characters add nothing. A loop invariant keeps the accumulator within ±3200 after every step |
| Evaluator.CharEvalArms | src/main.rs:210-223 | the per-character contribution agrees with each of the twelve match arms and with the fallback arm |
| Evaluator.WellShapedIsSafe | src/main.rs:203-213 | a placement field of at most 8 ranks of at most 8 characters never indexes a table out of bounds |
| Evaluator.EvaluationBound | src/main.rs:198-229 | every evaluation lies in -3200..3200, so the result fits in `i32` |
| Evaluator.PartialEvalBound | src/main.rs:205-222 | every partial sum the accumulator holds after the first i characters of a rank lies in -3200..3200, so none of the `i32` additions or subtractions overflows |
| Fen.RanksJoin | src/main.rs:99-100 | joining the ranks with `/` gives back the placement field, which holds no space |
| Evaluator.RanksEvalNegated | src/main.rs:205-226 | lists of ranks whose scores are negated rank by rank have negated totals |
| Evaluator.ColourSwapNegates | src/main.rs:210-222 | on a placement field with no rook or knight, swapping the case of every letter negates the evaluation (and stays in bounds) |
| Evaluator.RookBreaksColourSymmetry | src/main.rs:213-218 | a lone White rook scores -50 and a lone Black rook 0, so swapping colours does not negate the score |
| Evaluator.DigitRunCountsAsOnePosition | src/main.rs:207-209 | in the rank "3P4" the pawn is scored at position 2 (the digit run counts as one position) |
| FenDecode.SpawnBoardFromFen | src/main.rs:97-123 | clearing the list and then prepending one placement per piece letter yields exactly the reverse of the placements in encounter order |
| FenDecode.SpawnRank | src/main.rs:104-121 | the per-rank loop prepends the rank's placements in reverse order in front of the existing list; the file advances by one per letter and by d per digit d |
| FenDecode.LetterArms | src/main.rs:107-120 | each of the twelve match arms spawns the kind and colour its letter names; every other character is a non-letter |
| FenDecode.RowPlacementsExact | src/main.rs:105-121 | a rank's placements are exactly one per piece letter, at the file after the squares already described |
| FenDecode.RowPlacementsOrdered | src/main.rs:104-121 | a rank's placements carry its rank number, lie on files 1..Width(row) and have strictly increasing files |
| FenDecode.RanksPlacementsOrdered | src/main.rs:101-123 | all placements are sorted by rank and then by file, each lies within its rank's width, and so no square is placed twice |
| FenDecode.RanksPlacementsExact | src/main.rs:101-123 | every placement belongs to some rank j with y = j + 1, and every placement of every rank is present |
| FenDecode.PlacementsOnBoard | src/main.rs:101-121 | at most 8 ranks, each describing at most 8 squares, give only placements on the 8x8 board |
| FenDecode.DigitSkipsSquares | src/main.rs:120 | a piece right after digit d lands d files beyond the squares described before the digit |
| FenDecode.DecodeHonoursRunLength | src/main.rs:105-120 | the rank "3P4" places a single White pawn on file 4 of rank 1 |
| Squares.CoordsToSquare | src/main.rs:248-263 | for x, y in 1..8 the result is the valid square at file x-1 and rank y-1, whose name is the file letter followed by the digit y |
| Squares.NameRoundTrip | src/main.rs:261 | parsing a square's two-character name gives the square back, and naming a parsed square gives the name back |
| Squares.CoordsToSquareBijective | src/main.rs:248-262 | the 64 coordinate pairs and the 64 squares correspond one to one |
| Search.Minmax | src/main.rs:175-196 | the result is the evaluation of the board reached by playing the first legal move depth times, or 0 if some board on the way has no legal move |
| Search.FollowCompose | src/main.rs:180-188 | following m + n first moves is following m and then n more |
| Search.FollowStuck | src/main.rs:178-195 | the line of first moves gets stuck exactly when one of its boards has no legal move |
| Search.LineValueOne | src/main.rs:186-195 | a one-ply look-ahead evaluates the board after the first legal move, or returns 0 without one |
| Search.LineValueBound | src/main.rs:175-196 | every look-ahead value lies in -3200..3200 |
| Search.SelectMove | src/main.rs:152-167 | the loop scores every legal move with `minmax(DEPTH, ...)` and returns `Select` of the moves and scores |
| Search.SelectBelowInitial | src/main.rs:152-167 | when no score exceeds -2000 the result is `ChessMove::default()` with best_eval -2000 |
| Search.SelectFirstMax | src/main.rs:152-167 | when some score exceeds -2000 the result is the first move of maximal score, together with that score |
| Search.FirstMaxExtend | src/main.rs:163-166 | one more score either keeps the first maximum or, when strictly greater, becomes the new first maximum |
| Search.SelectedMoveIsCandidate | src/main.rs:152-170 | the applied move is a legal move unless it is the default move at -2000 |
| Game.PromotionFor | src/main.rs:281-284 | a clicked move promotes exactly when the destination rank is 1, and then always to a Queen |
| Game.Chess.constructor | src/main.rs:65-72 | the default resource holds the given board, no gesture in progress and the default square |
| Game.Chess.BotAlgorithm | src/main.rs:147-173 | when White is to move and the trigger fires, exactly the selected move is applied to the board; otherwise the board is unchanged |
| Game.Chess.Click | src/main.rs:277-295 | the first click records the square and starts a gesture; the second builds the move, applies it only if legal, and always ends the gesture |
| Game.TwoClicks | src/main.rs:277-295 | two clicks from rest attempt exactly one move, from the first square to the second, and end at rest |

## Left out

- Rendering is not modelled, because it only draws. This covers Bevy's
  `setup`, `spawn_piece`, `render_pieces`, `render_first_pieces`, the sprite
  despawning and `main`. A spawned sprite is modelled as the placement it is
  spawned with.
- The `Entity` handles of the `pieces` list are not modelled. The list is
  returned as a sequence of placements rather than stored in the resource.
- `old_board` is not modelled, because it only throttles re-rendering.
- `board_to_screen_coords`, `screen_to_board_coords` and the window and cursor
  lookups are not modelled. They are `f32` screen geometry. `Click` takes the
  board coordinates directly.
- `BotAlgorithm` takes the random trigger, `gen_range(0..24) ==
  gen_range(0..24)`, as a boolean parameter, because randomness cannot be
  modelled. `rand_moves` plays a random move that way and is not used by the
  engine, so it is not modelled.
- The chess library's move generation, move application, legality test and FEN
  printing are parameters. Their internals belong to the library, not to this
  program.
- `println!` output and the `piece_on` lookup are not modelled. They are debug
  output only.
- The source panics in four places, and each is modelled as a precondition:
  - `evaluate_board` on an out-of-range table index (`Safe`);
  - the decoder's `unwrap` on a character that is neither a letter nor a digit
    (`FenDecodable`);
  - `coords_to_square` outside 1..8;
  - `minmax` with depth 0, which underflows a `u16`.
- SpawnRank: the decoder's `i8` file counter `x` and its `i8` rank counter
  `y` (src/main.rs:101-104, passed to `spawn_piece` at src/main.rs:83) are
  unbounded integers here. Wrap-around on more than 127 ranks or squares is
  therefore not modelled.
- Search.Minmax: `Board::to_string` is assumed to print every board with a
  placement field of at most 8 ranks of at most 8 characters (`FenSafe`). This
  holds for every FEN of a chess position, but it is a property of the library
  and is not proved here. `Evaluator.WellShapedIsSafe` turns it into the
  evaluator's precondition.
- Squares.ParseSquare: `Square::from_str` is modelled only on two-character
  names, which are all that `coords_to_square` builds.
- SpawnRank: the decoder's twelve-arm `match` is written as one
  piece-letter test. `LetterArms` proves that the test agrees with every arm.
- SpawnRank: the inner loop is a separate method rather than nested inside
  `SpawnBoardFromFen`.
