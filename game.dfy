/** The `Chess` resource (src/main.rs:65-72) and the two systems that
    change it: the engine's turn in `bot_algorithm` (src/main.rs:147-173)
    and the two-click move entry of `player` (src/main.rs:265-297). The
    sprite list and the previously rendered board are rendering state and
    are not fields here. */
module Game {
  import opened Text
  import opened Pieces
  import opened Squares
  import opened Search

  /** The promotion a clicked move carries: a Queen iff the destination
      rank is 1 (the rank Black's pawns promote on). */
  function PromotionFor(y: int): (p: Option<PieceKind>)
    ensures p.Some? <==> y == 1
    ensures p.Some? ==> p.value == Queen
  {
    if y == 1 then Some(Queen) else None
  }

  /** The move the second click builds, from the recorded origin. */
  function ClickedMove(from: Square, x: int, y: int): ChessMove
    requires 1 <= x <= 8 && 1 <= y <= 8
  {
    ChessMove(from, CoordsToSquare(x, y), PromotionFor(y))
  }

  class Chess<B(!new)> {
    var board: B
    /** An origin square has been clicked and a destination is awaited. */
    var moving: bool
    var startingSquare: Square

    /** `Chess::default()` with the library's starting board. */
    constructor (initial: B)
      ensures board == initial && !moving && startingSquare == DefaultSquare
    {
      board := initial;
      moving := false;
      startingSquare := DefaultSquare;
    }

    /** `bot_algorithm`. When White is to move and the random trigger fires
        (`gen_range(0..24) == gen_range(0..24)`, here the parameter
        `trigger`), every legal move is scored and exactly one move — the
        selected one, possibly `ChessMove::default()` — is applied to the
        board. Otherwise nothing changes. */
    method BotAlgorithm(trigger: bool, sideToMove: B -> Colour, legal: B -> seq<ChessMove>,
                        apply: (B, ChessMove) -> B, fen: B -> string)
      requires FenSafe(fen)
      modifies this`board
      ensures sideToMove(old(board)) == White && trigger ==>
        board == apply(old(board), Select(legal(old(board)), Scores(old(board), legal(old(board)), legal, apply, fen)).0)
      ensures !(sideToMove(old(board)) == White && trigger) ==> board == old(board)
    {
      if sideToMove(board) == White {
        if trigger {
          var bestMove, bestEval := SelectMove(board, legal, apply, fen);
          board := apply(board, bestMove);
        }
      }
    }

    /** The state-changing part of `player`, for a left click on file x and
        rank y. The first click records the origin; the second builds the
        move (promoting to a Queen on rank 1), applies it only if the
        library calls it legal, and always ends the gesture. */
    method Click(x: int, y: int, isLegal: (B, ChessMove) -> bool, apply: (B, ChessMove) -> B)
      requires 1 <= x <= 8 && 1 <= y <= 8
      modifies this
      ensures !old(moving) ==>
        moving && startingSquare == CoordsToSquare(x, y) && board == old(board)
      ensures old(moving) ==>
        !moving && startingSquare == old(startingSquare) &&
        var m := ClickedMove(old(startingSquare), x, y);
        board == if isLegal(old(board), m) then apply(old(board), m) else old(board)
    {
      var square := CoordsToSquare(x, y);
      if !moving {
        startingSquare := square;
        moving := true;
      } else {
        var promotion: Option<PieceKind> := None;
        if y == 1 {
          promotion := Some(Queen);
        }
        var chessMove := ChessMove(startingSquare, square, promotion);
        if isLegal(board, chessMove) {
          board := apply(board, chessMove);
        }
        moving := false;
      }
    }
  }

  /** Two clicks, from a board with no gesture in progress, attempt exactly
      one move from the first square to the second and leave no gesture
      in progress. */
  method TwoClicks<B(!new)>(chess: Chess<B>, x1: int, y1: int, x2: int, y2: int,
                            isLegal: (B, ChessMove) -> bool, apply: (B, ChessMove) -> B)
    requires 1 <= x1 <= 8 && 1 <= y1 <= 8 && 1 <= x2 <= 8 && 1 <= y2 <= 8
    requires !chess.moving
    modifies chess
    ensures !chess.moving
    ensures var m := ChessMove(CoordsToSquare(x1, y1), CoordsToSquare(x2, y2), PromotionFor(y2));
      chess.board == if isLegal(old(chess.board), m) then apply(old(chess.board), m) else old(chess.board)
  {
    chess.Click(x1, y1, isLegal, apply);
    chess.Click(x2, y2, isLegal, apply);
  }
}
