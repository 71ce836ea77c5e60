/** The look-ahead `minmax` (src/main.rs:175-196) and the move-selection
    loop of `bot_algorithm` (src/main.rs:152-167). The chess library is a
    parameter: a board type B, the legal-move generator `legal`, the
    successor function `apply` (`Board::make_move`) and the FEN printer
    `fen` (`Board::to_string`). */
module Search {
  import opened Text
  import opened Squares
  import Evaluator

  /** `DEPTH`, the look-ahead each candidate move is scored with. */
  const Depth: nat := 4

  /** A value below every score the source expects: the initial best. */
  const InitialBest := -2000

  /** What the library's `Board::to_string` is relied on for: every board
      prints with a placement field of at most 8 ranks of at most 8
      characters, as every FEN of a chess position has. */
  ghost predicate FenSafe<B(!new)>(fen: B -> string)
  {
    forall b :: Evaluator.WellShaped(fen(b))
  }

  /** The board reached from b by playing the first generated legal move
      n times, or None when some board on the way has no legal move. */
  function Follow<B>(b: B, n: nat, legal: B -> seq<ChessMove>, apply: (B, ChessMove) -> B): Option<B>
    decreases n
  {
    if n == 0 then Some(b)
    else if legal(b) == [] then None
    else Follow(apply(b, legal(b)[0]), n - 1, legal, apply)
  }

  /** The value the source's `minmax(depth, b)` computes: the evaluation of
      the end of the line of first moves, or 0 if the line gets stuck. */
  ghost function LineValue<B(!new)>(depth: nat, b: B, legal: B -> seq<ChessMove>,
                              apply: (B, ChessMove) -> B, fen: B -> string): int
    requires FenSafe(fen)
  {
    match Follow(b, depth, legal, apply)
    case Some(e) =>
      Evaluator.WellShapedIsSafe(fen(e));
      Evaluator.Evaluation(fen(e))
    case None => 0
  }

  /** `minmax`: decrements depth, then returns from inside the loop on the
      first legal move (recursing while depth is non-zero), or 0 when there
      is no legal move. Called with depth 0 the `u16` decrement would
      underflow, so depth >= 1 is required. */
  method Minmax<B(!new)>(depth: nat, board: B, legal: B -> seq<ChessMove>,
                   apply: (B, ChessMove) -> B, fen: B -> string) returns (eval: int)
    requires depth >= 1
    requires FenSafe(fen)
    ensures eval == LineValue(depth, board, legal, apply, fen)
    decreases depth
  {
    var d := depth - 1;
    var moves := legal(board);
    for i := 0 to |moves|
      invariant i == 0
    {
      var evalBoard := apply(board, moves[i]);
      if d != 0 {
        eval := Minmax(d, evalBoard, legal, apply, fen);
        return;
      } else {
        Evaluator.WellShapedIsSafe(fen(evalBoard));
        eval := Evaluator.EvaluateBoard(fen(evalBoard));
        return;
      }
    }
    eval := 0;
  }

  /** Following m + n moves is following m, then n more. */
  lemma {:induction false} FollowCompose<B>(b: B, m: nat, n: nat,
                                            legal: B -> seq<ChessMove>, apply: (B, ChessMove) -> B)
    ensures Follow(b, m + n, legal, apply) ==
      match Follow(b, m, legal, apply)
      case None => None
      case Some(c) => Follow(c, n, legal, apply)
    decreases m
  {
    if m > 0 && legal(b) != [] {
      FollowCompose(apply(b, legal(b)[0]), m - 1, n, legal, apply);
    }
  }

  /** The line gets stuck exactly when one of its first n boards, b itself
      included, has no legal move. */
  lemma {:induction false} FollowStuck<B>(b: B, n: nat, legal: B -> seq<ChessMove>, apply: (B, ChessMove) -> B)
    ensures Follow(b, n, legal, apply).None? <==>
      exists k :: 0 <= k < n && Follow(b, k, legal, apply).Some? && legal(Follow(b, k, legal, apply).value) == []
    decreases n
  {
    if n > 0 {
      FollowStuck(b, n - 1, legal, apply);
      FollowCompose(b, n - 1, 1, legal, apply);
      if Follow(b, n, legal, apply).None? && Follow(b, n - 1, legal, apply).Some? {
        assert legal(Follow(b, n - 1, legal, apply).value) == [];
      }
    }
  }

  /** A one-move look-ahead scores the board the first legal move leads to. */
  lemma LineValueOne<B(!new)>(b: B, legal: B -> seq<ChessMove>, apply: (B, ChessMove) -> B, fen: B -> string)
    requires FenSafe(fen)
    ensures legal(b) == [] ==> LineValue(1, b, legal, apply, fen) == 0
    ensures legal(b) != [] ==>
      LineValue(1, b, legal, apply, fen) == Evaluator.Evaluation(fen(apply(b, legal(b)[0])))
  {
    if legal(b) != [] {
      Evaluator.WellShapedIsSafe(fen(apply(b, legal(b)[0])));
      assert Follow(b, 1, legal, apply) == Some(apply(b, legal(b)[0]));
    }
  }

  /** Every look-ahead value lies within -3200..3200, so it fits the
      source's `i32`; it is not guaranteed to exceed the initial -2000. */
  lemma LineValueBound<B(!new)>(depth: nat, b: B, legal: B -> seq<ChessMove>,
                          apply: (B, ChessMove) -> B, fen: B -> string)
    requires FenSafe(fen)
    ensures -3200 <= LineValue(depth, b, legal, apply, fen) <= 3200
  {
    match Follow(b, depth, legal, apply)
    case Some(e) =>
      Evaluator.WellShapedIsSafe(fen(e));
      Evaluator.EvaluationBound(fen(e));
    case None =>
  }

  /** The score bot_algorithm's loop gives every candidate move. */
  ghost function Scores<B(!new)>(board: B, moves: seq<ChessMove>, legal: B -> seq<ChessMove>,
                           apply: (B, ChessMove) -> B, fen: B -> string): (s: seq<int>)
    requires FenSafe(fen)
    ensures |s| == |moves|
  {
    seq(|moves|, k requires 0 <= k < |moves| => LineValue(Depth, apply(board, moves[k]), legal, apply, fen))
  }

  /** The running best `(best_move, best_eval)` after the loop has seen the
      given moves and scores, starting from (ChessMove::default(), -2000) and
      replacing only on a strictly greater score. */
  function Select(moves: seq<ChessMove>, scores: seq<int>): (ChessMove, int)
    requires |moves| == |scores|
    decreases |moves|
  {
    if moves == [] then (DefaultMove, InitialBest)
    else
      var n := |moves| - 1;
      var (m, e) := Select(moves[..n], scores[..n]);
      if scores[n] > e then (moves[n], scores[n]) else (m, e)
  }

  /** k is the first index of a maximal score. */
  predicate IsFirstMax(scores: seq<int>, k: int)
  {
    0 <= k < |scores| &&
    (forall j :: 0 <= j < |scores| ==> scores[j] <= scores[k]) &&
    (forall j :: 0 <= j < k ==> scores[j] < scores[k])
  }

  /** When no score exceeds -2000 the loop never replaces its initial
      best: the default move is selected and best_eval stays -2000. */
  lemma {:induction false} SelectBelowInitial(moves: seq<ChessMove>, scores: seq<int>)
    requires |moves| == |scores|
    requires forall j :: 0 <= j < |scores| ==> scores[j] <= InitialBest
    ensures Select(moves, scores) == (DefaultMove, InitialBest)
    decreases |moves|
  {
    if moves != [] {
      var n := |moves| - 1;
      SelectBelowInitial(moves[..n], scores[..n]);
    }
  }

  /** When some score exceeds -2000 the loop selects the first move, in
      generation order, whose score is the maximum, together with that score. */
  lemma {:induction false} SelectFirstMax(moves: seq<ChessMove>, scores: seq<int>) returns (k: int)
    requires |moves| == |scores|
    requires exists j :: 0 <= j < |scores| && scores[j] > InitialBest
    ensures IsFirstMax(scores, k)
    ensures Select(moves, scores) == (moves[k], scores[k])
    decreases |moves|
  {
    var n := |moves| - 1;
    var ms, ss := moves[..n], scores[..n];
    if exists j :: 0 <= j < n && ss[j] > InitialBest {
      var k' := SelectFirstMax(ms, ss);
      FirstMaxExtend(scores, k');
      k := if scores[n] > scores[k'] then n else k';
    } else {
      SelectBelowInitial(ms, ss);
      k := n;
    }
  }

  /** One more score either keeps the first maximum k or, when strictly
      greater, becomes the new first maximum. */
  lemma FirstMaxExtend(scores: seq<int>, k: int)
    requires |scores| > 0 && IsFirstMax(scores[..|scores| - 1], k)
    ensures scores[|scores| - 1] > scores[k] ==> IsFirstMax(scores, |scores| - 1)
    ensures scores[|scores| - 1] <= scores[k] ==> IsFirstMax(scores, k)
  {
    var n := |scores| - 1;
    assert forall j :: 0 <= j < n ==> scores[..n][j] == scores[j];
  }

  /** The selected move is a generated legal move, unless no move scored
      above -2000, in which case it is the default move. */
  lemma SelectedMoveIsCandidate(moves: seq<ChessMove>, scores: seq<int>)
    requires |moves| == |scores|
    ensures Select(moves, scores).0 in moves || Select(moves, scores) == (DefaultMove, InitialBest)
  {
    if exists j :: 0 <= j < |scores| && scores[j] > InitialBest {
      var k := SelectFirstMax(moves, scores);
    } else {
      SelectBelowInitial(moves, scores);
    }
  }

  /** The selection loop of `bot_algorithm`: scores every legal move of the
      board with `minmax(DEPTH, ...)` on a copy and keeps the running best. */
  method SelectMove<B(!new)>(board: B, legal: B -> seq<ChessMove>,
                       apply: (B, ChessMove) -> B, fen: B -> string) returns (bestMove: ChessMove, bestEval: int)
    requires FenSafe(fen)
    ensures (bestMove, bestEval) == Select(legal(board), Scores(board, legal(board), legal, apply, fen))
  {
    var moves := legal(board);
    ghost var scores := Scores(board, moves, legal, apply, fen);
    bestMove := DefaultMove;
    bestEval := InitialBest;
    for i := 0 to |moves|
      invariant (bestMove, bestEval) == Select(moves[..i], scores[..i])
    {
      var chessMove := moves[i];
      var evalBoard := apply(board, chessMove);
      var eval := Minmax(Depth, evalBoard, legal, apply, fen);
      assert moves[..i + 1][..i] == moves[..i] && scores[..i + 1][..i] == scores[..i];
      if eval > bestEval {
        bestEval := eval;
        bestMove := chessMove;
      }
    }
    assert moves[..|moves|] == moves && scores[..|moves|] == scores;
  }
}
