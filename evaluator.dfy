/** The static evaluator `evaluate_board` (src/main.rs:198-229). It reads
    the piece-placement field of a FEN string, splits it into ranks on `/`,
    and for every character of rank number y (1-based, in string order) at
    character position x (1-based, one step per CHARACTER, digits included)
    adds the table weight `TABLE[x - 1][y - 1]` for a White letter and
    subtracts it for a Black one. Two quirks of the source are kept:
    a digit run counts as a single position, and White `R` is scored from
    the knight table while White `N` is scored from the rook table. */
module Evaluator {
  import opened Text
  import opened Tables
  import opened Pieces
  import opened Fen

  /** The table the source's match arm for letter c reads. */
  function TableFor(c: char): (t: seq<seq<int>>)
    requires IsPieceLetter(c)
    ensures IsTable(t)
  {
    AllTables();
    match c
    case 'p' => PawnEval   case 'P' => PawnEval
    case 'n' => KnightEval case 'N' => RookEval
    case 'r' => RookEval   case 'R' => KnightEval
    case 'b' => BishopEval case 'B' => BishopEval
    case 'k' => KingEval   case 'K' => KingEval
    case _ => QueenEval
  }

  /** The table a piece kind is meant to be scored from. */
  function KindTable(k: PieceKind): seq<seq<int>>
  {
    match k
    case Pawn => PawnEval
    case Knight => KnightEval
    case Bishop => BishopEval
    case Rook => RookEval
    case Queen => QueenEval
    case King => KingEval
  }

  /** Every letter is scored from its kind's table, except White rooks and
      knights, whose tables are swapped. */
  lemma TableForKind(c: char)
    requires IsPieceLetter(c)
    ensures c != 'R' && c != 'N' ==> TableFor(c) == KindTable(KindOf(c))
    ensures c == 'R' ==> TableFor(c) == KindTable(Knight)
    ensures c == 'N' ==> TableFor(c) == KindTable(Rook)
  {
  }

  /** The contribution of the character c found at position (x, y). */
  function CharEval(c: char, x: int, y: int): int
    requires IsPieceLetter(c) ==> 1 <= x <= 8 && 1 <= y <= 8
  {
    if !IsPieceLetter(c) then 0
    else if IsUpper(c) then Lookup(TableFor(c), x, y)
    else -Lookup(TableFor(c), x, y)
  }

  /** Rank y can be scored without an out-of-bounds index: every piece
      letter in it stands at position 1..8 and y is in 1..8. */
  predicate RowSafe(row: string, y: int)
  {
    forall i :: 0 <= i < |row| && IsPieceLetter(row[i]) ==> i < 8 && 1 <= y <= 8
  }

  /** The score of one rank: the sum of CharEval over its characters, the
      i-th (0-based) character standing at position i + 1. */
  function RowEval(row: string, y: int): int
    requires RowSafe(row, y)
    decreases |row|
  {
    if row == [] then 0
    else RowEval(row[..|row| - 1], y) + CharEval(row[|row| - 1], |row|, y)
  }

  predicate RanksSafe(ranks: seq<string>)
  {
    forall j :: 0 <= j < |ranks| ==> RowSafe(ranks[j], j + 1)
  }

  /** The score of a list of ranks: the j-th (0-based) is rank number j + 1. */
  function RanksEval(ranks: seq<string>): int
    requires RanksSafe(ranks)
    decreases |ranks|
  {
    if ranks == [] then 0
    else RanksEval(ranks[..|ranks| - 1]) + RowEval(ranks[|ranks| - 1], |ranks|)
  }

  /** `evaluate_board` does not index out of bounds on this string. */
  predicate Safe(fen: string)
  {
    RanksSafe(Ranks(fen))
  }

  /** The value `evaluate_board` returns for a board printing as fen. */
  function Evaluation(fen: string): int
    requires Safe(fen)
  {
    RanksEval(Ranks(fen))
  }

  /** `evaluate_board`, over the FEN string the board prints as. */
  method EvaluateBoard(fen: string) returns (eval: int)
    requires Safe(fen)
    ensures eval == Evaluation(fen)
  {
    eval := 0;
    var fenClean := Split(fen, ' ');
    var board := Split(fenClean[0], '/');
    var y := 0;
    for j := 0 to |board|
      invariant y == j
      invariant eval == RanksEval(board[..j])
      invariant -3200 <= eval <= 3200
    {
      var row := board[j];
      y := y + 1;
      var x := 0;
      assert RowSafe(row, y);
      for i := 0 to |row|
        invariant x == i
        invariant eval == RanksEval(board[..j]) + RowEval(row[..i], y)
        invariant -3200 <= eval <= 3200
      {
        x := x + 1;
        var c := row[i];
        RowEvalStep(row, y, i);
        CharEvalArms(c, x, y);
        match c {
          case 'p' => eval := eval - PawnEval[x - 1][y - 1];
          case 'n' => eval := eval - KnightEval[x - 1][y - 1];
          case 'r' => eval := eval - RookEval[x - 1][y - 1];
          case 'b' => eval := eval - BishopEval[x - 1][y - 1];
          case 'k' => eval := eval - KingEval[x - 1][y - 1];
          case 'q' => eval := eval - QueenEval[x - 1][y - 1];
          case 'P' => eval := eval + PawnEval[x - 1][y - 1];
          case 'R' => eval := eval + KnightEval[x - 1][y - 1];
          case 'N' => eval := eval + RookEval[x - 1][y - 1];
          case 'B' => eval := eval + BishopEval[x - 1][y - 1];
          case 'K' => eval := eval + KingEval[x - 1][y - 1];
          case 'Q' => eval := eval + QueenEval[x - 1][y - 1];
          case _ =>
        }
        PartialEvalBound(board, j, i + 1);
      }
      assert row[..|row|] == row;
      assert board[..j + 1][..j] == board[..j];
    }
    assert board[..|board|] == board;
  }

  /** One more character adds its own contribution to the rank's score. */
  lemma RowEvalStep(row: string, y: int, i: nat)
    requires RowSafe(row, y) && i < |row|
    ensures RowSafe(row[..i], y) && RowSafe(row[..i + 1], y)
    ensures IsPieceLetter(row[i]) ==> 1 <= i + 1 <= 8 && 1 <= y <= 8
    ensures RowEval(row[..i + 1], y) == RowEval(row[..i], y) + CharEval(row[i], i + 1, y)
  {
    assert row[..i + 1][..i] == row[..i];
  }

  /** CharEval spelled out arm by arm, as the source's `match` has it. */
  lemma CharEvalArms(c: char, x: int, y: int)
    requires IsPieceLetter(c) ==> 1 <= x <= 8 && 1 <= y <= 8
    ensures IsPieceLetter(c) ==> x - 1 < 8 && y - 1 < 8
    ensures IsPieceLetter(c) ==> |PawnEval[x - 1]| == |KnightEval[x - 1]| == |BishopEval[x - 1]| == 8
    ensures IsPieceLetter(c) ==> |RookEval[x - 1]| == |QueenEval[x - 1]| == |KingEval[x - 1]| == 8
    ensures c == 'p' ==> CharEval(c, x, y) == -PawnEval[x - 1][y - 1]
    ensures c == 'n' ==> CharEval(c, x, y) == -KnightEval[x - 1][y - 1]
    ensures c == 'r' ==> CharEval(c, x, y) == -RookEval[x - 1][y - 1]
    ensures c == 'b' ==> CharEval(c, x, y) == -BishopEval[x - 1][y - 1]
    ensures c == 'k' ==> CharEval(c, x, y) == -KingEval[x - 1][y - 1]
    ensures c == 'q' ==> CharEval(c, x, y) == -QueenEval[x - 1][y - 1]
    ensures c == 'P' ==> CharEval(c, x, y) == PawnEval[x - 1][y - 1]
    ensures c == 'R' ==> CharEval(c, x, y) == KnightEval[x - 1][y - 1]
    ensures c == 'N' ==> CharEval(c, x, y) == RookEval[x - 1][y - 1]
    ensures c == 'B' ==> CharEval(c, x, y) == BishopEval[x - 1][y - 1]
    ensures c == 'K' ==> CharEval(c, x, y) == KingEval[x - 1][y - 1]
    ensures c == 'Q' ==> CharEval(c, x, y) == QueenEval[x - 1][y - 1]
    ensures !IsPieceLetter(c) ==> CharEval(c, x, y) == 0
  {
    AllTables();
  }

  /** A placement field of at most 8 ranks of at most 8 characters each
      (what a chess board's FEN always has). */
  predicate WellShaped(fen: string)
  {
    var ranks := Ranks(fen);
    |ranks| <= 8 && forall j :: 0 <= j < |ranks| ==> |ranks[j]| <= 8
  }

  /** On a well-shaped placement field every table index stays in 0..7,
      because the position advances by exactly one per character. */
  lemma WellShapedIsSafe(fen: string)
    requires WellShaped(fen)
    ensures Safe(fen)
  {
  }

  function Min(a: int, b: int): int { if a < b then a else b }

  lemma {:induction false} RowBound(row: string, y: int)
    requires RowSafe(row, y)
    ensures -50 * Min(|row|, 8) <= RowEval(row, y) <= 50 * Min(|row|, 8)
    decreases |row|
  {
    if row != [] {
      RowBound(row[..|row| - 1], y);
      if |row| > 8 {
        assert !IsPieceLetter(row[|row| - 1]);
      }
    }
  }

  lemma {:induction false} RowWithoutPieces(row: string, y: int)
    requires forall i :: 0 <= i < |row| ==> !IsPieceLetter(row[i])
    ensures RowSafe(row, y) && RowEval(row, y) == 0
    decreases |row|
  {
    if row != [] {
      RowWithoutPieces(row[..|row| - 1], y);
    }
  }

  lemma {:induction false} RanksBound(ranks: seq<string>)
    requires RanksSafe(ranks)
    ensures -400 * Min(|ranks|, 8) <= RanksEval(ranks) <= 400 * Min(|ranks|, 8)
    decreases |ranks|
  {
    if ranks != [] {
      var n := |ranks|;
      assert RanksSafe(ranks[..n - 1]) && RowSafe(ranks[n - 1], n);
      RanksBound(ranks[..n - 1]);
      if n > 8 {
        var row := ranks[n - 1];
        assert forall i :: 0 <= i < |row| ==> !IsPieceLetter(row[i]) by {
          assert RowSafe(ranks[n - 1], n);
        }
        RowWithoutPieces(row, n);
      } else {
        RowBound(ranks[n - 1], n);
      }
    }
  }

  /** Every value the accumulator takes on the way, after the first i
      characters of rank j + 1, lies within -3200..3200: the characters of
      the first 8 ranks hold at most 64 scored squares, and a later rank
      can hold no piece letter at all. So none of the source's `i32`
      additions and subtractions can overflow. */
  lemma PartialEvalBound(ranks: seq<string>, j: nat, i: nat)
    requires RanksSafe(ranks) && j < |ranks| && i <= |ranks[j]|
    ensures RanksSafe(ranks[..j]) && RowSafe(ranks[j][..i], j + 1)
    ensures -3200 <= RanksEval(ranks[..j]) + RowEval(ranks[j][..i], j + 1) <= 3200
  {
    var front, row := ranks[..j], ranks[j][..i];
    assert forall k :: 0 <= k < j ==> front[k] == ranks[k];
    assert RowSafe(row, j + 1) by {
      assert forall k :: 0 <= k < i ==> row[k] == ranks[j][k];
    }
    RanksBound(front);
    if j >= 8 {
      RowWithoutPieces(row, j + 1);
    } else {
      RowBound(row, j + 1);
    }
  }

  /** At most 64 squares are scored, each by at most 50, so the score of any
      board fits easily in the source's `i32`: no overflow can occur. */
  lemma EvaluationBound(fen: string)
    requires Safe(fen)
    ensures -3200 <= Evaluation(fen) <= 3200
  {
    RanksBound(Ranks(fen));
  }

  /** A rook or knight letter of either colour. */
  predicate IsRookOrKnight(c: char)
  {
    c == 'R' || c == 'r' || c == 'N' || c == 'n'
  }

  predicate NoRookOrKnight(s: string)
  {
    forall i :: 0 <= i < |s| ==> !IsRookOrKnight(s[i])
  }

  lemma CharSwapCase(c: char, x: int, y: int)
    requires !IsRookOrKnight(c)
    requires IsPieceLetter(c) ==> 1 <= x <= 8 && 1 <= y <= 8
    ensures IsPieceLetter(SwapCaseChar(c)) <==> IsPieceLetter(c)
    ensures CharEval(SwapCaseChar(c), x, y) == -CharEval(c, x, y)
  {
    SwapCaseLetter(c);
    if IsPieceLetter(c) {
      var d := SwapCaseChar(c);
      assert TableFor(d) == TableFor(c) by {
        TableForKind(c);
        TableForKind(d);
        assert d != 'R' && d != 'N';
      }
    }
  }

  lemma {:induction false} RowSwapCase(row: string, y: int)
    requires RowSafe(row, y) && NoRookOrKnight(row)
    ensures RowSafe(SwapCase(row), y)
    ensures RowEval(SwapCase(row), y) == -RowEval(row, y)
    decreases |row|
  {
    var sw := SwapCase(row);
    forall i | 0 <= i < |row| ensures IsPieceLetter(sw[i]) <==> IsPieceLetter(row[i]) {
      SwapCaseLetter(row[i]);
    }
    if row != [] {
      var n := |row|;
      assert sw[..n - 1] == SwapCase(row[..n - 1]);
      RowSwapCase(row[..n - 1], y);
      CharSwapCase(row[n - 1], n, y);
    }
  }

  /** RowSwapCase for every rank of the list. */
  lemma RanksSwapCaseRows(ranks: seq<string>)
    requires RanksSafe(ranks)
    requires forall j :: 0 <= j < |ranks| ==> NoRookOrKnight(ranks[j])
    ensures RanksSafe(SwapCaseAll(ranks))
    ensures forall j :: 0 <= j < |ranks| ==> RowEval(SwapCaseAll(ranks)[j], j + 1) == -RowEval(ranks[j], j + 1)
  {
    forall j | 0 <= j < |ranks|
      ensures RowSafe(SwapCaseAll(ranks)[j], j + 1)
      ensures RowEval(SwapCaseAll(ranks)[j], j + 1) == -RowEval(ranks[j], j + 1)
    {
      RankSwapCase(ranks, j);
    }
  }

  /** RowSwapCase for the rank at index j of a list. */
  lemma RankSwapCase(ranks: seq<string>, j: nat)
    requires j < |ranks| && RowSafe(ranks[j], j + 1) && NoRookOrKnight(ranks[j])
    ensures RowSafe(SwapCaseAll(ranks)[j], j + 1)
    ensures RowEval(SwapCaseAll(ranks)[j], j + 1) == -RowEval(ranks[j], j + 1)
  {
    RowSwapCase(ranks[j], j + 1);
  }

  /** Two lists of ranks whose scores are negated rank by rank have
      negated totals. */
  lemma {:induction false} RanksEvalNegated(a: seq<string>, b: seq<string>)
    requires RanksSafe(a) && RanksSafe(b) && |a| == |b|
    requires forall j :: 0 <= j < |a| ==> RowEval(b[j], j + 1) == -RowEval(a[j], j + 1)
    ensures RanksEval(b) == -RanksEval(a)
    decreases |a|
  {
    if a != [] {
      var n := |a| - 1;
      RanksSafePrefix(a, n);
      RanksSafePrefix(b, n);
      forall j | 0 <= j < n ensures RowEval(b[..n][j], j + 1) == -RowEval(a[..n][j], j + 1) {
        assert a[..n][j] == a[j] && b[..n][j] == b[j];
      }
      RanksEvalNegated(a[..n], b[..n]);
    }
  }

  /** The first n ranks of a scoreable list are scoreable. */
  lemma RanksSafePrefix(ranks: seq<string>, n: nat)
    requires RanksSafe(ranks) && n <= |ranks|
    ensures RanksSafe(ranks[..n])
  {
    forall j | 0 <= j < n ensures RowSafe(ranks[..n][j], j + 1) {
      assert ranks[..n][j] == ranks[j];
    }
  }

  lemma RanksOfSwapCase(fen: string)
    ensures Ranks(SwapCase(fen)) == SwapCaseAll(Ranks(fen))
    ensures Split(SwapCase(fen), ' ')[0] == SwapCase(Split(fen, ' ')[0])
  {
    SplitSwapCase(fen, ' ');
    SplitSwapCase(Split(fen, ' ')[0], '/');
  }

  /** Colour symmetry: when the placement field holds no rook or knight,
      swapping the colour of every piece (the case of every letter) negates
      the score. */
  lemma ColourSwapNegates(fen: string)
    requires Safe(fen)
    requires NoRookOrKnight(Split(fen, ' ')[0])
    ensures Safe(SwapCase(fen))
    ensures Evaluation(SwapCase(fen)) == -Evaluation(fen)
  {
    RanksOfSwapCase(fen);
    var placement := Split(fen, ' ')[0];
    var ranks := Ranks(fen);
    JoinSplit(placement, '/');
    forall j | 0 <= j < |ranks| ensures NoRookOrKnight(ranks[j]) {
      RankChars(placement, j);
    }
    RanksSwapCaseRows(ranks);
    RanksEvalNegated(ranks, SwapCaseAll(ranks));
  }

  /** Each rank's characters are characters of the string it was split from. */
  lemma RankChars(s: string, j: nat)
    requires j < |Split(s, '/')|
    ensures forall i :: 0 <= i < |Split(s, '/')[j]| ==> Split(s, '/')[j][i] in s
  {
    var parts := Split(s, '/');
    JoinSplit(s, '/');
    JoinChars(parts, '/', j);
  }

  lemma {:induction false} JoinChars(parts: seq<string>, sep: char, j: nat)
    requires |parts| >= 1 && j < |parts|
    ensures forall i :: 0 <= i < |parts[j]| ==> parts[j][i] in Join(parts, sep)
    decreases |parts|
  {
    if |parts| > 1 {
      if j > 0 {
        JoinChars(parts[1..], sep, j - 1);
        assert parts[1..][j - 1] == parts[j];
      }
      assert Join(parts, sep) == parts[0] + [sep] + Join(parts[1..], sep);
    }
  }

  /** With a rook the symmetry fails: a lone White rook on the first position
      of rank 1 scores KNIGHT_EVAL[0][0] = -50, the same square holding a
      Black rook scores -ROOK_EVAL[0][0] = 0, and 0 != 50. */
  lemma RookBreaksColourSymmetry()
    ensures Safe("R") && Safe("r")
    ensures Evaluation("R") == -50 && Evaluation("r") == 0
    ensures SwapCase("R") == "r" && Evaluation(SwapCase("R")) != -Evaluation("R")
  {
    SplitWithoutSeparator("R", ' ');
    SplitWithoutSeparator("R", '/');
    SplitWithoutSeparator("r", ' ');
    SplitWithoutSeparator("r", '/');
    assert "R"[..0] == [];
    assert "r"[..0] == [];
    assert SwapCase("R") == "r";
  }

  /** The evaluator ignores run lengths: in the rank "3P4" the pawn is scored
      as standing at position 2, although it stands on the fourth file. */
  lemma DigitRunCountsAsOnePosition(y: int)
    requires 1 <= y <= 8
    ensures RowSafe("3P4", y)
    ensures RowEval("3P4", y) == Lookup(PawnEval, 2, y)
  {
    AllTables();
    assert "3P4"[..2] == "3P";
    assert "3P4"[..2][..1] == "3";
    assert "3P4"[..2][..1][..0] == [];
  }
}
