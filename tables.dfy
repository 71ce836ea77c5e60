/** The engine's six constant piece-square tables (src/main.rs, lines 11-63),
    written out row by row exactly as the source lists them. The evaluator
    indexes them as `TABLE[x - 1][y - 1]`, so the FIRST index is the file
    position within a FEN rank and the second the FEN rank number. */
module Tables {

  const PawnEval: seq<seq<int>> :=
    [[ 0,  0,   0,   0,   0,   0,  0,  0],
     [50, 50,  50,  50,  50,  50, 50, 50],
     [10, 10,  20,  30,  30,  20, 10, 10],
     [ 5,  5,  10,  25,  25,  10,  5,  5],
     [ 0,  0,   0,  20,  20,   0,  0,  0],
     [ 5, -5, -10,   0,   0, -10, -5,  5],
     [ 5, 10,  10, -20, -20,  10, 10,  5],
     [ 0,  0,   0,   0,   0,   0,  0,  0]]

  const KnightEval: seq<seq<int>> :=
    [[-50, -40, -30, -30, -30, -30, -40, -50],
     [-40, -20,   0,   0,   0,   0, -20, -40],
     [-30,   0,  10,  15,  15,  10,   0, -30],
     [-30,   5,  15,  20,  20,  15,   5, -30],
     [-30,   0,  15,  20,  20,  15,   0, -30],
     [-30,   5,  10,  15,  15,  10,   5, -30],
     [-40, -20,   0,   5,   5,   0, -20, -40],
     [-50, -40, -30, -30, -30, -30, -40, -50]]

  const BishopEval: seq<seq<int>> :=
    [[-20, -10, -10, -10, -10, -10, -10, -20],
     [-10,   0,   0,   0,   0,   0,   0, -10],
     [-10,   0,   5,  10,  10,   5,   0, -10],
     [-10,   5,   5,  10,  10,   5,   5, -10],
     [-10,   0,  10,  10,  10,  10,   0, -10],
     [-10,  10,  10,  10,  10,  10,  10, -10],
     [-10,   5,   0,   0,   0,   0,   5, -10],
     [-20, -10, -10, -10, -10, -10, -10, -20]]

  const RookEval: seq<seq<int>> :=
    [[ 0,  0,  0,  0,  0,  0,  0,  0],
     [ 5, 10, 10, 10, 10, 10, 10,  5],
     [-5,  0,  0,  0,  0,  0,  0, -5],
     [-5,  0,  0,  0,  0,  0,  0, -5],
     [-5,  0,  0,  0,  0,  0,  0, -5],
     [-5,  0,  0,  0,  0,  0,  0, -5],
     [-5,  0,  0,  0,  0,  0,  0, -5],
     [ 0,  0,  0,  5,  5,  0,  0,  0]]

  const QueenEval: seq<seq<int>> :=
    [[-20, -10, -10, -5, -5, -10, -10, -20],
     [-10,   0,   0,  0,  0,   0,   0, -10],
     [-10,   0,   5,  5,  5,   5,   0, -10],
     [ -5,   0,   5,  5,  5,   5,   0,  -5],
     [  0,   0,   5,  5,  5,   5,   0,  -5],
     [-10,   5,   5,  5,  5,   5,   0, -10],
     [-10,   0,   5,  0,  0,   0,   0, -10],
     [-20, -10, -10, -5, -5, -10, -10, -20]]

  const KingEval: seq<seq<int>> :=
    [[-30, -40, -40, -50, -50, -40, -40, -30],
     [-30, -40, -40, -50, -50, -40, -40, -30],
     [-30, -40, -40, -50, -50, -40, -40, -30],
     [-30, -40, -40, -50, -50, -40, -40, -30],
     [-20, -30, -30, -40, -40, -30, -30, -20],
     [-10, -20, -20, -20, -20, -20, -20, -10],
     [ 20,  20,   0,   0,   0,   0,  20,  20],
     [ 20,  30,  10,   0,   0,  10,  30,  20]]

  /** The bound on any single entry: no weight exceeds 50 in absolute value. */
  const MaxWeight := 50

  /** An 8x8 table whose entries lie within plus or minus MaxWeight. */
  predicate IsTable(t: seq<seq<int>>)
  {
    |t| == 8 &&
    forall i :: 0 <= i < 8 ==>
      |t[i]| == 8 && forall j :: 0 <= j < 8 ==> -MaxWeight <= t[i][j] <= MaxWeight
  }

  /** Every one of the six constants is an 8x8 table of bounded weights. */
  lemma AllTables()
    ensures IsTable(PawnEval) && IsTable(KnightEval) && IsTable(BishopEval)
    ensures IsTable(RookEval) && IsTable(QueenEval) && IsTable(KingEval)
  {
  }

  /** `t[x - 1][y - 1]` for 1-based x and y within 1..8. */
  function Lookup(t: seq<seq<int>>, x: int, y: int): (w: int)
    requires IsTable(t)
    requires 1 <= x <= 8 && 1 <= y <= 8
    ensures -MaxWeight <= w <= MaxWeight
  {
    t[x - 1][y - 1]
  }
}
