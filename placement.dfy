/** The piece-placement decoding in `spawn_board_from_fen_string`
    (src/main.rs:93-124). Each rank of the placement field (rank number y,
    1-based, in string order) is walked character by character; a piece
    letter yields a sprite at file x, and a digit d moves the file on by d.
    Spawning a sprite is modelled as recording the placement, and the list
    is built with `insert(0, ...)`, so it ends up in reverse encounter order. */
module FenDecode {
  import opened Text
  import opened Pieces
  import opened Fen

  /** What `spawn_piece` is called with: the square and the piece. */
  datatype PiecePlacement = PiecePlacement(x: int, y: int, kind: PieceKind, colour: Colour)

  predicate IsDigit(c: char) { '0' <= c <= '9' }

  /** `c.to_digit(10).unwrap()` */
  function DigitValue(c: char): (d: nat)
    requires IsDigit(c)
    ensures d <= 9
  {
    c as int - '0' as int
  }

  /** Every character of the rank is a piece letter or a digit, so the
      `unwrap` of the source's fallback arm never fails. */
  predicate Decodable(row: string)
  {
    forall i :: 0 <= i < |row| ==> IsPieceLetter(row[i]) || IsDigit(row[i])
  }

  /** How far one character moves the file: a piece occupies one square,
      a digit d stands for d empty squares. */
  function Advance(c: char): nat
    requires IsPieceLetter(c) || IsDigit(c)
  {
    if IsPieceLetter(c) then 1 else DigitValue(c)
  }

  /** The number of squares the rank describes. */
  function Width(row: string): nat
    requires Decodable(row)
    decreases |row|
  {
    if row == [] then 0 else Width(row[..|row| - 1]) + Advance(row[|row| - 1])
  }

  /** The placement for the piece letter at index i of the rank: its file is
      one more than the number of squares described before it. */
  function PieceAt(row: string, i: int, y: int): PiecePlacement
    requires Decodable(row) && 0 <= i < |row| && IsPieceLetter(row[i])
  {
    PiecePlacement(Width(row[..i]) + 1, y, KindOf(row[i]), ColourOf(row[i]))
  }

  /** The placements of rank y, in encounter order. */
  function RowPlacements(row: string, y: int): seq<PiecePlacement>
    requires Decodable(row)
    decreases |row|
  {
    if row == [] then []
    else
      var n := |row| - 1;
      RowPlacements(row[..n], y) + (if IsPieceLetter(row[n]) then [PieceAt(row, n, y)] else [])
  }

  predicate RanksDecodable(ranks: seq<string>)
  {
    forall j :: 0 <= j < |ranks| ==> Decodable(ranks[j])
  }

  /** The placements of all ranks, in encounter order; the j-th (0-based)
      rank is rank number j + 1. */
  function RanksPlacements(ranks: seq<string>): seq<PiecePlacement>
    requires RanksDecodable(ranks)
    decreases |ranks|
  {
    if ranks == [] then []
    else RanksPlacements(ranks[..|ranks| - 1]) + RowPlacements(ranks[|ranks| - 1], |ranks|)
  }

  predicate FenDecodable(fen: string)
  {
    RanksDecodable(Ranks(fen))
  }

  /** The placements of a FEN string's placement field, in encounter order. */
  function Placements(fen: string): seq<PiecePlacement>
    requires FenDecodable(fen)
  {
    RanksPlacements(Ranks(fen))
  }

  /** The placement loop of `spawn_board_from_fen_string`: clears the piece
      list, then prepends one placement per piece letter, rank by rank. */
  method SpawnBoardFromFen(fen: string) returns (pieces: seq<PiecePlacement>)
    requires FenDecodable(fen)
    ensures pieces == Reversed(Placements(fen))
  {
    pieces := [];
    var fenClean := Split(fen, ' ');
    var board := Split(fenClean[0], '/');
    var y := 0;
    for j := 0 to |board|
      invariant y == j
      invariant pieces == Reversed(RanksPlacements(board[..j]))
    {
      y := y + 1;
      assert Decodable(board[j]);
      pieces := SpawnRank(board[j], y, pieces);
      assert board[..j + 1][..j] == board[..j];
      ReversedConcat(RanksPlacements(board[..j]), RowPlacements(board[j], y));
    }
    assert board[..|board|] == board;
  }

  /** The inner loop of the placement decode, over the characters of rank y:
      the file x advances by one per character and a digit d adds d - 1 more. */
  method SpawnRank(row: string, y: int, pieces0: seq<PiecePlacement>) returns (pieces: seq<PiecePlacement>)
    requires Decodable(row)
    ensures pieces == Reversed(RowPlacements(row, y)) + pieces0
  {
    pieces := pieces0;
    var x := 0;
    for i := 0 to |row|
      invariant x == Width(row[..i])
      invariant pieces == Reversed(RowPlacements(row[..i], y)) + pieces0
    {
      x := x + 1;
      var c := row[i];
      RankStepReversed(row, y, i, pieces0);
      // The source's twelve letter arms each prepend the letter's kind and
      // colour (LetterArms lists them); any other character must be a digit.
      if IsPieceLetter(c) {
        pieces := [PiecePlacement(x, y, KindOf(c), ColourOf(c))] + pieces;
      } else {
        x := x + DigitValue(c) - 1;
      }
    }
    assert row[..|row|] == row;
  }

  /** The inner loop's invariant carried over one character. */
  lemma RankStepReversed(row: string, y: int, i: nat, pieces0: seq<PiecePlacement>)
    requires Decodable(row) && i < |row|
    ensures Decodable(row[..i]) && Decodable(row[..i + 1])
    ensures IsPieceLetter(row[i]) || IsDigit(row[i])
    ensures Width(row[..i + 1]) == Width(row[..i]) + Advance(row[i])
    ensures Reversed(RowPlacements(row[..i + 1], y)) + pieces0 ==
      (if IsPieceLetter(row[i])
       then [PiecePlacement(Width(row[..i]) + 1, y, KindOf(row[i]), ColourOf(row[i]))]
       else []) + (Reversed(RowPlacements(row[..i], y)) + pieces0)
  {
    RowStep(row, y, i);
    var done := RowPlacements(row[..i], y);
    if IsPieceLetter(row[i]) {
      ReversedSnoc(done, PieceAt(row, i, y));
      assert RowPlacements(row[..i + 1], y) == done + [PieceAt(row, i, y)];
    } else {
      assert RowPlacements(row[..i + 1], y) == done;
    }
  }

  /** One more character of the rank: its advance and its placement, if any. */
  lemma RowStep(row: string, y: int, i: nat)
    requires Decodable(row) && i < |row|
    ensures Decodable(row[..i]) && Decodable(row[..i + 1])
    ensures IsPieceLetter(row[i]) || IsDigit(row[i])
    ensures Width(row[..i + 1]) == Width(row[..i]) + Advance(row[i])
    ensures RowPlacements(row[..i + 1], y) == RowPlacements(row[..i], y) +
      (if IsPieceLetter(row[i]) then [PieceAt(row, i, y)] else [])
  {
    assert row[..i + 1][..i] == row[..i];
  }

  /** KindOf and ColourOf spelled out arm by arm, as the source's `match`
      (src/main.rs:107-120) passes them to `spawn_piece`. */
  lemma LetterArms(c: char)
    ensures c == 'p' ==> IsPieceLetter(c) && KindOf(c) == Pawn && ColourOf(c) == Black
    ensures c == 'n' ==> IsPieceLetter(c) && KindOf(c) == Knight && ColourOf(c) == Black
    ensures c == 'r' ==> IsPieceLetter(c) && KindOf(c) == Rook && ColourOf(c) == Black
    ensures c == 'b' ==> IsPieceLetter(c) && KindOf(c) == Bishop && ColourOf(c) == Black
    ensures c == 'k' ==> IsPieceLetter(c) && KindOf(c) == King && ColourOf(c) == Black
    ensures c == 'q' ==> IsPieceLetter(c) && KindOf(c) == Queen && ColourOf(c) == Black
    ensures c == 'P' ==> IsPieceLetter(c) && KindOf(c) == Pawn && ColourOf(c) == White
    ensures c == 'R' ==> IsPieceLetter(c) && KindOf(c) == Rook && ColourOf(c) == White
    ensures c == 'N' ==> IsPieceLetter(c) && KindOf(c) == Knight && ColourOf(c) == White
    ensures c == 'B' ==> IsPieceLetter(c) && KindOf(c) == Bishop && ColourOf(c) == White
    ensures c == 'K' ==> IsPieceLetter(c) && KindOf(c) == King && ColourOf(c) == White
    ensures c == 'Q' ==> IsPieceLetter(c) && KindOf(c) == Queen && ColourOf(c) == White
    ensures c !in "pnrbkqPNRBKQ" ==> !IsPieceLetter(c)
  {
  }

  /** A piece's placement depends only on the characters up to it. */
  lemma PieceAtPrefix(row: string, n: nat, i: nat, y: int)
    requires Decodable(row) && i < n <= |row| && IsPieceLetter(row[i])
    ensures Decodable(row[..n]) && PieceAt(row[..n], i, y) == PieceAt(row, i, y)
  {
    assert row[..n][..i] == row[..i];
  }

  /** The placements of rank y are exactly the placements of its piece
      letters: every piece letter yields one, and nothing else does. */
  lemma {:induction false} RowPlacementsExact(row: string, y: int)
    requires Decodable(row)
    ensures forall i :: 0 <= i < |row| && IsPieceLetter(row[i]) ==> PieceAt(row, i, y) in RowPlacements(row, y)
    ensures forall p :: p in RowPlacements(row, y) ==>
      exists i :: 0 <= i < |row| && IsPieceLetter(row[i]) && p == PieceAt(row, i, y)
    decreases |row|
  {
    if row != [] {
      var n := |row| - 1;
      var prefix := row[..n];
      assert Decodable(prefix);
      RowPlacementsExact(prefix, y);
      forall i | 0 <= i < n && IsPieceLetter(row[i])
        ensures PieceAt(row, i, y) in RowPlacements(row, y)
      {
        PieceAtPrefix(row, n, i, y);
        assert prefix[i] == row[i];
      }
      forall p | p in RowPlacements(row, y)
        ensures exists i :: 0 <= i < |row| && IsPieceLetter(row[i]) && p == PieceAt(row, i, y)
      {
        if p in RowPlacements(prefix, y) {
          var i :| 0 <= i < |prefix| && IsPieceLetter(prefix[i]) && p == PieceAt(prefix, i, y);
          PieceAtPrefix(row, n, i, y);
        } else {
          assert p == PieceAt(row, n, y);
        }
      }
    }
  }

  /** Within a rank, the placements carry that rank's y, lie on files
      1..Width(row), and stand on strictly increasing files. */
  lemma {:induction false} RowPlacementsOrdered(row: string, y: int)
    requires Decodable(row)
    ensures forall k :: 0 <= k < |RowPlacements(row, y)| ==>
      RowPlacements(row, y)[k].y == y && 1 <= RowPlacements(row, y)[k].x <= Width(row)
    ensures forall k, l :: 0 <= k < l < |RowPlacements(row, y)| ==>
      RowPlacements(row, y)[k].x < RowPlacements(row, y)[l].x
    decreases |row|
  {
    if row != [] {
      var n := |row| - 1;
      assert Decodable(row[..n]);
      RowPlacementsOrdered(row[..n], y);
    }
  }

  /** The order the decoder meets squares in: by rank, then by file. */
  predicate Before(p: PiecePlacement, q: PiecePlacement)
  {
    p.y < q.y || (p.y == q.y && p.x < q.x)
  }

  predicate InOrder(s: seq<PiecePlacement>)
  {
    forall k, l :: 0 <= k < l < |s| ==> Before(s[k], s[l])
  }

  lemma InOrderConcat(a: seq<PiecePlacement>, b: seq<PiecePlacement>)
    requires InOrder(a) && InOrder(b)
    requires forall k, l :: 0 <= k < |a| && 0 <= l < |b| ==> Before(a[k], b[l])
    ensures InOrder(a + b)
  {
    forall k, l | 0 <= k < l < |a + b| ensures Before((a + b)[k], (a + b)[l]) {
      if l < |a| {
      } else if k >= |a| {
        assert (a + b)[k] == b[k - |a|] && (a + b)[l] == b[l - |a|];
      } else {
        assert (a + b)[k] == a[k] && (a + b)[l] == b[l - |a|];
      }
    }
  }

  /** In encounter order the placements are sorted by rank, then by file,
      every y is a rank number 1..|ranks|, and every x lies within its
      rank's width; in particular no square is spawned twice. */
  lemma {:induction false} RanksPlacementsOrdered(ranks: seq<string>)
    requires RanksDecodable(ranks)
    ensures InOrder(RanksPlacements(ranks))
    ensures forall k :: 0 <= k < |RanksPlacements(ranks)| ==>
      var p := RanksPlacements(ranks)[k];
      1 <= p.y <= |ranks| && 1 <= p.x <= Width(ranks[p.y - 1])
    decreases |ranks|
  {
    if ranks != [] {
      var n := |ranks| - 1;
      var front := ranks[..n];
      assert RanksDecodable(front);
      RanksPlacementsOrdered(front);
      var a := RanksPlacements(front);
      var b := RowPlacements(ranks[n], n + 1);
      RowPlacementsOrdered(ranks[n], n + 1);
      assert forall k :: 0 <= k < |a| ==> a[k].y <= n && front[a[k].y - 1] == ranks[a[k].y - 1];
      InOrderConcat(a, b);
      assert RanksPlacements(ranks) == a + b;
    }
  }

  /** Every placement comes from one rank j, with y = j + 1; and every
      rank's placements are among the result. */
  lemma {:induction false} RanksPlacementsExact(ranks: seq<string>)
    requires RanksDecodable(ranks)
    ensures forall j, p :: 0 <= j < |ranks| && p in RowPlacements(ranks[j], j + 1) ==> p in RanksPlacements(ranks)
    ensures forall p :: p in RanksPlacements(ranks) ==>
      exists j :: 0 <= j < |ranks| && p in RowPlacements(ranks[j], j + 1)
    decreases |ranks|
  {
    if ranks != [] {
      var n := |ranks| - 1;
      var front := ranks[..n];
      assert RanksDecodable(front);
      RanksPlacementsExact(front);
      var a, b := RanksPlacements(front), RowPlacements(ranks[n], n + 1);
      assert RanksPlacements(ranks) == a + b;
      forall j, p | 0 <= j < |ranks| && p in RowPlacements(ranks[j], j + 1)
        ensures p in RanksPlacements(ranks)
      {
        if j < n {
          assert front[j] == ranks[j];
          assert p in a;
        } else {
          assert p in b;
        }
      }
      forall p | p in RanksPlacements(ranks)
        ensures exists j :: 0 <= j < |ranks| && p in RowPlacements(ranks[j], j + 1)
      {
        if p in a {
          var j :| 0 <= j < n && p in RowPlacements(front[j], j + 1);
          assert front[j] == ranks[j];
        } else {
          assert p in RowPlacements(ranks[n], n + 1);
        }
      }
    }
  }

  /** A well-formed placement field (at most 8 ranks, each describing at
      most 8 squares) yields only placements on the 8x8 board. */
  lemma PlacementsOnBoard(fen: string)
    requires FenDecodable(fen)
    requires |Ranks(fen)| <= 8
    requires forall j :: 0 <= j < |Ranks(fen)| ==> Width(Ranks(fen)[j]) <= 8
    ensures forall k :: 0 <= k < |Placements(fen)| ==>
      1 <= Placements(fen)[k].x <= 8 && 1 <= Placements(fen)[k].y <= 8
  {
    RanksPlacementsOrdered(Ranks(fen));
  }

  /** A digit d moves the file on by d: a piece right after it lands d
      squares beyond the squares described before the digit. */
  lemma DigitSkipsSquares(row: string, i: nat, y: int)
    requires Decodable(row) && i + 1 < |row|
    requires IsDigit(row[i]) && IsPieceLetter(row[i + 1])
    ensures PieceAt(row, i + 1, y).x == Width(row[..i]) + DigitValue(row[i]) + 1
  {
    RowStep(row, y, i);
  }

  /** Unlike the evaluator, the decoder honours run lengths: the pawn of the
      rank "3P4" is placed on file 4, while `evaluate_board` scores it at
      position 2 (Evaluator.DigitRunCountsAsOnePosition). */
  lemma DecodeHonoursRunLength()
    ensures FenDecodable("3P4")
    ensures Placements("3P4") == [PiecePlacement(4, 1, Pawn, White)]
  {
    var row: string := "3P4";
    SplitWithoutSeparator(row, ' ');
    SplitWithoutSeparator(row, '/');
    assert Ranks(row) == [row];
    RunLengthRank();
    assert [row][..0] == [];
  }

  /** The rank "3P4" on its own: the digit describes files 1 to 3 and the
      pawn lands on file 4. */
  lemma RunLengthRank()
    ensures Decodable("3P4")
    ensures RowPlacements("3P4", 1) == [PiecePlacement(4, 1, Pawn, White)]
  {
    var row: string := "3P4";
    assert Decodable(row);
    assert Width(row[..1]) == 3 by {
      RowStep(row, 1, 0);
      assert row[..0] == [];
    }
    assert RowPlacements(row[..2], 1) == [PiecePlacement(4, 1, Pawn, White)] by {
      RowStep(row, 1, 0);
      RowStep(row, 1, 1);
      assert row[..0] == [];
    }
    RowStep(row, 1, 2);
    assert row[..3] == row;
  }
}
