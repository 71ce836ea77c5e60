/** Squares and moves as the engine handles them, and the coordinate helper
    `coords_to_square` (src/main.rs:248-263), which turns a board position
    (file x and rank y, both 1-based) into the square named by the letter
    of file x followed by the decimal digits of y. */
module Squares {
  import opened Text
  import opened Pieces

  /** A square as the chess library numbers it: file 0..7 stands for
      'a'..'h' and rank 0..7 for '1'..'8'. */
  datatype Square = Square(file: int, rank: int)

  predicate ValidSquare(sq: Square)
  {
    0 <= sq.file < 8 && 0 <= sq.rank < 8
  }

  /** `Square::default()`, the square a1. */
  const DefaultSquare := Square(0, 0)

  /** `ChessMove::new(source, dest, promotion)`. */
  datatype ChessMove = ChessMove(source: Square, dest: Square, promotion: Option<PieceKind>)

  /** `ChessMove::default()`: a1 to a1 with no promotion. */
  const DefaultMove := ChessMove(DefaultSquare, DefaultSquare, None)

  const Files := "abcdefgh"

  /** The `match x` of `coords_to_square`. */
  function FileLetter(x: int): (c: char)
    requires 1 <= x <= 8
    ensures c == Files[x - 1]
  {
    match x
    case 1 => 'a' case 2 => 'b' case 3 => 'c' case 4 => 'd'
    case 5 => 'e' case 6 => 'f' case 7 => 'g' case _ => 'h'
  }

  /** `square_char.to_owned() + y.to_string()`; for y in 1..8 the decimal
      text of y is a single digit. */
  function SquareText(x: int, y: int): (s: string)
    requires 1 <= x <= 8 && 1 <= y <= 8
  {
    [FileLetter(x)] + [('0' as int + y) as char]
  }

  /** The square a two-character algebraic name denotes, if any. */
  function ParseSquare(s: string): (r: Option<Square>)
    ensures r.Some? ==> ValidSquare(r.value)
  {
    if |s| == 2 && 'a' <= s[0] <= 'h' && '1' <= s[1] <= '8'
    then Some(Square(s[0] as int - 'a' as int, s[1] as int - '1' as int))
    else None
  }

  /** The algebraic name of a square, "a1" to "h8". */
  function SquareName(sq: Square): (s: string)
    requires ValidSquare(sq)
    ensures |s| == 2
  {
    [Files[sq.file]] + [('1' as int + sq.rank) as char]
  }

  /** Names and squares correspond one to one. */
  lemma NameRoundTrip(sq: Square, s: string)
    ensures ValidSquare(sq) ==> ParseSquare(SquareName(sq)) == Some(sq)
    ensures ParseSquare(s).Some? ==> SquareName(ParseSquare(s).value) == s
  {
    if ValidSquare(sq) {
      var t := SquareName(sq);
      assert t[0] == Files[sq.file];
      assert 'a' <= t[0] <= 'h' && t[0] as int - 'a' as int == sq.file by {
        assert Files[sq.file] as int == 'a' as int + sq.file;
      }
    }
    if ParseSquare(s).Some? {
      var q := ParseSquare(s).value;
      assert Files[q.file] == s[0] by {
        assert Files[q.file] as int == 'a' as int + q.file;
      }
      assert SquareName(q) == [s[0]] + [s[1]];
    }
  }

  /** `coords_to_square`: the square whose file letter is "abcdefgh"[x - 1]
      and whose rank is y. Outside 1..8 the source's `unwrap` fails, so the
      range is required. */
  function CoordsToSquare(x: int, y: int): (sq: Square)
    requires 1 <= x <= 8 && 1 <= y <= 8
    ensures ValidSquare(sq)
    ensures sq.file == x - 1 && sq.rank == y - 1
    ensures SquareName(sq) == SquareText(x, y)
  {
    var text := SquareText(x, y);
    assert 'a' <= text[0] <= 'h' && text[0] as int - 'a' as int == x - 1 by {
      assert Files[x - 1] as int == 'a' as int + x - 1;
    }
    var sq := ParseSquare(text).value;
    NameRoundTrip(sq, text);
    sq
  }

  /** Every square of the board is reached by exactly one pair of coordinates. */
  lemma CoordsToSquareBijective(sq: Square, x: int, y: int, x': int, y': int)
    requires 1 <= x <= 8 && 1 <= y <= 8 && 1 <= x' <= 8 && 1 <= y' <= 8
    ensures ValidSquare(sq) ==> CoordsToSquare(sq.file + 1, sq.rank + 1) == sq
    ensures CoordsToSquare(x, y) == CoordsToSquare(x', y') ==> x == x' && y == y'
  {
  }
}
