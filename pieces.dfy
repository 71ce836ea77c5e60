/** Piece kinds, colours and the FEN piece letters the engine matches on:
    upper case for White, lower case for Black. */
module Pieces {
  import opened Text

  datatype PieceKind = Pawn | Knight | Bishop | Rook | Queen | King
  datatype Colour = White | Black

  /** The twelve characters the source's `match` arms name. */
  predicate IsPieceLetter(c: char)
  {
    c == 'p' || c == 'n' || c == 'r' || c == 'b' || c == 'k' || c == 'q' ||
    c == 'P' || c == 'N' || c == 'R' || c == 'B' || c == 'K' || c == 'Q'
  }

  /** The FEN letter of a piece of kind k and colour c. */
  function Letter(k: PieceKind, c: Colour): (ch: char)
    ensures IsPieceLetter(ch)
    ensures c == White <==> IsUpper(ch)
  {
    match k
    case Pawn => if c == White then 'P' else 'p'
    case Knight => if c == White then 'N' else 'n'
    case Bishop => if c == White then 'B' else 'b'
    case Rook => if c == White then 'R' else 'r'
    case Queen => if c == White then 'Q' else 'q'
    case King => if c == White then 'K' else 'k'
  }

  function KindOf(ch: char): PieceKind
    requires IsPieceLetter(ch)
  {
    match ch
    case 'p' => Pawn case 'P' => Pawn
    case 'n' => Knight case 'N' => Knight
    case 'b' => Bishop case 'B' => Bishop
    case 'r' => Rook case 'R' => Rook
    case 'q' => Queen case 'Q' => Queen
    case _ => King
  }

  function ColourOf(ch: char): Colour
    requires IsPieceLetter(ch)
  {
    if IsUpper(ch) then White else Black
  }

  /** The letter mapping is a bijection between the twelve letters and
      the kind-colour pairs. */
  lemma LetterRoundTrip(k: PieceKind, c: Colour, ch: char)
    ensures KindOf(Letter(k, c)) == k && ColourOf(Letter(k, c)) == c
    ensures IsPieceLetter(ch) ==> Letter(KindOf(ch), ColourOf(ch)) == ch
  {
  }

  /** Swapping a piece letter's case keeps its kind and flips its colour. */
  lemma SwapCaseLetter(ch: char)
    ensures IsPieceLetter(SwapCaseChar(ch)) <==> IsPieceLetter(ch)
    ensures IsPieceLetter(ch) ==> KindOf(SwapCaseChar(ch)) == KindOf(ch)
    ensures IsPieceLetter(ch) ==> ColourOf(SwapCaseChar(ch)) != ColourOf(ch)
  {
  }
}
