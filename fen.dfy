/** The piece-placement field of a FEN string, split into ranks the way both
    `evaluate_board` (src/main.rs:202-203) and `spawn_board_from_fen_string`
    (src/main.rs:99-100) split it. */
module Fen {
  import opened Text

  /** `fen.split(" ")` then `[0].split("/")`: the ranks of the placement field in
      string order. */
  function Ranks(fen: string): (ranks: seq<string>)
    ensures |ranks| >= 1
    ensures forall j :: 0 <= j < |ranks| ==> '/' !in ranks[j]
  {
    Split(Split(fen, ' ')[0], '/')
  }

  /** The ranks are exactly the placement field cut at its separators. */
  lemma RanksJoin(fen: string)
    ensures Join(Ranks(fen), '/') == Split(fen, ' ')[0]
    ensures ' ' !in Join(Ranks(fen), '/')
  {
    JoinSplit(Split(fen, ' ')[0], '/');
  }
}
