/** One cell of the board (a "stone") and the per-cell operations that the
    game applies to it. The presentation-only fields of the record (the key
    string and the bomb text) are not part of the model. */
module Stones {

  /** The state of one cell. `adjacentBombs` starts at 0 and is raised by the
      adjacency pass; for a bomb it stays 0. */
  datatype Stone = Stone(isBomb: bool, isFlagged: bool, isRevealed: bool, adjacentBombs: nat)

  /** A snapshot of the grid, row by row. */
  type Board = seq<seq<Stone>>

  predicate InBoard(b: Board, i: int, j: int)
  {
    0 <= i < |b| && 0 <= j < |b[i]|
  }

  predicate SameShape(b0: Board, b1: Board)
  {
    |b0| == |b1| && forall i :: 0 <= i < |b0| ==> |b0[i]| == |b1[i]|
  }

  /** Two snapshots of the same shape that agree cell by cell are equal. */
  lemma BoardExt(b0: Board, b1: Board)
    requires SameShape(b0, b1)
    requires forall i, j :: InBoard(b0, i, j) ==> b0[i][j] == b1[i][j]
    ensures b0 == b1
  {
    forall i | 0 <= i < |b0|
      ensures b0[i] == b1[i]
    {
      assert forall j :: 0 <= j < |b0[i]| ==> b0[i][j] == b1[i][j];
    }
  }

  /** The record built for a fresh board: concealed, not flagged, count 0. */
  function NewStone(isBomb: bool): Stone
  {
    Stone(isBomb, false, false, 0)
  }

  /** The copy made when every cell is turned over at the end of a game: it
      is revealed and differs from `s` in nothing else. */
  function Flipped(s: Stone): (f: Stone)
    ensures f.isRevealed && f.(isRevealed := s.isRevealed) == s
  {
    s.(isRevealed := true)
  }

  /** The right-click rule: a revealed cell is left alone, any other cell has
      its flag inverted. The result differs from `s` exactly when `s` is
      concealed, and then only in its flag. */
  function ToggleFlag(s: Stone): (t: Stone)
    ensures t == s <==> s.isRevealed
    ensures t.(isFlagged := s.isFlagged) == s
  {
    if s.isRevealed then s else s.(isFlagged := !s.isFlagged)
  }

  /** The grid after a right-click on (r, c): only that cell is toggled. */
  function FlagAt(b: Board, r: int, c: int): (f: Board)
    requires InBoard(b, r, c)
    ensures SameShape(b, f) && f[r][c] == ToggleFlag(b[r][c])
    ensures forall i, j :: InBoard(b, i, j) && (i, j) != (r, c) ==> f[i][j] == b[i][j]
  {
    b[r := b[r][c := ToggleFlag(b[r][c])]]
  }

  /** A second right-click on the same cell gives the grid back. */
  lemma FlagAtTwice(b: Board, r: int, c: int)
    requires InBoard(b, r, c)
    ensures FlagAt(FlagAt(b, r, c), r, c) == b
  {
    ToggleFlagTwice(b[r][c]);
    var f := FlagAt(FlagAt(b, r, c), r, c);
    BoardExt(f, b);
  }

  /** What one reveal may do to a cell: nothing, or uncover a cell that was
      neither revealed nor flagged (and touch no other field). */
  predicate Grows(s: Stone, t: Stone)
  {
    t == s || (!s.isRevealed && !s.isFlagged && t == s.(isRevealed := true))
  }

  lemma ToggleFlagEffect(s: Stone)
    ensures s.isRevealed ==> ToggleFlag(s) == s
    ensures !s.isRevealed ==> ToggleFlag(s).isFlagged == !s.isFlagged
    ensures ToggleFlag(s).isBomb == s.isBomb && ToggleFlag(s).isRevealed == s.isRevealed
    ensures ToggleFlag(s).adjacentBombs == s.adjacentBombs
  {
  }

  /** Toggling the flag twice gives the cell back. */
  lemma ToggleFlagTwice(s: Stone)
    ensures ToggleFlag(ToggleFlag(s)) == s
  {
  }

  /** Turning a cell over keeps everything but `isRevealed`, and doing it
      again changes nothing. */
  lemma FlippedEffect(s: Stone)
    ensures Flipped(s).isRevealed
    ensures Flipped(s).isBomb == s.isBomb && Flipped(s).isFlagged == s.isFlagged
    ensures Flipped(s).adjacentBombs == s.adjacentBombs
    ensures Flipped(Flipped(s)) == Flipped(s)
  {
  }

  /** `Grows` is reflexive and transitive, so successive reveals compose. */
  lemma GrowsTransitive(a: Stone, b: Stone, c: Stone)
    requires Grows(a, b) && Grows(b, c)
    ensures Grows(a, c)
  {
  }
}
