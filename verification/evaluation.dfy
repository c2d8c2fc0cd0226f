/** The end-of-game rule, stated on a snapshot of the board: the tally that
    one scan of the cells gathers, the decision taken from it, and the
    "turn everything over" step that ends a game. */
module Evaluation {
  import opened Stones

  /** What a scan announces: nothing, a win or a loss. */
  datatype Outcome = Undecided | Win | Loss

  /** What one scan of the board gathers. */
  datatype Tally = Tally(bombs: nat, hidden: nat, revealedBomb: bool, allBombsFlagged: bool)

  predicate IsBomb(s: Stone) { s.isBomb }

  predicate IsHidden(s: Stone) { !s.isRevealed }

  /** Number of cells of one row that satisfy p. */
  function CountRow(row: seq<Stone>, p: Stone -> bool): (n: nat)
    ensures n <= |row|
  {
    if row == [] then 0
    else CountRow(row[..|row| - 1], p) + (if p(row[|row| - 1]) then 1 else 0)
  }

  /** Number of cells of the board that satisfy p. */
  function Count(b: Board, p: Stone -> bool): nat
  {
    if b == [] then 0 else Count(b[..|b| - 1], p) + CountRow(b[|b| - 1], p)
  }

  predicate AnyRevealedBomb(b: Board)
  {
    exists i, j :: 0 <= i < |b| && 0 <= j < |b[i]| && b[i][j].isBomb && b[i][j].isRevealed
  }

  /** True when no cell is an unflagged bomb (so true on a board without bombs). */
  predicate AllBombsFlagged(b: Board)
  {
    forall i, j :: 0 <= i < |b| && 0 <= j < |b[i]| && b[i][j].isBomb ==> b[i][j].isFlagged
  }

  /** Every cell that is not a bomb has been revealed. */
  predicate AllSafeRevealed(b: Board)
  {
    forall i, j :: 0 <= i < |b| && 0 <= j < |b[i]| && !b[i][j].isBomb ==> b[i][j].isRevealed
  }

  predicate AllRevealed(b: Board)
  {
    forall i, j :: 0 <= i < |b| && 0 <= j < |b[i]| ==> b[i][j].isRevealed
  }

  /** The tally of a board: bombs, concealed cells, whether a bomb shows,
      whether every bomb carries a flag. */
  function TallyOf(b: Board): Tally
  {
    Tally(Count(b, IsBomb), Count(b, IsHidden), AnyRevealedBomb(b), AllBombsFlagged(b))
  }

  /** The decision taken from a tally: a revealed bomb loses before anything
      else is looked at; otherwise as many bombs as concealed cells, or every
      bomb flagged, wins. */
  function Decide(t: Tally): (o: Outcome)
    ensures o == Loss <==> t.revealedBomb
    ensures o == Win <==> !t.revealedBomb && (t.bombs == t.hidden || t.allBombsFlagged)
  {
    if t.revealedBomb then Loss
    else if t.bombs == t.hidden || t.allBombsFlagged then Win
    else Undecided
  }

  /** A tally that reports a revealed bomb, or a bomb without a flag, has
      counted at least one bomb. */
  predicate Consistent(t: Tally)
  {
    t.revealedBomb || !t.allBombsFlagged ==> t.bombs > 0
  }

  /** The tally after one more stone has been looked at: the four checks
      the scan makes on each stone, in its order. Each count grows by at most
      one and consistency is kept. */
  function Visit(t: Tally, s: Stone): (r: Tally)
    ensures t.bombs <= r.bombs <= t.bombs + 1 && t.hidden <= r.hidden <= t.hidden + 1
    ensures Consistent(t) ==> Consistent(r)
  {
    Tally(t.bombs + (if s.isBomb then 1 else 0),
          t.hidden + (if !s.isRevealed then 1 else 0),
          t.revealedBomb || (s.isBomb && s.isRevealed),
          t.allBombsFlagged && !(!s.isFlagged && s.isBomb))
  }

  /** The tally of a scan that has seen nothing yet. */
  const NoTally := Tally(0, 0, false, true)

  /** The tally after the stones of `row` have been visited in order,
      starting from `t`: each count grows by at most the length of the row,
      and consistency is kept. */
  function ScanRow(t: Tally, row: seq<Stone>): (r: Tally)
    ensures t.bombs <= r.bombs <= t.bombs + |row| && t.hidden <= r.hidden <= t.hidden + |row|
    ensures Consistent(t) ==> Consistent(r)
  {
    if row == [] then t else Visit(ScanRow(t, row[..|row| - 1]), row[|row| - 1])
  }

  /** The tally after every stone of the board has been visited, row after
      row and left to right; it is consistent. */
  function Scan(b: Board): (r: Tally)
    ensures Consistent(r)
  {
    if b == [] then NoTally else ScanRow(Scan(b[..|b| - 1]), b[|b| - 1])
  }

  function Judge(b: Board): Outcome
  {
    Decide(TallyOf(b))
  }

  /** Every cell turned over, nothing else changed. */
  function FlipAll(b: Board): (f: Board)
    ensures |f| == |b| && forall i :: 0 <= i < |b| ==> |f[i]| == |b[i]|
    ensures forall i, j :: 0 <= i < |b| && 0 <= j < |b[i]| ==> f[i][j] == Flipped(b[i][j])
  {
    seq(|b|, i requires 0 <= i < |b| => seq(|b[i]|, j requires 0 <= j < |b[i]| => Flipped(b[i][j])))
  }

  /** Starting a new row adds nothing to the tally. */
  lemma TallyEmptyRow(front: Board)
    ensures TallyOf(front + [[]]) == TallyOf(front)
  {
    var b := front + [[]];
    assert b[..|b| - 1] == front;
    assert forall i :: 0 <= i < |front| ==> b[i] == front[i];
  }

  lemma CountAppendCell(front: Board, row: seq<Stone>, s: Stone, p: Stone -> bool)
    ensures Count(front + [row + [s]], p) == Count(front + [row], p) + (if p(s) then 1 else 0)
  {
    var b1 := front + [row];
    var b2 := front + [row + [s]];
    assert b1[..|front|] == front && b2[..|front|] == front;
    assert (row + [s])[..|row|] == row;
  }

  lemma RevealedBombAppendCell(front: Board, row: seq<Stone>, s: Stone)
    ensures AnyRevealedBomb(front + [row + [s]]) == (AnyRevealedBomb(front + [row]) || (s.isBomb && s.isRevealed))
  {
    var b1 := front + [row];
    var b2 := front + [row + [s]];
    if AnyRevealedBomb(b2) {
      var i, j :| 0 <= i < |b2| && 0 <= j < |b2[i]| && b2[i][j].isBomb && b2[i][j].isRevealed;
      if (i, j) != (|front|, |row|) {
        assert b1[i][j] == b2[i][j];
      }
    }
    if AnyRevealedBomb(b1) {
      var i, j :| 0 <= i < |b1| && 0 <= j < |b1[i]| && b1[i][j].isBomb && b1[i][j].isRevealed;
      assert b2[i][j] == b1[i][j];
    }
    if s.isBomb && s.isRevealed {
      assert b2[|front|][|row|] == s;
    }
  }

  lemma FlaggedAppendCell(front: Board, row: seq<Stone>, s: Stone)
    ensures AllBombsFlagged(front + [row + [s]]) == (AllBombsFlagged(front + [row]) && !(!s.isFlagged && s.isBomb))
  {
    var b1 := front + [row];
    var b2 := front + [row + [s]];
    if !AllBombsFlagged(b2) {
      var i, j :| 0 <= i < |b2| && 0 <= j < |b2[i]| && b2[i][j].isBomb && !b2[i][j].isFlagged;
      if (i, j) != (|front|, |row|) {
        assert b1[i][j] == b2[i][j];
      }
    }
    if !AllBombsFlagged(b1) {
      var i, j :| 0 <= i < |b1| && 0 <= j < |b1[i]| && b1[i][j].isBomb && !b1[i][j].isFlagged;
      assert b2[i][j] == b1[i][j];
    }
    if !s.isFlagged && s.isBomb {
      assert b2[|front|][|row|] == s;
    }
  }

  /** Scanning one more stone of the last row updates the tally of the cells
      scanned so far exactly as `Visit` does: the scan, taken stone by stone,
      computes `TallyOf`. */
  lemma TallyAppendCell(front: Board, row: seq<Stone>, s: Stone)
    ensures TallyOf(front + [row + [s]]) == Visit(TallyOf(front + [row]), s)
  {
    CountAppendCell(front, row, s, IsBomb);
    CountAppendCell(front, row, s, IsHidden);
    RevealedBombAppendCell(front, row, s);
    FlaggedAppendCell(front, row, s);
  }

  lemma {:induction false} ScanRowIsTally(front: Board, row: seq<Stone>)
    ensures ScanRow(TallyOf(front), row) == TallyOf(front + [row])
  {
    if row == [] {
      TallyEmptyRow(front);
    } else {
      var n := |row| - 1;
      ScanRowIsTally(front, row[..n]);
      TallyAppendCell(front, row[..n], row[n]);
      assert row[..n] + [row[n]] == row;
    }
  }

  /** Visiting the stones one by one computes the tally of the board. */
  lemma {:induction false} ScanIsTally(b: Board)
    ensures Scan(b) == TallyOf(b)
  {
    if b == [] {
      assert TallyOf(b) == NoTally;
    } else {
      var n := |b| - 1;
      ScanIsTally(b[..n]);
      ScanRowIsTally(b[..n], b[n]);
      assert b[..n] + [b[n]] == b;
    }
  }

  /** If every cell satisfying p satisfies q, fewer cells satisfy p; the two
      counts agree exactly when the converse holds too. */
  lemma {:induction false} CountRowCompare(row: seq<Stone>, p: Stone -> bool, q: Stone -> bool)
    requires forall k :: 0 <= k < |row| && p(row[k]) ==> q(row[k])
    ensures CountRow(row, p) <= CountRow(row, q)
    ensures CountRow(row, p) == CountRow(row, q) <==>
            forall k :: 0 <= k < |row| && q(row[k]) ==> p(row[k])
  {
    if row != [] {
      var n := |row| - 1;
      var front := row[..n];
      assert forall k :: 0 <= k < n ==> front[k] == row[k];
      CountRowCompare(front, p, q);
      if CountRow(row, p) == CountRow(row, q) {
        assert q(row[n]) ==> p(row[n]);
      }
    }
  }

  lemma {:induction false} CountCompare(b: Board, p: Stone -> bool, q: Stone -> bool)
    requires forall i, j :: 0 <= i < |b| && 0 <= j < |b[i]| && p(b[i][j]) ==> q(b[i][j])
    ensures Count(b, p) <= Count(b, q)
    ensures Count(b, p) == Count(b, q) <==>
            forall i, j :: 0 <= i < |b| && 0 <= j < |b[i]| && q(b[i][j]) ==> p(b[i][j])
  {
    if b != [] {
      var n := |b| - 1;
      var front := b[..n];
      assert forall i :: 0 <= i < n ==> front[i] == b[i];
      CountCompare(front, p, q);
      CountRowCompare(b[n], p, q);
    }
  }

  /** The count-based win test "as many bombs as concealed cells" is exact
      while no bomb shows: it holds precisely when every safe cell has been
      revealed. */
  lemma CountWinIsAllSafeRevealed(b: Board)
    requires !AnyRevealedBomb(b)
    ensures Count(b, IsBomb) == Count(b, IsHidden) <==> AllSafeRevealed(b)
  {
    CountCompare(b, IsBomb, IsHidden);
  }

  /** A loss is announced exactly when some bomb is revealed, whatever the
      win conditions say. */
  lemma JudgeLoss(b: Board)
    ensures Judge(b) == Loss <==> AnyRevealedBomb(b)
  {
  }

  /** A win is announced exactly when no bomb shows and either every safe
      cell is revealed or every bomb is flagged. */
  lemma JudgeWin(b: Board)
    ensures Judge(b) == Win <==> !AnyRevealedBomb(b) && (AllSafeRevealed(b) || AllBombsFlagged(b))
  {
    if !AnyRevealedBomb(b) {
      CountWinIsAllSafeRevealed(b);
    }
  }

  /** On a grid where nothing is revealed or flagged yet, the decision is
      never a loss, and is a win exactly when every cell is a bomb or none
      is. */
  lemma JudgeFresh(b: Board)
    requires forall i, j :: 0 <= i < |b| && 0 <= j < |b[i]| ==> !b[i][j].isRevealed && !b[i][j].isFlagged
    ensures Judge(b) != Loss
    ensures Judge(b) == Win <==> (forall i, j :: 0 <= i < |b| && 0 <= j < |b[i]| ==> b[i][j].isBomb) ||
                                 (forall i, j :: 0 <= i < |b| && 0 <= j < |b[i]| ==> !b[i][j].isBomb)
  {
    JudgeWin(b);
  }

  /** A board without bombs is always a win. */
  lemma NoBombsIsWin(b: Board)
    requires forall i, j :: 0 <= i < |b| && 0 <= j < |b[i]| ==> !b[i][j].isBomb
    ensures Judge(b) == Win
  {
  }

  /** Flagging every bomb wins even while safe cells are still concealed
      and while safe cells carry flags too. */
  lemma FlagWinLeavesSafeCellsHidden()
    ensures var b: Board := [[Stone(true, true, false, 0), Stone(false, true, false, 1), Stone(false, false, false, 0)]];
            Judge(b) == Win && !AllSafeRevealed(b)
  {
    var b: Board := [[Stone(true, true, false, 0), Stone(false, true, false, 1), Stone(false, false, false, 0)]];
    assert !b[0][1].isRevealed;
  }

  /** Turning everything over twice is the same as once, and leaves nothing
      concealed. */
  lemma FlipAllIdempotent(b: Board)
    ensures FlipAll(FlipAll(b)) == FlipAll(b)
    ensures AllRevealed(FlipAll(b))
  {
    var f := FlipAll(b);
    var ff := FlipAll(f);
    assert |ff| == |f|;
    forall i | 0 <= i < |f|
      ensures ff[i] == f[i]
    {
      assert |ff[i]| == |f[i]|;
      forall j | 0 <= j < |f[i]|
        ensures ff[i][j] == f[i][j]
      {
        FlippedEffect(b[i][j]);
      }
    }
  }
}
