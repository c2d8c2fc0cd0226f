/** The game itself: a grid of stones that clicks and right-clicks change in
    place, the adjacency pass run when the grid is generated, and the
    end-of-game evaluation that runs after every change of the grid. */
module Minesweeper {
  import opened Stones
  import opened Adjacency
  import opened Evaluation
  import opened FloodFill

  /** The mine layout of a grid. */
  ghost function MinesOf(a: array2<Stone>): (m: Layout)
    reads a
    ensures |m| == a.Length0 && forall i :: 0 <= i < |m| ==> |m[i]| == a.Length1
    ensures Rectangular(m)
    ensures forall i, j :: 0 <= i < a.Length0 && 0 <= j < a.Length1 ==> m[i][j] == a[i, j].isBomb
  {
    seq(a.Length0, i requires 0 <= i < a.Length0 reads a =>
      seq(a.Length1, j requires 0 <= j < a.Length1 reads a => a[i, j].isBomb))
  }

  /** A snapshot of a grid. */
  ghost function BoardOf(a: array2<Stone>): (b: Board)
    reads a
    ensures |b| == a.Length0 && forall i :: 0 <= i < |b| ==> |b[i]| == a.Length1
    ensures forall i, j :: 0 <= i < a.Length0 && 0 <= j < a.Length1 ==> b[i][j] == a[i, j]
  {
    seq(a.Length0, i requires 0 <= i < a.Length0 reads a =>
      seq(a.Length1, j requires 0 <= j < a.Length1 reads a => a[i, j]))
  }

  /** `m` is the mine layout of the grid `a`. */
  ghost predicate LayoutOf(m: Layout, a: array2<Stone>)
    reads a
  {
    |m| == a.Length0 && (forall i :: 0 <= i < |m| ==> |m[i]| == a.Length1) &&
    forall i, j :: 0 <= i < a.Length0 && 0 <= j < a.Length1 ==> m[i][j] == a[i, j].isBomb
  }

  /** A stone after the adjacency pass has added the bombs around it: only
      its count changes, by at most 8, and a bomb's stays as it was. */
  function Counted(s: Stone, m: Layout, r: int, c: int): (t: Stone)
    requires Rectangular(m) && InBounds(m, r, c)
    ensures t.(adjacentBombs := s.adjacentBombs) == s
    ensures s.adjacentBombs <= t.adjacentBombs <= s.adjacentBombs + 8
    ensures m[r][c] ==> t == s
  {
    s.(adjacentBombs := s.adjacentBombs + AdjacentCount(m, r, c))
  }

  /** The adjacency pass: every cell that is not a bomb has its count raised
      by the number of bombs on the in-bounds cells at the eight offsets;
      nothing else changes. */
  method ComputeAdjacentBombs(stones: array2<Stone>)
    modifies stones
    ensures forall i, j :: 0 <= i < stones.Length0 && 0 <= j < stones.Length1 ==>
              stones[i, j] == Counted(old(stones[i, j]), old(MinesOf(stones)), i, j)
  {
    ghost var m := MinesOf(stones);
    for row := 0 to stones.Length0
      invariant forall i, j :: 0 <= i < stones.Length0 && 0 <= j < stones.Length1 ==>
                  stones[i, j] == if i < row then Counted(old(stones[i, j]), m, i, j) else old(stones[i, j])
    {
      for col := 0 to stones.Length1
        invariant forall i, j :: 0 <= i < stones.Length0 && 0 <= j < stones.Length1 ==>
                    stones[i, j] == if i < row || (i == row && j < col) then Counted(old(stones[i, j]), m, i, j)
                                    else old(stones[i, j])
      {
        if stones[row, col].isBomb {
          continue;
        }
        AddBombsAround(stones, row, col, m);
      }
    }
  }

  /** The inner loop of the adjacency pass, on one cell: its count is raised
      once for each offset that lands inside the grid on a bomb. */
  method AddBombsAround(stones: array2<Stone>, row: int, col: int, ghost m: Layout)
    requires 0 <= row < stones.Length0 && 0 <= col < stones.Length1 && LayoutOf(m, stones)
    modifies stones
    ensures stones[row, col] ==
            old(stones[row, col]).(adjacentBombs := old(stones[row, col].adjacentBombs) + BombsAround(m, row, col))
    ensures forall i, j :: 0 <= i < stones.Length0 && 0 <= j < stones.Length1 && (i, j) != (row, col) ==>
              stones[i, j] == old(stones[i, j])
  {
    assert Rectangular(m);
    var stone := stones[row, col];
    for k := 0 to |Directions|
      invariant stone == stones[row, col].(adjacentBombs := stones[row, col].adjacentBombs + CountDirs(m, row, col, k))
    {
      var adjacentRow, adjacentCol := row + Directions[k].0, col + Directions[k].1;
      if adjacentRow < 0 || adjacentRow >= stones.Length0 || adjacentCol < 0 || adjacentCol >= stones.Length1 {
        assert Hit(m, row, col, k) == 0;
        continue;
      }
      assert Hit(m, row, col, k) == if stones[adjacentRow, adjacentCol].isBomb then 1 else 0;
      if stones[adjacentRow, adjacentCol].isBomb {
        stone := stone.(adjacentBombs := stone.adjacentBombs + 1);
      }
    }
    stones[row, col] := stone;
  }

  class Game {
    /** The stones, row by row. */
    var cells: array2<Stone>
    /** Set once a win or a loss has been announced. */
    var finished: bool
    /** The mine layout the grid was generated from. */
    ghost const mines: Layout

    predicate InGrid(i: int, j: int)
      reads this
    {
      0 <= i < cells.Length0 && 0 <= j < cells.Length1
    }

    ghost function Snapshot(): Board
      reads this, cells
    {
      BoardOf(cells)
    }

    /** The object invariant: the bombs are those of the layout, every count
        is the adjacency count of the layout, and a finished game shows every
        cell. */
    ghost predicate Valid()
      reads this, cells
    {
      LayoutOf(mines, cells) && Rectangular(mines) &&
      (forall i, j :: InGrid(i, j) ==> InBounds(mines, i, j) && cells[i, j].adjacentBombs == AdjacentCount(mines, i, j)) &&
      (finished ==> forall i, j :: InGrid(i, j) ==> cells[i, j].isRevealed)
    }

    /** Generation: a fresh grid of concealed, unflagged stones with the given
        mine layout, followed by the adjacency pass. */
    constructor (rows: nat, cols: nat, layout: Layout)
      requires |layout| == rows && forall i :: 0 <= i < rows ==> |layout[i]| == cols
      ensures Valid() && !finished && mines == layout && fresh(cells)
      ensures cells.Length0 == rows && cells.Length1 == cols
      ensures forall i, j :: InGrid(i, j) ==> !cells[i, j].isRevealed && !cells[i, j].isFlagged
    {
      mines := layout;
      finished := false;
      cells := new Stone[rows, cols]((i, j) requires 0 <= i < rows && 0 <= j < cols => NewStone(layout[i][j]));
      new;
      ghost var m := MinesOf(cells);
      forall i | 0 <= i < rows
        ensures m[i] == layout[i]
      {
        assert forall j :: 0 <= j < cols ==> m[i][j] == layout[i][j];
      }
      assert m == layout;
      ComputeAdjacentBombs(cells);
    }

    /** Reveal with flood fill. A revealed or flagged cell is left alone;
        otherwise the cell is revealed and, when its count is 0 (as it is for
        a bomb), each in-bounds neighbour is revealed the same way. */
    method RevealStone(r: int, c: int)
      requires Valid() && InGrid(r, c)
      modifies cells
      decreases HiddenOf(Snapshot()), 1
      ensures Valid()
      ensures old(cells[r, c].isRevealed || cells[r, c].isFlagged) ==> unchanged(cells)
      ensures RevealResult(old(Snapshot()), Snapshot(), r, c)
      ensures Snapshot() == Flood(old(Snapshot()), r, c)
    {
      ghost var b0: Board := Snapshot();
      if cells[r, c].isRevealed || cells[r, c].isFlagged {
        RevealNothing(b0, r, c);
        RevealIsFlood(b0, b0, r, c);
        return;
      }
      cells[r, c] := cells[r, c].(isRevealed := true);
      assert Valid();
      RevealOne(b0, Snapshot(), r, c);
      if cells[r, c].adjacentBombs == 0 {
        RevealAround(r, c, b0);
      }
      RevealIsFlood(b0, Snapshot(), r, c);
    }

    /** The cascade of a reveal: (r, c) has just been uncovered with count 0,
        and each of the eight offsets around it that lands inside the grid is
        revealed in turn. */
    method RevealAround(r: int, c: int, ghost b0: Board)
      requires Valid() && InGrid(r, c) && Cascading(b0, Snapshot(), r, c, 0)
      modifies cells
      decreases HiddenOf(b0), 0
      ensures Valid()
      ensures RevealResult(b0, Snapshot(), r, c)
    {
      for k := 0 to |Directions|
        invariant Valid()
        invariant Cascading(b0, Snapshot(), r, c, k)
      {
        var adjacentRow, adjacentCol := r + Directions[k].0, c + Directions[k].1;
        if adjacentRow < 0 || adjacentRow >= cells.Length0 || adjacentCol < 0 || adjacentCol >= cells.Length1 {
          CascadeSkip(b0, Snapshot(), r, c, k);
          continue;
        }
        ghost var mid: Board := Snapshot();
        assert Step(r, c, k) == (adjacentRow, adjacentCol);
        if !b0[r][c].isBomb {
          ZeroCountNeighbourSafe(mines, r, c, k);
          assert !mid[adjacentRow][adjacentCol].isBomb;
        }
        RevealStone(adjacentRow, adjacentCol);
        ghost var now: Board := Snapshot();
        assert RevealResult(mid, now, adjacentRow, adjacentCol);
        CascadeStep(b0, mid, now, r, c, k);
      }
      CascadeDone(b0, Snapshot(), r, c);
    }

    /** Right-click: a revealed cell is left alone, any other cell has its
        flag inverted; no other cell changes. */
    method RightClickStone(r: int, c: int)
      requires Valid() && InGrid(r, c)
      modifies cells
      ensures Valid()
      ensures old(cells[r, c].isRevealed) ==> unchanged(cells)
      ensures cells[r, c] == ToggleFlag(old(cells[r, c]))
      ensures forall i, j :: InGrid(i, j) && (i, j) != (r, c) ==> cells[i, j] == old(cells[i, j])
      ensures Snapshot() == FlagAt(old(Snapshot()), r, c)
    {
      ghost var b0: Board := Snapshot();
      if cells[r, c].isRevealed {
        BoardExt(Snapshot(), FlagAt(b0, r, c));
        return;
      }
      cells[r, c] := cells[r, c].(isFlagged := !cells[r, c].isFlagged);
      BoardExt(Snapshot(), FlagAt(b0, r, c));
    }

    /** One pass over every cell gathering what the decision needs: the
        number of bombs, the number of concealed cells, whether a bomb is
        revealed, whether every bomb is flagged. */
    method ScanStones() returns (t: Tally)
      ensures t == TallyOf(Snapshot())
    {
      ghost var b: Board := BoardOf(cells);
      var bombsNum, notRevealedNum, revealedBomb, allBombsFlagged := 0, 0, false, true;
      for i := 0 to cells.Length0
        invariant Tally(bombsNum, notRevealedNum, revealedBomb, allBombsFlagged) == Scan(b[..i])
      {
        ghost var above := Tally(bombsNum, notRevealedNum, revealedBomb, allBombsFlagged);
        for j := 0 to cells.Length1
          invariant Tally(bombsNum, notRevealedNum, revealedBomb, allBombsFlagged) == ScanRow(above, b[i][..j])
        {
          ghost var before := Tally(bombsNum, notRevealedNum, revealedBomb, allBombsFlagged);
          var stone := cells[i, j];
          if stone.isBomb && stone.isRevealed {
            revealedBomb := true;
          }
          if stone.isBomb {
            bombsNum := bombsNum + 1;
          }
          if !stone.isFlagged && stone.isBomb {
            allBombsFlagged := false;
          }
          if !stone.isRevealed {
            notRevealedNum := notRevealedNum + 1;
          }
          assert stone == b[i][j];
          assert b[i][..j + 1][..j] == b[i][..j];
        }
        assert b[i][..cells.Length1] == b[i];
        assert b[..i + 1][..i] == b[..i];
      }
      assert b[..cells.Length0] == b;
      ScanIsTally(b);
      t := Tally(bombsNum, notRevealedNum, revealedBomb, allBombsFlagged);
    }

    /** The end of a game: the grid is replaced by a copy in which every cell
        is turned over and nothing else is changed. */
    method FlipAllStones()
      modifies this
      ensures fresh(cells) && finished == old(finished)
      ensures cells.Length0 == old(cells.Length0) && cells.Length1 == old(cells.Length1)
      ensures forall i, j :: InGrid(i, j) ==> cells[i, j] == Flipped(old(cells[i, j]))
      ensures Snapshot() == FlipAll(old(Snapshot()))
    {
      var before := cells;
      cells := new Stone[before.Length0, before.Length1](
        (i, j) requires 0 <= i < before.Length0 && 0 <= j < before.Length1 reads before => Flipped(before[i, j]));
      BoardExt(Snapshot(), FlipAll(old(Snapshot())));
    }

    /** The evaluation run after every change of the grid: nothing once the
        game is finished; otherwise a scan and its decision, and on a loss or
        a win every cell is turned over and the game is finished. */
    method Settle() returns (o: Outcome)
      requires Valid()
      modifies this
      ensures Valid()
      ensures old(finished) ==> o == Undecided && finished && cells == old(cells)
      ensures !old(finished) ==> o == Judge(old(Snapshot()))
      ensures !old(finished) && o == Undecided ==> !finished && cells == old(cells)
      ensures !old(finished) && o != Undecided ==> finished && fresh(cells) && Snapshot() == FlipAll(old(Snapshot()))
    {
      if finished {
        return Undecided;
      }
      var t := ScanStones();
      o := Decide(t);
      if o != Undecided {
        FlipAllStones();
        finished := true;
      }
    }

    /** A click: the reveal, then, if it changed the grid, the evaluation. */
    method Click(r: int, c: int) returns (o: Outcome)
      requires Valid() && InGrid(r, c)
      modifies this, cells
      ensures Valid()
      ensures old(cells[r, c].isRevealed || cells[r, c].isFlagged) ==>
                o == Undecided && cells == old(cells) && finished == old(finished) && unchanged(cells)
      ensures old(finished) ==> o == Undecided && finished && cells == old(cells) && unchanged(cells)
      ensures old(!cells[r, c].isRevealed && !cells[r, c].isFlagged && cells[r, c].isBomb) ==> o == Loss
      ensures !old(AnyRevealedBomb(Snapshot())) && !old(cells[r, c].isBomb) ==> o != Loss
      ensures o != Undecided ==> finished && AllRevealed(Snapshot())
      ensures !old(finished) && old(!cells[r, c].isRevealed && !cells[r, c].isFlagged) ==>
                o == Judge(Flood(old(Snapshot()), r, c)) &&
                Snapshot() == if o == Undecided then Flood(old(Snapshot()), r, c) else FlipAll(Flood(old(Snapshot()), r, c))
    {
      if cells[r, c].isRevealed || cells[r, c].isFlagged {
        RevealStone(r, c);
        return Undecided;
      }
      ghost var b0: Board := Snapshot();
      RevealStone(r, c);
      ghost var b1: Board := Snapshot();
      if !b0[r][c].isBomb && !AnyRevealedBomb(b0) {
        NoBombStaysHidden(b0, b1);
      }
      if b0[r][c].isBomb {
        assert b1[r][c].isBomb && b1[r][c].isRevealed;
      }
      o := Settle();
      if o != Undecided {
        FlipAllIdempotent(b1);
      }
    }

    /** A right-click: the flag toggle, then, if it changed the grid, the
        evaluation. */
    method RightClick(r: int, c: int) returns (o: Outcome)
      requires Valid() && InGrid(r, c)
      modifies this, cells
      ensures Valid()
      ensures old(cells[r, c].isRevealed) ==>
                o == Undecided && cells == old(cells) && finished == old(finished) && unchanged(cells)
      ensures old(finished) ==> o == Undecided && finished && cells == old(cells) && unchanged(cells)
      ensures !old(AnyRevealedBomb(Snapshot())) ==> o != Loss
      ensures o != Undecided ==> finished && AllRevealed(Snapshot())
      ensures !old(finished) && !old(cells[r, c].isRevealed) ==>
                o == Judge(FlagAt(old(Snapshot()), r, c)) &&
                Snapshot() == if o == Undecided then FlagAt(old(Snapshot()), r, c) else FlipAll(FlagAt(old(Snapshot()), r, c))
    {
      if cells[r, c].isRevealed {
        RightClickStone(r, c);
        return Undecided;
      }
      ghost var b0: Board := Snapshot();
      RightClickStone(r, c);
      ghost var b1: Board := Snapshot();
      forall i, j | 0 <= i < |b1| && 0 <= j < |b1[i]|
        ensures b1[i][j].isRevealed == b0[i][j].isRevealed
      {
      }
      o := Settle();
      if o != Undecided {
        FlipAllIdempotent(b1);
      }
    }
  }

  /** The decision on a freshly generated grid, in terms of its layout. */
  lemma JudgeLayout(b: Board, m: Layout)
    requires Rectangular(m) && |b| == |m| && forall i :: 0 <= i < |b| ==> |b[i]| == |m[i]|
    requires forall i, j :: InBoard(b, i, j) ==> b[i][j].isBomb == m[i][j] && !b[i][j].isRevealed && !b[i][j].isFlagged
    ensures Judge(b) != Loss
    ensures Judge(b) == Win <==> (forall i, j :: InBounds(m, i, j) ==> m[i][j]) ||
                                 (forall i, j :: InBounds(m, i, j) ==> !m[i][j])
  {
    JudgeFresh(b);
    assert forall i, j :: InBounds(m, i, j) <==> InBoard(b, i, j);
  }

  /** A new game: generation, then the evaluation that also runs once when
      the game is first shown. A board without bombs, or with nothing but
      bombs, is won at once; any other board starts undecided. */
  method NewGame(rows: nat, cols: nat, layout: Layout) returns (g: Game, o: Outcome)
    requires |layout| == rows && forall i :: 0 <= i < rows ==> |layout[i]| == cols
    ensures fresh(g) && g.Valid() && g.mines == layout
    ensures o == Win <==> (forall i, j :: InBounds(layout, i, j) ==> layout[i][j]) ||
                          (forall i, j :: InBounds(layout, i, j) ==> !layout[i][j])
    ensures o != Loss
    ensures o == Win ==> g.finished && AllRevealed(g.Snapshot())
    ensures o == Undecided ==> !g.finished
    ensures o == Undecided ==> forall i, j :: g.InGrid(i, j) ==> !g.cells[i, j].isRevealed && !g.cells[i, j].isFlagged
  {
    g := new Game(rows, cols, layout);
    ghost var b: Board := g.Snapshot();
    JudgeLayout(b, layout);
    o := g.Settle();
    if o != Undecided {
      FlipAllIdempotent(b);
    }
  }
}
