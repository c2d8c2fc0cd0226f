/** What a reveal does to the board, stated on two snapshots: `b0` taken
    before it and `b1` after. The recursive reveal of the game is specified
    by these predicates, and the lemmas here are the steps its proof
    composes: what one recursive call establishes, combined with what the
    calls before it established. */
module FloodFill {
  import opened Stones
  import opened Adjacency
  import opened Evaluation

  /** Only concealed, unflagged cells changed, and only by being revealed. */
  ghost predicate Grown(b0: Board, b1: Board)
  {
    SameShape(b0, b1) && forall i, j :: InBoard(b0, i, j) ==> Grows(b0[i][j], b1[i][j])
  }

  /** (i, j) was concealed in `b0` and is revealed in `b1`. */
  ghost predicate Uncovered(b0: Board, b1: Board, i: int, j: int)
  {
    InBoard(b0, i, j) && InBoard(b1, i, j) && !b0[i][j].isRevealed && b1[i][j].isRevealed
  }

  /** (i, j) is off the board, revealed or flagged. */
  ghost predicate Covered(b: Board, i: int, j: int)
  {
    InBoard(b, i, j) ==> b[i][j].isRevealed || b[i][j].isFlagged
  }

  /** Nothing around (i, j) is left concealed except flagged cells. */
  ghost predicate Settled(b: Board, i: int, j: int)
  {
    forall p, q :: Adjacent(i, j, p, q) ==> Covered(b, p, q)
  }

  /** Closure: around every uncovered cell with count 0, other than (r, c),
      nothing is left concealed except flagged cells. */
  ghost predicate ClosedExcept(b0: Board, b1: Board, r: int, c: int)
  {
    forall i, j :: Uncovered(b0, b1, i, j) && b1[i][j].adjacentBombs == 0 && (i, j) != (r, c) ==> Settled(b1, i, j)
  }

  ghost predicate Closed(b0: Board, b1: Board)
  {
    forall i, j :: Uncovered(b0, b1, i, j) && b1[i][j].adjacentBombs == 0 ==> Settled(b1, i, j)
  }

  /** (i, j) is on the board, concealed and unflagged: a cell a reveal may
      turn over. */
  ghost predicate Open(b: Board, i: int, j: int)
  {
    InBoard(b, i, j) && !b[i][j].isRevealed && !b[i][j].isFlagged
  }

  /** One step of a cascade: from a cell with count 0 to an adjacent cell. */
  ghost predicate Link(b: Board, p: (int, int), q: (int, int))
    requires InBoard(b, p.0, p.1)
  {
    b[p.0][p.1].adjacentBombs == 0 && Adjacent(p.0, p.1, q.0, q.1)
  }

  /** A path the cascade from (r, c) can follow on `b`: it starts at (r, c),
      every cell on it is concealed and unflagged, and each cell but the last
      has count 0 and is adjacent to the next. */
  ghost predicate CascadePath(b: Board, path: seq<(int, int)>, r: int, c: int)
  {
    |path| > 0 && path[0] == (r, c) &&
    (forall n :: 0 <= n < |path| ==> Open(b, path[n].0, path[n].1)) &&
    (forall n :: 0 <= n < |path| - 1 ==> Link(b, path[n], path[n + 1]))
  }

  /** Reference definition of the region a reveal at (r, c) uncovers: the
      cells at the end of some cascade path from (r, c). */
  ghost predicate Reachable(b: Board, r: int, c: int, i: int, j: int)
  {
    exists path :: CascadePath(b, path, r, c) && path[|path| - 1] == (i, j)
  }

  /** Soundness: every cell uncovered was reached by the cascade from (r, c),
      along a path of concealed, unflagged cells of `b0`. */
  ghost predicate Reached(b0: Board, b1: Board, r: int, c: int)
  {
    forall i, j :: Uncovered(b0, b1, i, j) ==> Reachable(b0, r, c, i, j)
  }

  /** No bomb was uncovered. */
  ghost predicate NoBombUncovered(b0: Board, b1: Board)
  {
    forall i, j :: Uncovered(b0, b1, i, j) ==> !b1[i][j].isBomb
  }

  /** What a reveal at (r, c) promises, from `b0` to `b1`: the board only
      grew, (r, c) is no longer concealed, the fill is closed, every cell it
      uncovered lies on a cascade path from (r, c), and, unless (r, c) is a
      bomb, no bomb was uncovered. `RevealIsFlood` shows that these promises
      fix `b1`. */
  ghost predicate RevealResult(b0: Board, b1: Board, r: int, c: int)
  {
    Grown(b0, b1) && Covered(b1, r, c) && Closed(b0, b1) && Reached(b0, b1, r, c) &&
    (InBoard(b0, r, c) && !b0[r][c].isBomb ==> NoBombUncovered(b0, b1))
  }

  /** What a reveal leaves alone and what it changes, cell by cell: the
      shape of the grid, the bomb, the flag and the count of every cell stay,
      a revealed cell stays revealed, a flagged concealed cell stays
      concealed, and an unflagged (r, c) ends up revealed. */
  lemma RevealEffect(b0: Board, b1: Board, r: int, c: int)
    requires RevealResult(b0, b1, r, c)
    ensures SameShape(b0, b1)
    ensures forall i, j :: InBoard(b0, i, j) ==>
              b1[i][j].isBomb == b0[i][j].isBomb && b1[i][j].isFlagged == b0[i][j].isFlagged &&
              b1[i][j].adjacentBombs == b0[i][j].adjacentBombs &&
              (b0[i][j].isRevealed ==> b1[i][j].isRevealed) &&
              (b0[i][j].isFlagged && !b0[i][j].isRevealed ==> !b1[i][j].isRevealed)
    ensures InBoard(b0, r, c) && !b0[r][c].isFlagged ==> b1[r][c].isRevealed
  {
    forall i, j | InBoard(b0, i, j)
      ensures Grows(b0[i][j], b1[i][j])
    {
    }
  }

  /** The concealed cells of a board. */
  ghost function HiddenOf(b: Board): set<(int, int)>
  {
    set i, j | 0 <= i < |b| && 0 <= j < |b[i]| && !b[i][j].isRevealed :: (i, j)
  }

  /** The first k offsets from (r, c) are covered. */
  ghost predicate CoveredUpTo(b: Board, r: int, c: int, k: nat)
    requires k <= |Directions|
  {
    forall t :: 0 <= t < k ==> Covered(b, Step(r, c, t).0, Step(r, c, t).1)
  }

  /** Half-way through the cascade from (r, c): (r, c) was uncovered with
      count 0, the first k offsets around it are covered, and the cells
      uncovered so far keep the promises of a reveal, except that (r, c)
      itself is not settled yet. */
  ghost predicate Cascading(b0: Board, b: Board, r: int, c: int, k: nat)
    requires k <= |Directions|
  {
    Grown(b0, b) && Uncovered(b0, b, r, c) && b[r][c].adjacentBombs == 0 &&
    HiddenOf(b) < HiddenOf(b0) && CoveredUpTo(b, r, c, k) &&
    ClosedExcept(b0, b, r, c) && Reached(b0, b, r, c) &&
    (!b0[r][c].isBomb ==> NoBombUncovered(b0, b))
  }

  lemma GrownTransitive(b0: Board, b1: Board, b2: Board)
    requires Grown(b0, b1) && Grown(b1, b2)
    ensures Grown(b0, b2)
  {
    forall i, j | InBoard(b0, i, j)
      ensures Grows(b0[i][j], b2[i][j])
    {
      GrowsTransitive(b0[i][j], b1[i][j], b2[i][j]);
    }
  }

  /** A reveal never adds a concealed cell, and each cell it uncovers is one
      fewer concealed cell. */
  lemma HiddenShrinks(b0: Board, b1: Board, r: int, c: int)
    requires Grown(b0, b1)
    ensures HiddenOf(b1) <= HiddenOf(b0)
    ensures Uncovered(b0, b1, r, c) ==> HiddenOf(b1) < HiddenOf(b0)
  {
    forall p | p in HiddenOf(b1)
      ensures p in HiddenOf(b0)
    {
      var i, j :| 0 <= i < |b1| && 0 <= j < |b1[i]| && !b1[i][j].isRevealed && p == (i, j);
      assert InBoard(b0, i, j);
    }
    if Uncovered(b0, b1, r, c) {
      assert (r, c) in HiddenOf(b0);
      assert (r, c) !in HiddenOf(b1);
    }
  }

  /** Covered cells stay covered as the board grows. */
  lemma CoveredUpToGrows(b0: Board, b1: Board, r: int, c: int, k: nat)
    requires Grown(b0, b1) && k <= |Directions| && CoveredUpTo(b0, r, c, k)
    ensures CoveredUpTo(b1, r, c, k)
  {
    forall t | 0 <= t < k
      ensures Covered(b1, Step(r, c, t).0, Step(r, c, t).1)
    {
      var p := Step(r, c, t);
      assert Covered(b0, p.0, p.1);
    }
  }

  lemma CoveredUpToNext(b: Board, r: int, c: int, k: nat)
    requires k < |Directions| && CoveredUpTo(b, r, c, k) && Covered(b, Step(r, c, k).0, Step(r, c, k).1)
    ensures CoveredUpTo(b, r, c, k + 1)
  {
  }

  /** Covering the eight offsets of (r, c) settles (r, c). */
  lemma CoveredUpToSettles(b: Board, r: int, c: int)
    requires CoveredUpTo(b, r, c, |Directions|)
    ensures Settled(b, r, c)
  {
    forall p, q | Adjacent(r, c, p, q)
      ensures Covered(b, p, q)
    {
      var t := DirIndex(p - r, q - c);
      assert Step(r, c, t) == (p, q);
    }
  }

  /** Closure of the calls so far, combined with the closure of the next
      call, is closure of the whole. */
  lemma ClosedCompose(b0: Board, b1: Board, b2: Board, r: int, c: int)
    requires Grown(b0, b1) && Grown(b1, b2)
    requires ClosedExcept(b0, b1, r, c) && Closed(b1, b2)
    ensures ClosedExcept(b0, b2, r, c)
  {
    forall i, j | Uncovered(b0, b2, i, j) && b2[i][j].adjacentBombs == 0 && (i, j) != (r, c)
      ensures Settled(b2, i, j)
    {
      if !Uncovered(b1, b2, i, j) {
        assert Uncovered(b0, b1, i, j);
        forall p, q | Adjacent(i, j, p, q)
          ensures Covered(b2, p, q)
        {
          assert Covered(b1, p, q);
        }
      }
    }
  }

  /** A cascade path on a board is one on any board it grew from: its cells
      were concealed and unflagged there too, with the same counts. */
  lemma PathLift(b0: Board, b1: Board, path: seq<(int, int)>, r: int, c: int)
    requires Grown(b0, b1) && CascadePath(b1, path, r, c)
    ensures CascadePath(b0, path, r, c)
  {
    forall n | 0 <= n < |path|
      ensures Open(b0, path[n].0, path[n].1) && b0[path[n].0][path[n].1] == b1[path[n].0][path[n].1]
    {
      var (i, j) := path[n];
      assert Open(b1, i, j) && InBoard(b0, i, j) && Grows(b0[i][j], b1[i][j]);
    }
  }

  /** A cascade path from a neighbour (ar, ac) of the open zero cell (r, c)
      extends to a cascade path from (r, c). */
  lemma ReachableThrough(b: Board, r: int, c: int, ar: int, ac: int, i: int, j: int,
                         path: seq<(int, int)>)
    requires Open(b, r, c) && b[r][c].adjacentBombs == 0 && Adjacent(r, c, ar, ac)
    requires CascadePath(b, path, ar, ac) && path[|path| - 1] == (i, j)
    ensures Reachable(b, r, c, i, j)
  {
    var longer := [(r, c)] + path;
    forall n | 0 <= n < |longer| - 1
      ensures Link(b, longer[n], longer[n + 1])
    {
      if n > 0 {
        assert longer[n] == path[n - 1] && longer[n + 1] == path[n];
      }
    }
    assert CascadePath(b, longer, r, c);
    assert longer[|longer| - 1] == (i, j);
  }

  /** The cells uncovered by a call on a neighbour (ar, ac) of the uncovered
      zero cell (r, c) are reached from (r, c) through (ar, ac). */
  lemma ReachedCompose(b0: Board, b1: Board, b2: Board, r: int, c: int, ar: int, ac: int)
    requires Grown(b0, b1) && Grown(b1, b2)
    requires Reached(b0, b1, r, c) && Reached(b1, b2, ar, ac)
    requires Adjacent(r, c, ar, ac) && Uncovered(b0, b1, r, c) && b1[r][c].adjacentBombs == 0
    ensures Reached(b0, b2, r, c)
  {
    assert Open(b0, r, c) && b0[r][c].adjacentBombs == 0 by {
      assert Grows(b0[r][c], b1[r][c]);
    }
    forall i, j | Uncovered(b0, b2, i, j)
      ensures Reachable(b0, r, c, i, j)
    {
      if Uncovered(b1, b2, i, j) {
        var path :| CascadePath(b1, path, ar, ac) && path[|path| - 1] == (i, j);
        PathLift(b0, b1, path, ar, ac);
        ReachableThrough(b0, r, c, ar, ac, i, j, path);
      } else {
        assert Uncovered(b0, b1, i, j);
      }
    }
  }

  /** Revealing nothing, because (r, c) is already covered, keeps the
      promises of a reveal. */
  lemma RevealNothing(b: Board, r: int, c: int)
    requires Covered(b, r, c)
    ensures RevealResult(b, b, r, c)
  {
  }

  /** Turning over the concealed, unflagged cell (r, c) and nothing else: with
      a count other than 0 that is the whole reveal, with count 0 it starts
      the cascade. */
  lemma RevealOne(b0: Board, b1: Board, r: int, c: int)
    requires InBoard(b0, r, c) && !b0[r][c].isRevealed && !b0[r][c].isFlagged
    requires SameShape(b0, b1) && b1[r][c] == b0[r][c].(isRevealed := true)
    requires forall i, j :: InBoard(b0, i, j) && (i, j) != (r, c) ==> b1[i][j] == b0[i][j]
    ensures b1[r][c].adjacentBombs != 0 ==> RevealResult(b0, b1, r, c)
    ensures b1[r][c].adjacentBombs == 0 ==> Cascading(b0, b1, r, c, 0)
  {
    assert Grown(b0, b1);
    HiddenShrinks(b0, b1, r, c);
    assert CascadePath(b0, [(r, c)], r, c);
  }

  /** An offset that leaves the board is skipped. */
  lemma CascadeSkip(b0: Board, b: Board, r: int, c: int, k: nat)
    requires k < |Directions| && Cascading(b0, b, r, c, k)
    requires !InBoard(b, Step(r, c, k).0, Step(r, c, k).1)
    ensures Cascading(b0, b, r, c, k + 1)
  {
    CoveredUpToNext(b, r, c, k);
  }

  /** The reveal of the neighbour at offset k, from `mid` to `now`, carries
      the cascade one offset further. */
  lemma CascadeStep(b0: Board, mid: Board, now: Board, r: int, c: int, k: nat)
    requires k < |Directions| && Cascading(b0, mid, r, c, k)
    requires InBoard(mid, Step(r, c, k).0, Step(r, c, k).1)
    requires RevealResult(mid, now, Step(r, c, k).0, Step(r, c, k).1)
    requires !b0[r][c].isBomb ==> !mid[Step(r, c, k).0][Step(r, c, k).1].isBomb
    ensures Cascading(b0, now, r, c, k + 1)
  {
    CascadeStepCovers(b0, mid, now, r, c, k);
    CascadeStepFills(b0, mid, now, r, c, k);
  }

  lemma CascadeStepCovers(b0: Board, mid: Board, now: Board, r: int, c: int, k: nat)
    requires k < |Directions| && Cascading(b0, mid, r, c, k)
    requires RevealResult(mid, now, Step(r, c, k).0, Step(r, c, k).1)
    ensures Grown(b0, now) && Uncovered(b0, now, r, c) && now[r][c].adjacentBombs == 0
    ensures HiddenOf(now) < HiddenOf(b0) && CoveredUpTo(now, r, c, k + 1)
  {
    GrownTransitive(b0, mid, now);
    HiddenShrinks(mid, now, r, c);
    CoveredUpToGrows(mid, now, r, c, k);
    CoveredUpToNext(now, r, c, k);
  }

  lemma CascadeStepFills(b0: Board, mid: Board, now: Board, r: int, c: int, k: nat)
    requires k < |Directions| && Cascading(b0, mid, r, c, k)
    requires InBoard(mid, Step(r, c, k).0, Step(r, c, k).1)
    requires RevealResult(mid, now, Step(r, c, k).0, Step(r, c, k).1)
    requires !b0[r][c].isBomb ==> !mid[Step(r, c, k).0][Step(r, c, k).1].isBomb
    ensures ClosedExcept(b0, now, r, c) && Reached(b0, now, r, c)
    ensures !b0[r][c].isBomb ==> NoBombUncovered(b0, now)
  {
    var (ar, ac) := Step(r, c, k);
    DirIndexOfDirection(k);
    ClosedCompose(b0, mid, now, r, c);
    ReachedCompose(b0, mid, now, r, c, ar, ac);
    if !b0[r][c].isBomb {
      NoBombCompose(b0, mid, now);
    }
  }

  /** Once all eight offsets are covered the cascade keeps the promises of a
      reveal. */
  lemma CascadeDone(b0: Board, b: Board, r: int, c: int)
    requires Cascading(b0, b, r, c, |Directions|)
    ensures RevealResult(b0, b, r, c)
  {
    CoveredUpToSettles(b, r, c);
  }

  /** Completeness: the last cell of every cascade path from (r, c) is
      uncovered, because a reveal is closed and turns (r, c) over. */
  lemma {:induction false} PathUncovered(b0: Board, b1: Board, path: seq<(int, int)>, r: int, c: int)
    requires Grown(b0, b1) && Covered(b1, r, c) && Closed(b0, b1) && CascadePath(b0, path, r, c)
    ensures Uncovered(b0, b1, path[|path| - 1].0, path[|path| - 1].1)
    decreases |path|
  {
    var (i, j) := path[|path| - 1];
    assert Open(b0, i, j) && Grows(b0[i][j], b1[i][j]);
    if |path| > 1 {
      var front := path[..|path| - 1];
      assert CascadePath(b0, front, r, c) by {
        forall n | 0 <= n < |front| - 1
          ensures Link(b0, front[n], front[n + 1])
        {
          assert Link(b0, path[n], path[n + 1]);
        }
      }
      PathUncovered(b0, b1, front, r, c);
      var (p, q) := front[|front| - 1];
      assert Link(b0, path[|path| - 2], path[|path| - 1]);
      assert Grows(b0[p][q], b1[p][q]);
      assert Settled(b1, p, q);
      assert Covered(b1, i, j);
    }
  }

  /** The region a reveal uncovers is exactly the reference region: the
      cells reachable from (r, c) along cascade paths of `b0`. */
  lemma RevealRegion(b0: Board, b1: Board, r: int, c: int)
    requires RevealResult(b0, b1, r, c)
    ensures forall i, j :: Uncovered(b0, b1, i, j) <==> Reachable(b0, r, c, i, j)
  {
    forall i, j | Reachable(b0, r, c, i, j)
      ensures Uncovered(b0, b1, i, j)
    {
      var path :| CascadePath(b0, path, r, c) && path[|path| - 1] == (i, j);
      PathUncovered(b0, b1, path, r, c);
    }
  }

  /** Reference definition of a whole reveal: `b` with exactly the cells
      reachable from (r, c) turned over. */
  ghost function Flood(b: Board, r: int, c: int): (f: Board)
    ensures SameShape(b, f)
  {
    seq(|b|, i requires 0 <= i < |b| =>
      seq(|b[i]|, j requires 0 <= j < |b[i]| =>
        if Reachable(b, r, c, i, j) then b[i][j].(isRevealed := true) else b[i][j]))
  }

  /** The promises of a reveal fix its result: it is the reference reveal. */
  lemma RevealIsFlood(b0: Board, b1: Board, r: int, c: int)
    requires RevealResult(b0, b1, r, c)
    ensures b1 == Flood(b0, r, c)
  {
    RevealRegion(b0, b1, r, c);
    var f := Flood(b0, r, c);
    forall i, j | InBoard(b1, i, j)
      ensures b1[i][j] == f[i][j]
    {
      assert InBoard(b0, i, j) && Grows(b0[i][j], b1[i][j]);
      assert Uncovered(b0, b1, i, j) <==> Reachable(b0, r, c, i, j);
    }
    BoardExt(b1, f);
  }

  /** A cascade path goes beyond its first cell only from a zero. */
  lemma PathLeavesOnlyZeros(b: Board, path: seq<(int, int)>, r: int, c: int)
    requires CascadePath(b, path, r, c)
    ensures |path| > 1 ==> b[r][c].adjacentBombs == 0
  {
    if |path| > 1 {
      assert Link(b, path[0], path[1]);
    }
  }

  /** A reveal on a concealed, unflagged stone whose count is not 0 turns
      over that stone alone, whatever zeros lie elsewhere on the board. */
  lemma FloodStopsAtCount(b: Board, r: int, c: int)
    requires Open(b, r, c) && b[r][c].adjacentBombs != 0
    ensures Flood(b, r, c) == b[r := b[r][c := b[r][c].(isRevealed := true)]]
  {
    var f := Flood(b, r, c);
    var g := b[r := b[r][c := b[r][c].(isRevealed := true)]];
    forall i, j | InBoard(f, i, j)
      ensures f[i][j] == g[i][j]
    {
      if Reachable(b, r, c, i, j) {
        var path :| CascadePath(b, path, r, c) && path[|path| - 1] == (i, j);
        PathLeavesOnlyZeros(b, path, r, c);
      } else {
        assert CascadePath(b, [(r, c)], r, c);
      }
    }
    BoardExt(f, g);
  }

  lemma NoBombCompose(b0: Board, b1: Board, b2: Board)
    requires Grown(b0, b1) && Grown(b1, b2)
    requires NoBombUncovered(b0, b1) && NoBombUncovered(b1, b2)
    ensures NoBombUncovered(b0, b2)
  {
    forall i, j | Uncovered(b0, b2, i, j)
      ensures !b2[i][j].isBomb
    {
      if !Uncovered(b1, b2, i, j) {
        assert Uncovered(b0, b1, i, j);
      }
    }
  }

  /** A reveal that uncovers no bomb leaves a board without a visible bomb
      without one. */
  lemma NoBombStaysHidden(b0: Board, b1: Board)
    requires Grown(b0, b1) && NoBombUncovered(b0, b1) && !AnyRevealedBomb(b0)
    ensures !AnyRevealedBomb(b1)
  {
    forall i, j | 0 <= i < |b1| && 0 <= j < |b1[i]| && b1[i][j].isBomb
      ensures !b1[i][j].isRevealed
    {
      assert InBoard(b0, i, j);
      assert b1[i][j].isRevealed ==> b0[i][j].isRevealed || Uncovered(b0, b1, i, j);
    }
  }
}
