/** The adjacency rule: how many bombs touch a cell. The board's mine layout
    is given as rows of booleans (`true` for a bomb). */
module Adjacency {

  type Layout = seq<seq<bool>>

  /** Every row has the length of the first one. */
  predicate Rectangular(m: Layout)
  {
    forall i :: 0 <= i < |m| ==> |m[i]| == |m[0]|
  }

  function Width(m: Layout): nat
  {
    if |m| == 0 then 0 else |m[0]|
  }

  predicate InBounds(m: Layout, r: int, c: int)
  {
    0 <= r < |m| && 0 <= c < Width(m)
  }

  /** The eight offsets, in the order the game visits them. */
  const Directions: seq<(int, int)> :=
    [(-1, -1), (-1, 0), (-1, 1), (0, -1), (0, 1), (1, -1), (1, 0), (1, 1)]

  /** 1 when the k-th offset from (r, c) lands inside the board on a bomb. */
  function Hit(m: Layout, r: int, c: int, k: nat): (n: nat)
    requires Rectangular(m) && k < |Directions|
    ensures n <= 1
  {
    var ar, ac := r + Directions[k].0, c + Directions[k].1;
    if InBounds(m, ar, ac) && m[ar][ac] then 1 else 0
  }

  /** Bombs found among the first k offsets. */
  function CountDirs(m: Layout, r: int, c: int, k: nat): (n: nat)
    requires Rectangular(m) && k <= |Directions|
    ensures n <= k
  {
    if k == 0 then 0 else CountDirs(m, r, c, k - 1) + Hit(m, r, c, k - 1)
  }

  /** No bomb among the first k offsets exactly when none of them hits. */
  lemma {:induction false} CountDirsZero(m: Layout, r: int, c: int, k: nat)
    requires Rectangular(m) && k <= |Directions|
    ensures CountDirs(m, r, c, k) == 0 <==> forall t :: 0 <= t < k ==> Hit(m, r, c, t) == 0
  {
    if k > 0 {
      CountDirsZero(m, r, c, k - 1);
    }
  }

  /** The number of bombs on the (up to eight) cells around (r, c). */
  function BombsAround(m: Layout, r: int, c: int): (n: nat)
    requires Rectangular(m)
    ensures n <= 8
  {
    CountDirs(m, r, c, |Directions|)
  }

  /** The count a cell holds once the adjacency pass has run: the bombs
      around it, or the initial 0 for a bomb. */
  function AdjacentCount(m: Layout, r: int, c: int): (n: nat)
    requires Rectangular(m) && InBounds(m, r, c)
    ensures n <= 8 && (m[r][c] ==> n == 0)
  {
    if m[r][c] then 0 else BombsAround(m, r, c)
  }

  /** (i, j) is one of the eight cells around (r, c). */
  predicate Adjacent(r: int, c: int, i: int, j: int)
  {
    (i, j) != (r, c) && -1 <= i - r <= 1 && -1 <= j - c <= 1
  }

  /** Reference definition: the bomb cells of the board adjacent to (r, c). */
  function NeighbourBombs(m: Layout, r: int, c: int): set<(int, int)>
    requires Rectangular(m)
  {
    set i, j | r - 1 <= i <= r + 1 && c - 1 <= j <= c + 1 && Adjacent(r, c, i, j)
                 && InBounds(m, i, j) && m[i][j] :: (i, j)
  }

  /** The index in `Directions` of an offset. */
  function DirIndex(di: int, dj: int): (k: nat)
    requires Adjacent(0, 0, di, dj)
    ensures k < |Directions| && Directions[k] == (di, dj)
  {
    var n := (di + 1) * 3 + (dj + 1);
    if n < 4 then n else n - 1
  }

  /** The cells picked out by the bomb-hitting offsets among the first k. */
  function DirBombs(m: Layout, r: int, c: int, k: nat): set<(int, int)>
    requires Rectangular(m) && k <= |Directions|
  {
    set t | 0 <= t < k && Hit(m, r, c, t) == 1 :: Step(r, c, t)
  }

  /** Each offset has its own index: no offset is listed twice. */
  lemma DirIndexOfDirection(k: nat)
    requires k < |Directions|
    ensures Adjacent(0, 0, Directions[k].0, Directions[k].1)
    ensures DirIndex(Directions[k].0, Directions[k].1) == k
  {
  }

  /** The cell reached from (r, c) by the k-th offset. */
  function Step(r: int, c: int, k: nat): (int, int)
    requires k < |Directions|
  {
    (r + Directions[k].0, c + Directions[k].1)
  }

  lemma StepInjective(r: int, c: int, s: nat, t: nat)
    requires s < |Directions| && t < |Directions| && s != t
    ensures Step(r, c, s) != Step(r, c, t)
  {
    DirIndexOfDirection(s);
    DirIndexOfDirection(t);
  }

  lemma DirBombsStep(m: Layout, r: int, c: int, k: nat)
    requires Rectangular(m) && 0 < k <= |Directions|
    ensures Step(r, c, k - 1) !in DirBombs(m, r, c, k - 1)
    ensures DirBombs(m, r, c, k) ==
            DirBombs(m, r, c, k - 1) + (if Hit(m, r, c, k - 1) == 1 then {Step(r, c, k - 1)} else {})
  {
    forall t | 0 <= t < k - 1
      ensures Step(r, c, k - 1) != Step(r, c, t)
    {
      StepInjective(r, c, t, k - 1);
    }
  }

  lemma {:induction false} CountDirsIsCardinality(m: Layout, r: int, c: int, k: nat)
    requires Rectangular(m) && k <= |Directions|
    ensures CountDirs(m, r, c, k) == |DirBombs(m, r, c, k)|
  {
    if k > 0 {
      CountDirsIsCardinality(m, r, c, k - 1);
      DirBombsStep(m, r, c, k);
    }
  }

  /** The count taken offset by offset is the number of bomb cells adjacent
      to (r, c) inside the board. */
  lemma BombsAroundIsNeighbourBombs(m: Layout, r: int, c: int)
    requires Rectangular(m)
    ensures BombsAround(m, r, c) == |NeighbourBombs(m, r, c)|
    ensures BombsAround(m, r, c) <= 8
  {
    CountDirsIsCardinality(m, r, c, |Directions|);
    var d := DirBombs(m, r, c, |Directions|);
    var nb := NeighbourBombs(m, r, c);
    forall p | p in nb
      ensures p in d
    {
      var k := DirIndex(p.0 - r, p.1 - c);
      assert Hit(m, r, c, k) == 1 && p == Step(r, c, k);
    }
    forall p | p in d
      ensures p in nb
    {
      var t :| 0 <= t < |Directions| && Hit(m, r, c, t) == 1 && p == Step(r, c, t);
      DirIndexOfDirection(t);
    }
    assert d == nb;
  }

  /** Around a cell that is not a bomb and has count 0, every in-bounds
      offset lands on a cell that is not a bomb. */
  lemma ZeroCountNeighbourSafe(m: Layout, r: int, c: int, k: nat)
    requires Rectangular(m) && InBounds(m, r, c) && !m[r][c] && AdjacentCount(m, r, c) == 0
    requires k < |Directions| && InBounds(m, Step(r, c, k).0, Step(r, c, k).1)
    ensures !m[Step(r, c, k).0][Step(r, c, k).1]
  {
    CountDirsZero(m, r, c, |Directions|);
    assert Hit(m, r, c, k) == 0;
  }

  /** A count of 0 means that no cell around (r, c) holds a bomb, and
      conversely. */
  lemma BombsAroundZero(m: Layout, r: int, c: int)
    requires Rectangular(m)
    ensures BombsAround(m, r, c) == 0 <==>
            forall i, j :: InBounds(m, i, j) && Adjacent(r, c, i, j) ==> !m[i][j]
  {
    BombsAroundIsNeighbourBombs(m, r, c);
    if BombsAround(m, r, c) == 0 {
      assert NeighbourBombs(m, r, c) == {};
      forall i, j | InBounds(m, i, j) && Adjacent(r, c, i, j)
        ensures !m[i][j]
      {
        assert (i, j) !in NeighbourBombs(m, r, c);
      }
    } else {
      var p :| p in NeighbourBombs(m, r, c);
    }
  }
}
