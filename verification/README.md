# Minesweeper game logic in Dafny

A model of the game logic of a small browser Minesweeper (`src/App.tsx`). The
game keeps a rectangular grid of stones. Each stone is either a bomb or not,
may be flagged or revealed, and holds the number of bombs around it. The model
covers five parts of the game:

- **Generation.** The grid is built from a mine layout, then the adjacency
  pass writes into every cell that is not a bomb the number of bombs at the
  eight offsets around it that fall inside the grid.
- **Reveal.** A click on a stone does nothing if the stone is revealed or
  flagged. Otherwise the stone is turned over, and when its count is 0 every
  in-grid neighbour is revealed in the same way, recursively (the flood fill).
- **Flag toggle.** A right-click does nothing on a revealed stone and flips
  the flag of any other stone.
- **Evaluation.** After every change of the grid, and once when the game is
  first shown, one scan counts the bombs and the concealed stones. It also
  checks whether a bomb is revealed and whether every bomb is flagged. A
  revealed bomb loses. Otherwise the game is won when there are as many bombs
  as concealed stones, or when every bomb is flagged.
- **The end of a game.** On a win or a loss every stone is turned over and the
  game is marked finished, after which the evaluation no longer runs.

The project has five modules:

- `Stones` (`stones.dfy`): the stone record, a grid snapshot as
  `seq<seq<Stone>>`, and the per-stone operations.
- `Adjacency` (`adjacency.dfy`): the eight offsets and the bomb count, with a
  set-based reference definition.
- `Evaluation` (`evaluation.dfy`): the end-of-game tally and decision on a
  snapshot, the scan as a fold over the stones, and the "turn everything
  over" function.
- `FloodFill` (`floodfill.dfy`): the promises of a reveal, stated between two
  snapshots, and the lemmas that compose them along the recursion.
- `Minesweeper` (`minesweeper.dfy`): the imperative part. The class `Game`
  holds the grid as an `array2<Stone>`, and its methods change it in place.
  `ComputeAdjacentBombs` and `AddBombsAround` carry the nested loops of the
  adjacency pass.

The flood fill is specified twice: by the promises a reveal keeps between
the grid before and after it (closure, reachability, safety), and by a
reference definition, `Flood`, that turns over exactly the stones reachable
from the clicked stone along paths of concealed, unflagged stones on which
every stone but the last has count 0. `RevealIsFlood` shows that the promises
determine the new grid, so the reveal computes the reference.

The flood fill terminates because each call that does anything strictly
shrinks the set of concealed stones; that set is the recursion's `decreases`
measure. The loop over the eight directions is the method `RevealAround`,
which is mutually recursive with `RevealStone`.

Where the code's behaviour may surprise a reader of the rules, the model
follows the code:

- A bomb keeps the count 0 that it was created with (`src/App.tsx:22`, `44-46`).
  The cascade test only looks at the count (`122`), so revealing a bomb also
  cascades to its neighbours.
- The evaluation depends on the grid (`111`), and a right-click replaces the
  grid (`149`), so the evaluation also runs after a flag toggle. Flagging every
  bomb therefore wins at once, even with safe stones still concealed and with
  safe stones flagged too (`FlagWinLeavesSafeCellsHidden`).
- The evaluation also runs when the game is first shown. A grid without bombs,
  or with nothing but bombs, is won before any click (`NewGame`).
- Winning by "as many bombs as concealed stones" is not an approximation.
  While no bomb is revealed it holds exactly when every safe stone is revealed
  (`CountWinIsAllSafeRevealed`).

## Model

| member | source | states |
|---|---|---|
| Minesweeper.Game.constructor | src/App.tsx:12-31 | generation: a grid of the requested size whose bombs are the layout's, every stone concealed and unflagged, every count the adjacency count of the layout (the object invariant) |
| Minesweeper.ComputeAdjacentBombs | src/App.tsx:33-60 | every stone that is not a bomb has its count raised by the number of bombs around it; a bomb keeps its count; no other field of any stone changes |
| Minesweeper.AddBombsAround | src/App.tsx:47-56 | the offset loop on one stone raises its count by exactly the bombs at in-grid offsets and changes no other stone |
| Minesweeper.Counted | src/App.tsx:43-57 | the adjacency pass changes only the count of a stone, raises it by at most 8, and leaves a bomb as it was |
| Adjacency.Hit | src/App.tsx:48-56 | one offset adds at most one bomb to the count |
| Adjacency.CountDirs | src/App.tsx:47-56 | after k offsets at most k bombs have been counted |
| Adjacency.BombsAround | src/App.tsx:47-57 | the count over the eight offsets is at most 8 |
| Adjacency.AdjacentCount | src/App.tsx:43-57 | the count a stone ends up with is at most 8, and 0 for a bomb |
| Adjacency.BombsAroundIsNeighbourBombs | src/App.tsx:34-56 | the count taken offset by offset equals the number of in-grid bomb cells adjacent to the stone, and is at most 8 |
| Adjacency.CountDirsIsCardinality | src/App.tsx:47-56 | after k offsets the count equals the number of distinct bomb cells those offsets reach |
| Adjacency.DirIndexOfDirection | src/App.tsx:34-39 | every listed offset is one of the eight non-zero offsets in {-1,0,1}x{-1,0,1}, and the offsets are listed once each |
| Adjacency.StepInjective | src/App.tsx:34-39 | two different offsets from the same stone reach different cells |
| Adjacency.CountDirsZero | src/App.tsx:47-56 | the count over k offsets is 0 exactly when none of those offsets lands on a bomb |
| Adjacency.BombsAroundZero | src/App.tsx:47-56 | a count of 0 means no in-grid neighbour is a bomb, and conversely |
| Adjacency.ZeroCountNeighbourSafe | src/App.tsx:122-135 | around a safe stone with count 0, every in-grid offset lands on a safe stone |
| Minesweeper.Game.RevealStone | src/App.tsx:113-138 | a revealed or flagged stone leaves the grid unchanged; otherwise the new grid is the reference reveal `Flood` of the old one: exactly the stones at the end of a cascade path from the target (concealed, unflagged stones, each but the last with count 0 and adjacent to the next) are turned over, and nothing else changes; the reveal result holds as well (closed, every uncovered stone reached from the target, no bomb uncovered from a safe target); the object invariant is kept |
| Minesweeper.Game.RevealAround | src/App.tsx:122-136 | the cascade from a stone just uncovered with count 0 ends in the reveal result for that stone: closed, and every stone uncovered is reached from it along a cascade path |
| FloodFill.RevealEffect | src/App.tsx:116-137 | after a reveal the grid has the same shape; bombs, flags and counts are unchanged; no revealed stone is concealed again; a flagged concealed stone stays concealed; an unflagged target ends up revealed |
| FloodFill.RevealNothing | src/App.tsx:116-118 | the early return on a revealed or flagged stone keeps every promise of a reveal |
| FloodFill.RevealOne | src/App.tsx:119-122 | turning over one concealed unflagged stone is a complete reveal when its count is not 0, and starts the cascade (one fewer concealed stone) when it is |
| FloodFill.CascadeSkip | src/App.tsx:130-133 | an offset that leaves the grid is passed over and counts as covered |
| FloodFill.CascadeStep | src/App.tsx:123-135 | the recursive reveal of the neighbour at offset k carries closure, reachability, safety and the shrinking of the concealed set one offset further |
| FloodFill.CascadeDone | src/App.tsx:122-136 | once all eight offsets are covered the stone is settled and the cascade keeps every promise of a reveal |
| FloodFill.HiddenShrinks | src/App.tsx:116-119 | a reveal never adds a concealed stone, and uncovering a stone removes one: the measure that ends the recursion |
| FloodFill.ClosedCompose | src/App.tsx:123-135 | closure of the calls made so far, plus closure of the next call, is closure of their sequence |
| FloodFill.PathLift | src/App.tsx:116-122 | a cascade path on the grid seen by a nested call is a cascade path on the grid before the outer call, since a reveal only turns stones over |
| FloodFill.ReachableThrough | src/App.tsx:122-134 | a cascade path from a neighbour of a concealed, unflagged zero stone extends to a cascade path from that stone |
| FloodFill.ReachedCompose | src/App.tsx:123-135 | every stone uncovered by the call on a neighbour is reached from the zero stone through that neighbour |
| FloodFill.PathUncovered | src/App.tsx:116-136 | completeness: the last stone of every cascade path from the target is uncovered by the reveal |
| FloodFill.RevealRegion | src/App.tsx:113-138 | a reveal uncovers exactly the stones reachable from the target along cascade paths, in both directions |
| FloodFill.RevealIsFlood | src/App.tsx:113-138 | the promises of a reveal determine the new grid: it is the reference reveal `Flood` |
| FloodFill.FloodStopsAtCount | src/App.tsx:119-122 | a reveal on a concealed, unflagged stone with a count other than 0 turns over that stone alone, whatever zeros lie elsewhere on the grid |
| FloodFill.NoBombStaysHidden | src/App.tsx:113-138 | a reveal that uncovers no bomb, on a grid that shows none, leaves a grid that shows none |
| Minesweeper.Game.RightClickStone | src/App.tsx:140-150 | a revealed stone leaves the grid unchanged; otherwise only the target's flag is inverted, and the new grid is the toggled snapshot |
| Stones.ToggleFlag | src/App.tsx:143-147 | the right-click changes a stone exactly when it is concealed, and then only in its flag |
| Stones.FlagAt | src/App.tsx:141-149 | the grid after a right-click has the same shape, the target toggled and every other stone unchanged |
| Stones.FlagAtTwice | src/App.tsx:143-147 | two right-clicks on the same stone give the grid back |
| Stones.ToggleFlagEffect | src/App.tsx:143-147 | the toggle leaves a revealed stone alone and otherwise flips only its flag |
| Stones.ToggleFlagTwice | src/App.tsx:143-147 | toggling twice gives the stone back |
| Minesweeper.Game.ScanStones | src/App.tsx:75-97 | the double loop returns the bomb count, the concealed count, whether a bomb is revealed and whether every bomb is flagged, for the whole grid |
| Evaluation.Visit | src/App.tsx:81-95 | the checks on one stone raise each count by at most one and keep the tally consistent (a reported revealed or unflagged bomb has been counted) |
| Evaluation.ScanRow | src/App.tsx:80-96 | the inner loop over a row raises each count by at most the row's length and keeps the tally consistent |
| Evaluation.Scan | src/App.tsx:75-97 | the tally of the whole scan is consistent: it never reports a revealed or unflagged bomb without having counted one |
| Evaluation.ScanIsTally | src/App.tsx:79-97 | visiting the stones one by one, in row order, yields the tally defined by counting and quantifying over the whole grid |
| Evaluation.TallyAppendCell | src/App.tsx:81-95 | the four checks made on one more stone update the tally of the stones seen so far exactly |
| Evaluation.Decide | src/App.tsx:99-109 | the decision on a tally is a loss exactly when a bomb is revealed, whatever the win conditions say, and a win exactly when no bomb is revealed and the counts agree or every bomb is flagged |
| Evaluation.JudgeLoss | src/App.tsx:99-103 | a loss is announced exactly when some bomb is revealed, whatever the win conditions say |
| Evaluation.JudgeWin | src/App.tsx:99-109 | a win is announced exactly when no bomb shows and either every safe stone is revealed or every bomb is flagged |
| Evaluation.JudgeFresh | src/App.tsx:71-109 | on a grid with nothing revealed or flagged the decision is never a loss, and is a win exactly when every stone is a bomb or none is |
| Evaluation.CountWinIsAllSafeRevealed | src/App.tsx:104 | while no bomb shows, "bombs equal concealed stones" holds exactly when every safe stone is revealed |
| Evaluation.CountCompare | src/App.tsx:79-97 | if every stone with one property has another, the first count is at most the second, with equality exactly when the converse holds |
| Evaluation.NoBombsIsWin | src/App.tsx:104 | a grid without bombs is always a win |
| Evaluation.FlagWinLeavesSafeCellsHidden | src/App.tsx:104 | a grid with every bomb flagged is won while a safe stone is still concealed |
| Evaluation.FlipAll | src/App.tsx:67-69 | the grid with every stone turned over and nothing else changed |
| Evaluation.FlipAllIdempotent | src/App.tsx:67-69 | turning everything over twice is the same as once, and leaves nothing concealed |
| Stones.Flipped | src/App.tsx:68 | a stone turned over is revealed and differs from the original in nothing else |
| Stones.FlippedEffect | src/App.tsx:68 | turning a stone over sets only its revealed field, and doing it again changes nothing |
| Minesweeper.Game.FlipAllStones | src/App.tsx:67-69 | the grid is replaced by a new grid of the same size whose stones are the old ones turned over |
| Minesweeper.Game.Settle | src/App.tsx:71-111 | nothing happens in a finished game; otherwise the outcome is the decision on the current grid, and on a win or a loss the grid is turned over and the game finished; the object invariant is kept |
| Minesweeper.Game.Click | src/App.tsx:71-138 | a click on a revealed or flagged stone, or in a finished game, changes nothing; otherwise the outcome is the decision on the reference reveal of the old grid, and the new grid is that reveal, turned over entirely when the game is decided; uncovering a bomb loses; a click on a safe stone of a grid with no bomb showing never loses; a decided game is finished and shows every stone |
| Minesweeper.Game.RightClick | src/App.tsx:140-150 | a right-click on a revealed stone, or in a finished game, changes nothing; otherwise the outcome is the decision on the toggled grid, and the new grid is the toggled grid, turned over entirely when the game is decided; a right-click never loses unless a bomb already shows; a decided game is finished and shows every stone |
| Minesweeper.JudgeLayout | src/App.tsx:62-109 | on a freshly generated grid the decision is never a loss, and is a win exactly when the layout has no bombs or nothing but bombs |
| Minesweeper.NewGame | src/App.tsx:62-74 | a new game from a layout is won at once exactly when the layout has no bombs or nothing but bombs, is never lost; a won game is finished and shows every stone; an undecided one is unfinished with every stone concealed and unflagged |

## Left out

- Random mine placement (`src/App.tsx:16`) is replaced by a mine layout given
  as a parameter. The fixed 6 by 6 size (`64`) is a parameter too.
- The React plumbing is not modelled: `useState`, the scheduling of `useEffect`, and the batching of
  `setStones` and `setFinished`. The shallow copies `[...stones]` (`114`, `141`)
  share the stone objects, so every nested call of the reveal sees the writes
  of the others. The model therefore changes one grid in place. `Click`,
  `RightClick` and `NewGame` call the evaluation explicitly where the effect
  would run.
- The `alert` messages (`100`, `105`), the rendering in `App` and the whole
  `SingleStone` component (`152-222`) are user interface only.
- The `key` string and the `bombText` field of a stone (`19`, `23`) are
  presentation only and are not part of the record.
- `vite.config.ts` is not part of this model (build configuration).
- Coordinates outside the grid are excluded by a precondition on the reveal
  and the toggle. The user interface only calls them with the coordinates of
  rendered stones.
- The bound on the column index in the reveal (`src/App.tsx:131`) reads the
  length of the clicked row. The model uses the width of the grid, which is
  the same because every row has the same length.
- JavaScript numbers are not modelled as floating point. Counts are at most
  8 and at most the number of stones, far from any precision limit.
- In-place increments: `AddBombsAround` accumulates the count in a copy of
  the stone and writes it back once, while the source increments the shared
  object at each bomb. No read in the loop can see the difference, because the
  loop reads only `isBomb` of the stones around, and `isBomb` never changes.
