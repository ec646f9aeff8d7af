# Matrix2048 board engine in Dafny

This project models the board engine of a 2048 game, the `Matrix2048` class.
The board is an N x N grid of integers, where 0 is an empty cell. Beside it the
engine keeps a `score` and `history`, a stack of at most ten `(score, matrix)`
snapshots used for undo.

The engine's operations are:

- spawning a 2 in an empty cell;
- the game-over test;
- reset;
- a move in one of four directions; the snapshot is recorded first;
- undo.

The model also has the key dispatch of the window's event handler. A direction
key moves and then spawns, even when the move changed nothing. `z` undoes when
there is history. Then the game-over test runs.

The files:

- `rows.dfy` (module `Rows`) covers one row. Compaction (`Compact`) slides the
  non-empty cells to the left. The merge pass (`Merge`, `MergeGain`) doubles an
  equal pair and earns its score. Row reversal and tile values come last.
  Each row operation is a function: the filter, the merge pass and its gain
  are recursive, and the empty row and the reversal are sequence
  comprehensions. Lemmas state what they do.
- `grids.dfy` (module `Grids`) covers whole boards:
  - the left move and how much it earns;
  - the three geometric transforms (row reversal, row-order reversal,
    transposition) and the right, up and down moves built from them;
  - the game-over predicate `Terminal`;
  - the empty-cell list and `Spawn`.
  It also proves these transforms against each other, together with tile sums,
  the tile invariant and the facts about terminal boards.
- `logic.dfy` (module `Logic`) holds the engine. It defines the snapshot
  history (`Record`, which keeps the newest ten) and the direction letters and
  keys. It has the source's loops as methods over values: `CompactRow` is the
  `remove(0)`/`append(0)` loops, and `MergeRowLeft` is one row of
  `merge_left`. Each is proved equal to its specification function. It also
  has the class `Matrix2048`, whose fields `column`, `matrix`, `score` and
  `history` are updated by its methods, as in the source.
- `scenarios.dfy` (module `Scenarios`) works through concrete boards:
  - the example rows `[2,2,0,0]`, `[2,0,2,2]` and `[2,2,2,2]`;
  - a right move;
  - boards that are and are not over;
  - a move followed by undo on a 2 x 2 board.

`random.choice` over the empty cells becomes a parameter `pick: nat`. The cell
chosen is `EmptyCells(g)[pick % |EmptyCells(g)|]`, where `EmptyCells` lists the
empty cells in the source's order (row by row, then column by column).
`Grids.SpawnCanChooseAny` proves that every empty cell can be chosen. The value
written is always 2; the source's `random.choice([2, 2])` has only one outcome.

The class invariant `Matrix2048.Valid` says:

- the board is `column` x `column`;
- every cell is 0 or a power of two at least 2;
- the score is non-negative;
- the history has at most ten entries;
- every snapshot is a well-formed board.

The constructor and `Init` establish it. `MatrixMove`, `PrevStep` and `Step`
preserve it. The helpers `MoveLeft`, `MergeLeft`, `MoveRight`, `MoveUp`,
`MoveDown` and `Dispatch` ask only for a square board, and state their new
board and score exactly. `GenerateNumber` asks for a square board of tiles and
keeps it one. `MatrixMove` supplies the rest of the invariant by the lemma
`Grids.SlideTiles`.

## Model

| member | source | states |
|---|---|---|
| Rows.Compact | logic.py:84-90 | compaction of one row: its non-empty cells in order, then 0s up to the row's length; the contract keeps the length, and `CompactShape` and `CompactRow` give the rest |
| Rows.MergeGain | logic.py:99 | the score one merge pass earns, the sum of the doubles it writes, which is therefore always even |
| Grids.ZeroGrid | logic.py:48-49 | the reset board: N x N with every cell 0 |
| Grids.CompactGrid | logic.py:85-89 | every row of the board compacted, the number of rows kept |
| Grids.MergeGrid | logic.py:94-98 | every row of the board merged, the number of rows kept |
| Grids.GridGain | logic.py:94-99 | the score the merge pass earns over all rows, top to bottom; always even |
| Grids.MoveLeftGrid | logic.py:102-104 | compact, merge, compact on every row; the number of rows and each row's length kept |
| Grids.MoveLeftGain | logic.py:102-104 | the left move earns what the merge pass earns on the compacted board; always even |
| Grids.MoveRightGrid | logic.py:107-110 | row reversal, left move, row reversal; the number of rows and each row's length kept |
| Grids.MoveRightGain | logic.py:107-110 | the right move earns what the left move earns on the row-reversed board; always even |
| Grids.MoveUpGrid | logic.py:113-120 | transpose, left move, transpose; the board stays N x N |
| Grids.MoveUpGain | logic.py:113-120 | the up move earns what the left move earns on the transpose; always even |
| Grids.MoveDownGrid | logic.py:123-126 | row-order reversal, up move, row-order reversal; the board stays N x N |
| Grids.MoveDownGain | logic.py:123-126 | the down move earns what the up move earns on the row-order-reversed board; always even |
| Grids.Slide | logic.py:69-76 | the board after a move in the given direction, one case per letter of `matrix_move`; the board stays N x N |
| Grids.SlideGain | logic.py:69-76 | the score a move in the given direction earns; always even |
| Grids.Terminal | logic.py:26-44 | the game-over condition: no cell is 0, no two horizontal neighbours are equal, no two vertical neighbours are equal (`GameOver` is proved equal to it, `TerminalNoMove` states what it implies) |
| Grids.Spawn | logic.py:14-23 | the board after `generate_number` with the caller's choice of empty cell; the number of rows kept, and `SpawnEffect` states the effect |
| Logic.Record | logic.py:61-68 | the history after pushing a snapshot: the snapshot is newest, and the length is one more than before, or ten when the history was full |
| Logic.FirstIndex | logic.py:87 | the position `remove(0)` removes: the first occurrence of the value |
| Rows.NonZeros | logic.py:86-87 | removing every 0 keeps only non-empty cells, drawn from the row, and never lengthens it |
| Rows.CompactShape | logic.py:84-90 | compaction keeps the row length, packs the non-empty cells to the left in their original order, and is idempotent |
| Rows.NonZerosRemoveZero | logic.py:87 | removing one 0 from a row leaves its non-empty cells, in order, unchanged |
| Rows.NonZerosAppend | logic.py:84-90 | the non-empty cells of a concatenation are the two parts' non-empty cells, concatenated |
| Rows.CompactSum | logic.py:84-90 | compaction keeps the row total |
| Rows.CompactTiles | logic.py:84-90 | compaction of a row of tiles yields tiles |
| Rows.Merge | logic.py:95-98 | the merge pass keeps the row length |
| Rows.MergeCell | logic.py:95-98 | each merged cell either keeps its value, or is the double of an equal non-zero pair whose right cell became 0, or is that 0: no tile takes part in two merges |
| Rows.MergeSum | logic.py:96-98 | replacing v, v by 2v, 0 keeps the row total |
| Rows.MergeTiles | logic.py:95-99 | merging tiles yields tiles and a non-negative gain, and the gain is 0 exactly when the pass changes nothing |
| Rows.StuckRowUnchanged | logic.py:84-100 | a full row with no equal neighbours is unchanged by compaction and merge and earns nothing |
| Rows.Reverse | logic.py:108 | element i of the result is element N-1-i of the sequence; it serves both for a row read right to left and for the rows in the opposite order |
| Rows.ReverseInvolution | logic.py:108 | reversing a sequence twice gives it back |
| Rows.ReverseRowSum | logic.py:108 | reversing a row keeps its total |
| Rows.ReverseRowStuck | logic.py:108 | the reversal of a stuck row is stuck |
| Rows.DoubleIsPowerOfTwo | logic.py:97 | doubling a power of two gives a power of two |
| Logic.CompactRow | logic.py:84-90 | the `remove(0)` and `append(0)` loops on one row compute `Compact` of the row |
| Logic.CompactRows | logic.py:84-90 | `move_left_` compacts every row of the board |
| Logic.MergePairStep | logic.py:96-99 | a merging step of the scan (double at col, 0 at col + 1, the double earned, col advanced) keeps the scan invariant `Scanned`: the finished cells plus the merge of the rest is the merge of the whole row, and the gain so far plus what the rest earns is the whole gain |
| Logic.MergeSkipStep | logic.py:95-96 | a step of the scan that finds no pair and only advances col keeps the scan invariant `Scanned` |
| Logic.MergeRowLeft | logic.py:94-99 | the scan over one row, with its writes and score additions, yields `Merge` of the row and exactly `MergeGain` of it |
| Logic.Matrix2048.MergeLeft | logic.py:93-100 | `merge_left` merges every row and adds the sum of all doubles written to the score |
| Logic.Matrix2048.MoveLeft | logic.py:79-104 | the left move is compact, then merge, then compact, and the score grows by the merge gain |
| Grids.MoveLeftPacked | logic.py:102-104 | after a left move every row is packed to the left |
| Grids.MoveLeftSum | logic.py:93-104 | the left move keeps the board's tile total |
| Grids.MoveLeftTiles | logic.py:102-104 | the left move keeps every cell a tile, and its gain is non-negative |
| Grids.ReverseRows | logic.py:108 | each row of the result is the row reversed |
| Grids.Transpose | logic.py:116-120 | the result is square, and its cell (y, x) is cell (x, y) of the board |
| Grids.TransformsAreInvolutions | logic.py:107-126 | row reversal, row-order reversal and transposition keep the board N x N, and each undoes itself |
| Grids.TransposeReverseOrder | logic.py:113-126 | transposing the row-reversed-order board is reversing every row of the transpose |
| Grids.ReverseOrderTranspose | logic.py:113-126 | reversing the row order of a transpose is transposing the row-reversed board |
| Grids.DownIsTransposedRight | logic.py:123-126 | the down move equals a right move on the transposed board, transposed back, with the same gain |
| Logic.Matrix2048.MoveRight | logic.py:107-110 | the right move is row reversal, left move, row reversal |
| Logic.Matrix2048.MoveUp | logic.py:113-120 | the up move is transpose, left move, transpose |
| Logic.Matrix2048.MoveDown | logic.py:123-126 | the down move is row-order reversal, up move, row-order reversal |
| Grids.TransformSums | logic.py:107-126 | the three transforms keep the board's tile total |
| Grids.SlideSum | logic.py:69-126 | every move keeps the board's tile total |
| Grids.SlideTiles | logic.py:69-76 | every move keeps the board N x N and every cell a tile, and earns a non-negative score |
| Logic.ParseDirection | logic.py:58 | a direction is accepted exactly when it is one of "L", "R", "D", "U" |
| Logic.RecordBounded | logic.py:61-68 | pushing a snapshot leaves it newest, keeps at most ten entries, and drops only the oldest when the history was full |
| Logic.RecordKeepsSnapshotsOk | logic.py:61-68 | pushing a well-formed snapshot keeps every snapshot well-formed and the history within ten |
| Logic.Matrix2048.MatrixMove | logic.py:57-76 | an accepted direction pushes the pre-move snapshot with the bound of ten, then moves that way and adds the gain to the score; any other string changes nothing |
| Logic.Matrix2048.Dispatch | logic.py:69-76 | the four-way branch on the letter runs the matching move |
| Logic.Matrix2048.PrevStep | logic.py:129-134 | undo restores the newest snapshot's score and board and drops it; with no history it changes nothing |
| Logic.MoveThenUndo | logic.py:57-134 | undo right after an accepted move restores board and score exactly; the history is as before, minus its oldest entry if it was full |
| Logic.Matrix2048.GameOver | logic.py:26-44 | the three early-return loops answer true exactly when no cell is 0 and no two horizontal or vertical neighbours are equal; nothing changes |
| Grids.TerminalRowsStuck | logic.py:26-39 | on a finished board every row is stuck |
| Grids.TerminalReverseRows | logic.py:26-44 | reversing every row of a finished board gives a finished board |
| Grids.TerminalReverseOrder | logic.py:26-44 | reversing the row order of a finished board gives a finished board |
| Grids.TerminalTranspose | logic.py:26-44 | transposing a finished board gives a finished board |
| Grids.StuckMoveLeft | logic.py:79-104 | a board of stuck rows is unchanged by the left move and earns nothing |
| Grids.TerminalNoMove | logic.py:26-126 | when the game is over, no direction changes the board or the score |
| Grids.EmptyCells | logic.py:18-19 | only empty cells are listed |
| Grids.EmptyCellsExact | logic.py:18-19 | a cell is listed exactly when it is empty |
| Grids.SpawnEffect | logic.py:14-23 | on a full board the spawn changes nothing; otherwise it writes 2 into one empty cell and leaves every other cell unchanged |
| Grids.SpawnCanChooseAny | logic.py:22 | every empty cell is a possible choice |
| Grids.SpawnTiles | logic.py:14-23 | spawning keeps the board N x N and every cell a tile |
| Grids.SpawnTwiceOnEmpty | logic.py:47-51 | two spawns on an empty board of size at least 2 leave an N x N board with exactly two distinct cells equal to 2 and every other cell 0 (`TwoTwos`) |
| Logic.Matrix2048.GenerateNumber | logic.py:14-23 | the board becomes the spawn of the old board, and stays a square board of tiles |
| Logic.Matrix2048.Init | logic.py:47-54 | the board is two spawns on an empty board, the score is 0, the history empty, and the invariant holds |
| Logic.Matrix2048.constructor | logic.py:6-11 | a new engine of the given size starts as `init` leaves it |
| Logic.KeyDirection | puzzle.py:179-187 | a key moves exactly when it is one of the arrow keys or w, s, a, d |
| Logic.Letter | puzzle.py:180-187 | each direction's letter is accepted as that direction |
| Logic.Matrix2048.Step | puzzle.py:179-196 | a direction key records a snapshot, moves and then spawns; "z" with history undoes; any other key changes nothing; the result is the game-over test on the new board |
| Scenarios.Row2200 | logic.py:84-100 | `[2,2,0,0]` merges to `[4,0,0,0]` and earns 4 |
| Scenarios.Row2022 | logic.py:84-100 | `[2,0,2,2]` compacts to `[2,2,2,0]`, merges to `[4,0,2,0]` (earning 4), and ends as `[4,2,0,0]` |
| Scenarios.Row2222 | logic.py:84-100 | `[2,2,2,2]` merges to `[4,0,4,0]` (earning 8), and ends as `[4,4,0,0]` |
| Scenarios.LeftExamples | logic.py:102-104 | the three example rows after a whole left move, with their gains |
| Scenarios.RightExample | logic.py:107-110 | `[0,0,2,2]` moved right becomes `[0,0,0,4]` and earns 4 |
| Scenarios.TerminalExamples | logic.py:26-44 | `[[2,4],[4,2]]` is over; a horizontal pair or a vertical pair each keep the game going |
| Scenarios.TwoByTwoLeft | logic.py:79-104 | `[[2,2],[0,0]]` moved left becomes `[[4,0],[0,0]]` and earns 4 |
| Scenarios.MoveLeftThenUndo | logic.py:57-134 | a left move on `[[2,2],[0,0]]` followed by undo restores the board and the score 0 |

## Left out

- The window, labels, images, dialogs, settings and word themes in `puzzle.py` are user interface. They hold no engine state. The `constants` module is not part of this model.
- The timer in `puzzle.py` reads the wall clock and uses `root.after`. It is left out.
- `Logic.Matrix2048.Step`: after a finished board, the window asks for confirmation twice (`self.t`) before resetting. That is left out; `Step` returns the game-over answer instead.
- `generate_number`'s `random.choice` is not modelled as randomness. A caller-supplied `pick` chooses the cell, and the value is always 2.
- `copy.deepcopy` and Python list aliasing are not modelled. Snapshots and boards are immutable sequence values, so nothing can alias.
- `Logic.Matrix2048.MergeLeft`: the source adds each double to `self.score` as soon as it is written. The model adds each row's gain after the row's scan. The final score is the same, and no other code runs in between.
- `Logic.Matrix2048.MatrixMove`: the source tests the four letters with four independent `if`s. The model uses one `if`/`else if` chain in `Dispatch`. At most one letter matches, so the result is the same.
- `Logic.Matrix2048.Step`: the source calls `matrix_move` with the literal letter for each key group. The model passes `Letter(KeyDirection(keysym))`, which is the same letter.
- `Logic.Matrix2048.constructor`: the source's default size of 4 is not modelled. The size is always passed explicitly.
- `Grids.EmptyCells`: it scans each row to its own length, where the source scans `column` cells. Under the class invariant the two are equal.
- `Grids.TerminalNoMove`: only the direction "game over implies no move changes the board" is proved. The converse fails: no move changes the all-zero board, yet it is not over.
- The game-over test, every move and undo assume the class invariant. Only the constructor, `init` and the other methods create states, and all of them establish the invariant. So states violating it, which the source would still accept, are not modelled.
