// The N x N board as a value: the left move on every row, the geometric
// transforms that turn the other three directions into the left move, the
// terminal-board predicate, and tile spawning on a chosen empty cell.

module Grids {

  import opened Rows

  type Grid = seq<Row>

  datatype Direction = Left | Right | Up | Down

  predicate IsSquare(g: Grid, n: nat)
  {
    |g| == n && forall i :: 0 <= i < n ==> |g[i]| == n
  }

  /** Every cell is empty or a power of two at least 2. */
  predicate AllTiles(g: Grid)
  {
    forall i, j :: 0 <= i < |g| && 0 <= j < |g[i]| ==> IsTile(g[i][j])
  }

  function ZeroGrid(n: nat): (g: Grid)
    ensures IsSquare(g, n)
    ensures forall i, j :: 0 <= i < n && 0 <= j < n ==> g[i][j] == 0
  {
    seq(n, _ => Zeros(n))
  }

  function GridSum(g: Grid): int
  {
    if g == [] then 0 else Sum(g[0]) + GridSum(g[1..])
  }

  // ---------------------------------------------------------------------
  // The left move on every row

  function CompactGrid(g: Grid): (r: Grid)
    ensures |r| == |g|
    ensures forall i :: 0 <= i < |g| ==> r[i] == Compact(g[i])
  {
    seq(|g|, i requires 0 <= i < |g| => Compact(g[i]))
  }

  function MergeGrid(g: Grid): (r: Grid)
    ensures |r| == |g|
    ensures forall i :: 0 <= i < |g| ==> r[i] == Merge(g[i])
  {
    seq(|g|, i requires 0 <= i < |g| => Merge(g[i]))
  }

  /** The score earned by the merge pass over all rows, row by row from the top. */
  function GridGain(g: Grid): (r: int)
    ensures r % 2 == 0
  {
    if g == [] then 0 else GridGain(g[..|g| - 1]) + MergeGain(g[|g| - 1])
  }

  /** Left move: compact, merge, compact, on every row. */
  function MoveLeftGrid(g: Grid): (r: Grid)
    ensures |r| == |g|
    ensures forall i :: 0 <= i < |g| ==> |r[i]| == |g[i]|
  {
    CompactGrid(MergeGrid(CompactGrid(g)))
  }

  /** The merge pass runs on the compacted board, so that is where the score is earned. */
  function MoveLeftGain(g: Grid): (r: int)
    ensures r % 2 == 0
  {
    GridGain(CompactGrid(g))
  }

  // ---------------------------------------------------------------------
  // Geometric transforms

  /** Each row read right to left. */
  function ReverseRows(g: Grid): (r: Grid)
    ensures |r| == |g|
    ensures forall i :: 0 <= i < |g| ==> r[i] == Reverse(g[i])
  {
    seq(|g|, i requires 0 <= i < |g| => Reverse(g[i]))
  }

  /** Row y of the result is column y of g. */
  function Transpose(g: Grid, n: nat): (r: Grid)
    requires IsSquare(g, n)
    ensures IsSquare(r, n)
    ensures forall y, x :: 0 <= y < n && 0 <= x < n ==> r[y][x] == g[x][y]
  {
    seq(n, y requires 0 <= y < n => seq(n, x requires 0 <= x < n => g[x][y]))
  }

  // ---------------------------------------------------------------------
  // The four directions

  function MoveRightGrid(g: Grid): (r: Grid)
    ensures |r| == |g|
    ensures forall i :: 0 <= i < |g| ==> |r[i]| == |g[i]|
  {
    ReverseRows(MoveLeftGrid(ReverseRows(g)))
  }

  function MoveRightGain(g: Grid): (r: int)
    ensures r % 2 == 0
  {
    MoveLeftGain(ReverseRows(g))
  }

  function MoveUpGrid(g: Grid, n: nat): (r: Grid)
    requires IsSquare(g, n)
    ensures IsSquare(r, n)
  {
    Transpose(MoveLeftGrid(Transpose(g, n)), n)
  }

  function MoveUpGain(g: Grid, n: nat): (r: int)
    requires IsSquare(g, n)
    ensures r % 2 == 0
  {
    MoveLeftGain(Transpose(g, n))
  }

  function MoveDownGrid(g: Grid, n: nat): (r: Grid)
    requires IsSquare(g, n)
    ensures IsSquare(r, n)
  {
    Reverse(MoveUpGrid(Reverse(g), n))
  }

  function MoveDownGain(g: Grid, n: nat): (r: int)
    requires IsSquare(g, n)
    ensures r % 2 == 0
  {
    MoveUpGain(Reverse(g), n)
  }

  /** The board after a move in direction d. */
  function Slide(d: Direction, g: Grid, n: nat): (r: Grid)
    requires IsSquare(g, n)
    ensures IsSquare(r, n)
  {
    match d
    case Left => MoveLeftGrid(g)
    case Right => MoveRightGrid(g)
    case Up => MoveUpGrid(g, n)
    case Down => MoveDownGrid(g, n)
  }

  /** The score a move in direction d earns. */
  function SlideGain(d: Direction, g: Grid, n: nat): (r: int)
    requires IsSquare(g, n)
    ensures r % 2 == 0
  {
    match d
    case Left => MoveLeftGain(g)
    case Right => MoveRightGain(g)
    case Up => MoveUpGain(g, n)
    case Down => MoveDownGain(g, n)
  }

  // ---------------------------------------------------------------------
  // Game over

  /** No empty cell, no two equal horizontal neighbours, no two equal vertical neighbours. */
  predicate Terminal(g: Grid, n: nat)
    requires IsSquare(g, n)
  {
    (forall i, j :: 0 <= i < n && 0 <= j < n ==> g[i][j] != 0) &&
    (forall i, j :: 0 <= i < n && 0 <= j < n - 1 ==> g[i][j] != g[i][j + 1]) &&
    (forall i :: 0 <= i < n - 1 ==> Unequal(g[i], g[i + 1]))
  }

  /** No cell of `upper` equals the cell directly below it in `lower`. */
  predicate Unequal(upper: Row, lower: Row)
  {
    forall j :: 0 <= j < |upper| && j < |lower| ==> upper[j] != lower[j]
  }

  // ---------------------------------------------------------------------
  // Spawning

  /** The empty cells of row x from column y on, left to right. */
  function EmptyInRow(row: Row, x: nat, y: nat): (cells: seq<(nat, nat)>)
    requires y <= |row|
    ensures forall p :: p in cells ==> p.0 == x && y <= p.1 < |row| && row[p.1] == 0
    decreases |row| - y
  {
    if y == |row| then []
    else (if row[y] == 0 then [(x, y)] else []) + EmptyInRow(row, x, y + 1)
  }

  /** The empty cells of rows x and below, in row-major order. */
  function EmptyCellsFrom(g: Grid, x: nat): (cells: seq<(nat, nat)>)
    requires x <= |g|
    ensures forall p :: p in cells ==> x <= p.0 < |g| && p.1 < |g[p.0]| && g[p.0][p.1] == 0
    decreases |g| - x
  {
    if x == |g| then [] else EmptyInRow(g[x], x, 0) + EmptyCellsFrom(g, x + 1)
  }

  /** The positions holding 0, in row-major order (the list `zero`). */
  function EmptyCells(g: Grid): (cells: seq<(nat, nat)>)
    ensures forall p :: p in cells ==> p.0 < |g| && p.1 < |g[p.0]| && g[p.0][p.1] == 0
  {
    EmptyCellsFrom(g, 0)
  }

  /** The random choice among the empty cells is the caller's `pick`; the new tile is always 2. */
  function Spawn(g: Grid, pick: nat): (r: Grid)
    ensures |r| == |g|
  {
    var cells := EmptyCells(g);
    if cells == [] then g
    else
      var p := cells[pick % |cells|];
      assert p in cells;
      g[p.0 := g[p.0][p.1 := 2]]
  }

  // ---------------------------------------------------------------------
  // Transforms: involutions and how they commute

  /** Row reversal, row-order reversal and transposition each keep the board
      N x N and undo themselves. */
  lemma TransformsAreInvolutions(g: Grid, n: nat)
    requires IsSquare(g, n)
    ensures IsSquare(ReverseRows(g), n) && ReverseRows(ReverseRows(g)) == g
    ensures IsSquare(Reverse(g), n) && Reverse(Reverse(g)) == g
    ensures Transpose(Transpose(g, n), n) == g
  {
    forall i | 0 <= i < n ensures ReverseRows(ReverseRows(g))[i] == g[i] {
      ReverseInvolution(g[i]);
    }
    var t := Transpose(Transpose(g, n), n);
    forall x | 0 <= x < n ensures t[x] == g[x] {
      forall y | 0 <= y < n ensures t[x][y] == g[x][y] {
        assert t[x][y] == Transpose(g, n)[y][x];
      }
    }
  }

  lemma TransposeReverseOrder(g: Grid, n: nat)
    requires IsSquare(g, n)
    ensures IsSquare(Reverse(g), n)
    ensures Transpose(Reverse(g), n) == ReverseRows(Transpose(g, n))
  {
    var o := Reverse(g);
    assert IsSquare(o, n);
    var t := Transpose(g, n);
    var a, b := Transpose(o, n), ReverseRows(t);
    forall y | 0 <= y < n ensures a[y] == b[y] {
      forall x | 0 <= x < n ensures a[y][x] == b[y][x] {
        assert a[y][x] == o[x][y] == g[n - 1 - x][y];
        assert b[y] == Reverse(t[y]);
        assert b[y][x] == t[y][n - 1 - x];
      }
    }
  }

  lemma ReverseOrderTranspose(h: Grid, n: nat)
    requires IsSquare(h, n)
    ensures IsSquare(ReverseRows(h), n)
    ensures Reverse(Transpose(h, n)) == Transpose(ReverseRows(h), n)
  {
    var v := ReverseRows(h);
    assert IsSquare(v, n);
    var t := Transpose(h, n);
    var a, b := Reverse(t), Transpose(v, n);
    forall y | 0 <= y < n ensures a[y] == b[y] {
      forall x | 0 <= x < n ensures a[y][x] == b[y][x] {
        assert a[y] == t[n - 1 - y];
        assert a[y][x] == h[x][n - 1 - y];
        assert b[y][x] == v[x][y] == Reverse(h[x])[y];
      }
    }
  }

  /** A down move is a right move on the transposed board: the down move
      (row-order reversal around the up move) slides every column towards the
      bottom exactly as a right move slides every row towards the right. */
  lemma DownIsTransposedRight(g: Grid, n: nat)
    requires IsSquare(g, n)
    ensures IsSquare(ReverseRows(Transpose(g, n)), n)
    ensures MoveDownGrid(g, n) == Transpose(MoveRightGrid(Transpose(g, n)), n)
    ensures MoveDownGain(g, n) == MoveRightGain(Transpose(g, n))
  {
    var t := Transpose(g, n);
    TransformsAreInvolutions(t, n);
    TransposeReverseOrder(g, n);
    var m := MoveLeftGrid(ReverseRows(t));
    ReverseOrderTranspose(m, n);
  }

  // ---------------------------------------------------------------------
  // The left move packs every row

  lemma MoveLeftPacked(g: Grid)
    ensures forall i :: 0 <= i < |g| ==> Packed(MoveLeftGrid(g)[i])
  {
    forall i | 0 <= i < |g| ensures Packed(MoveLeftGrid(g)[i]) {
      CompactShape(MergeGrid(CompactGrid(g))[i]);
    }
  }

  // ---------------------------------------------------------------------
  // Tile sum is preserved by every move

  lemma {:induction false} GridSumRowwise(g: Grid, h: Grid)
    requires |g| == |h|
    requires forall i :: 0 <= i < |g| ==> Sum(g[i]) == Sum(h[i])
    ensures GridSum(g) == GridSum(h)
  {
    if g != [] {
      GridSumRowwise(g[1..], h[1..]);
    }
  }

  lemma {:induction false} GridSumAppend(a: Grid, b: Grid)
    ensures GridSum(a + b) == GridSum(a) + GridSum(b)
  {
    if a == [] {
      assert a + b == b;
    } else {
      assert (a + b)[1..] == a[1..] + b;
      GridSumAppend(a[1..], b);
    }
  }

  lemma {:induction false} EmptyRowsSum(t: Grid)
    requires forall y :: 0 <= y < |t| ==> t[y] == []
    ensures GridSum(t) == 0
  {
    if t != [] {
      EmptyRowsSum(t[1..]);
    }
  }

  /** Summing rows whose heads form the row a. */
  lemma {:induction false} GridSumCons(t: Grid, a: Row, k: Grid)
    requires |t| == |a| == |k|
    requires forall y :: 0 <= y < |t| ==> t[y] == [a[y]] + k[y]
    ensures GridSum(t) == Sum(a) + GridSum(k)
  {
    if t != [] {
      assert t[0][1..] == k[0];
      GridSumCons(t[1..], a[1..], k[1..]);
    }
  }

  /** Summing by columns gives the same total as summing by rows. */
  lemma {:induction false} ColumnsSum(g: Grid, m: nat, t: Grid)
    requires forall x :: 0 <= x < |g| ==> |g[x]| == m
    requires |t| == m
    requires forall y :: 0 <= y < m ==> |t[y]| == |g|
    requires forall y, x :: 0 <= y < m && 0 <= x < |g| ==> t[y][x] == g[x][y]
    ensures GridSum(t) == GridSum(g)
    decreases |g|
  {
    if g == [] {
      EmptyRowsSum(t);
    } else {
      var k := seq(m, y requires 0 <= y < m => t[y][1..]);
      forall y | 0 <= y < m ensures t[y] == [g[0][y]] + k[y] {
        assert t[y][0] == g[0][y];
      }
      forall y, x | 0 <= y < m && 0 <= x < |g[1..]| ensures k[y][x] == g[1..][x][y] {
        assert k[y][x] == t[y][x + 1];
      }
      ColumnsSum(g[1..], m, k);
      GridSumCons(t, g[0], k);
    }
  }

  lemma {:induction false} ReverseOrderSum(g: Grid)
    ensures GridSum(Reverse(g)) == GridSum(g)
  {
    if g != [] {
      assert Reverse(g) == Reverse(g[1..]) + [g[0]];
      ReverseOrderSum(g[1..]);
      GridSumAppend(Reverse(g[1..]), [g[0]]);
    }
  }

  lemma TransformSums(g: Grid, n: nat)
    requires IsSquare(g, n)
    ensures GridSum(ReverseRows(g)) == GridSum(g)
    ensures GridSum(Reverse(g)) == GridSum(g)
    ensures GridSum(Transpose(g, n)) == GridSum(g)
  {
    forall i | 0 <= i < |g| ensures Sum(ReverseRows(g)[i]) == Sum(g[i]) {
      ReverseRowSum(g[i]);
    }
    GridSumRowwise(ReverseRows(g), g);
    ReverseOrderSum(g);
    ColumnsSum(g, n, Transpose(g, n));
  }

  lemma MoveLeftSum(g: Grid)
    ensures GridSum(MoveLeftGrid(g)) == GridSum(g)
  {
    var c := CompactGrid(g);
    var m := MergeGrid(c);
    forall i | 0 <= i < |g| ensures Sum(c[i]) == Sum(g[i]) { CompactSum(g[i]); }
    forall i | 0 <= i < |g| ensures Sum(m[i]) == Sum(c[i]) { MergeSum(c[i]); }
    forall i | 0 <= i < |g| ensures Sum(CompactGrid(m)[i]) == Sum(m[i]) { CompactSum(m[i]); }
    GridSumRowwise(c, g);
    GridSumRowwise(m, c);
    GridSumRowwise(CompactGrid(m), m);
  }

  /** Merging replaces v, v by 2v, 0, so no move changes the total of all tiles. */
  lemma SlideSum(d: Direction, g: Grid, n: nat)
    requires IsSquare(g, n)
    ensures GridSum(Slide(d, g, n)) == GridSum(g)
  {
    TransformsAreInvolutions(g, n);
    match d
    case Left =>
      MoveLeftSum(g);
    case Right =>
      var m := MoveLeftGrid(ReverseRows(g));
      MoveLeftSum(ReverseRows(g));
      TransformSums(g, n);
      TransformSums(m, n);
    case Up =>
      var t := Transpose(g, n);
      MoveLeftSum(t);
      TransformSums(g, n);
      TransformSums(MoveLeftGrid(t), n);
    case Down =>
      var o := Reverse(g);
      var t := Transpose(o, n);
      MoveLeftSum(t);
      TransformSums(g, n);
      TransformSums(o, n);
      TransformSums(MoveLeftGrid(t), n);
      TransformSums(MoveUpGrid(o, n), n);
  }

  // ---------------------------------------------------------------------
  // Tiles stay tiles, scores never go down

  lemma {:induction false} GridGainTiles(g: Grid)
    requires forall i :: 0 <= i < |g| ==> RowTiles(g[i])
    ensures GridGain(g) >= 0
  {
    if g != [] {
      GridGainTiles(g[..|g| - 1]);
      MergeTiles(g[|g| - 1]);
    }
  }

  lemma MoveLeftTiles(g: Grid)
    requires AllTiles(g)
    ensures AllTiles(MoveLeftGrid(g)) && MoveLeftGain(g) >= 0
  {
    var c := CompactGrid(g);
    var m := MergeGrid(c);
    forall i | 0 <= i < |g| ensures RowTiles(c[i]) {
      assert RowTiles(g[i]);
      CompactTiles(g[i]);
    }
    forall i | 0 <= i < |g| ensures RowTiles(m[i]) { MergeTiles(c[i]); }
    forall i | 0 <= i < |g| ensures RowTiles(CompactGrid(m)[i]) { CompactTiles(m[i]); }
    GridGainTiles(c);
    var r := MoveLeftGrid(g);
    forall i, j | 0 <= i < |r| && 0 <= j < |r[i]| ensures IsTile(r[i][j]) {
      assert RowTiles(r[i]);
    }
  }

  lemma TransformTiles(g: Grid, n: nat)
    requires IsSquare(g, n) && AllTiles(g)
    ensures AllTiles(ReverseRows(g)) && AllTiles(Reverse(g)) && AllTiles(Transpose(g, n))
  {
    var r := ReverseRows(g);
    forall i, j | 0 <= i < |r| && 0 <= j < |r[i]| ensures IsTile(r[i][j]) {
      assert r[i][j] == g[i][n - 1 - j];
    }
  }

  lemma MoveRightTiles(g: Grid, n: nat)
    requires IsSquare(g, n) && AllTiles(g)
    ensures IsSquare(MoveRightGrid(g), n) && AllTiles(MoveRightGrid(g)) && MoveRightGain(g) >= 0
  {
    TransformsAreInvolutions(g, n);
    TransformTiles(g, n);
    var rr := ReverseRows(g);
    MoveLeftTiles(rr);
    TransformTiles(MoveLeftGrid(rr), n);
  }

  lemma MoveUpTiles(g: Grid, n: nat)
    requires IsSquare(g, n) && AllTiles(g)
    ensures AllTiles(MoveUpGrid(g, n)) && MoveUpGain(g, n) >= 0
  {
    TransformTiles(g, n);
    var t := Transpose(g, n);
    MoveLeftTiles(t);
    TransformTiles(MoveLeftGrid(t), n);
  }

  /** Every move turns a board of tiles into a board of tiles and earns a non-negative score. */
  lemma SlideTiles(d: Direction, g: Grid, n: nat)
    requires IsSquare(g, n) && AllTiles(g)
    ensures IsSquare(Slide(d, g, n), n)
    ensures AllTiles(Slide(d, g, n)) && SlideGain(d, g, n) >= 0
  {
    match d
    case Left =>
      MoveLeftTiles(g);
    case Right =>
      MoveRightTiles(g, n);
    case Up =>
      MoveUpTiles(g, n);
    case Down =>
      TransformsAreInvolutions(g, n);
      TransformTiles(g, n);
      var o := Reverse(g);
      MoveUpTiles(o, n);
      TransformsAreInvolutions(MoveUpGrid(o, n), n);
      TransformTiles(MoveUpGrid(o, n), n);
  }

  // ---------------------------------------------------------------------
  // A terminal board admits no move

  lemma {:induction false} GridGainZero(g: Grid)
    requires forall i :: 0 <= i < |g| ==> MergeGain(g[i]) == 0
    ensures GridGain(g) == 0
  {
    if g != [] {
      GridGainZero(g[..|g| - 1]);
    }
  }

  lemma StuckMoveLeft(g: Grid)
    requires forall i :: 0 <= i < |g| ==> Stuck(g[i])
    ensures MoveLeftGrid(g) == g && MoveLeftGain(g) == 0
  {
    forall i | 0 <= i < |g| ensures CompactGrid(g)[i] == g[i] && MergeGrid(g)[i] == g[i] && MergeGain(g[i]) == 0 {
      StuckRowUnchanged(g[i]);
    }
    assert CompactGrid(g) == g;
    assert MergeGrid(g) == g;
    GridGainZero(g);
  }

  lemma TerminalRowsStuck(g: Grid, n: nat)
    requires IsSquare(g, n) && Terminal(g, n)
    ensures forall i :: 0 <= i < n ==> Stuck(g[i])
  {
  }

  lemma UnequalReverse(a: Row, b: Row)
    requires |a| == |b| && Unequal(a, b)
    ensures Unequal(Reverse(a), Reverse(b))
  {
  }

  lemma TerminalReverseRows(g: Grid, n: nat)
    requires IsSquare(g, n) && Terminal(g, n)
    ensures IsSquare(ReverseRows(g), n) && Terminal(ReverseRows(g), n)
  {
    TransformsAreInvolutions(g, n);
    var r := ReverseRows(g);
    forall i | 0 <= i < n - 1 ensures Unequal(r[i], r[i + 1]) {
      UnequalReverse(g[i], g[i + 1]);
    }
    forall i | 0 <= i < n ensures Stuck(r[i]) {
      TerminalRowsStuck(g, n);
      ReverseRowStuck(g[i]);
    }
    forall i, j | 0 <= i < n && 0 <= j < n - 1 ensures r[i][j] != r[i][j + 1] {
      assert Stuck(r[i]);
    }
    forall i, j | 0 <= i < n && 0 <= j < n ensures r[i][j] != 0 {
      assert Stuck(r[i]);
    }
  }

  lemma TerminalReverseOrder(g: Grid, n: nat)
    requires IsSquare(g, n) && Terminal(g, n)
    ensures IsSquare(Reverse(g), n) && Terminal(Reverse(g), n)
  {
    TerminalRowsStuck(g, n);
    var o := Reverse(g);
    forall i | 0 <= i < n ensures |o[i]| == n && Stuck(o[i]) {
      assert o[i] == g[n - 1 - i];
    }
    StuckRowsTerminal(o, n);
    forall i | 0 <= i < n - 1 ensures Unequal(o[i], o[i + 1]) {
      var k := n - 2 - i;
      assert o[i] == g[k + 1] && o[i + 1] == g[k];
      assert Unequal(g[k], g[k + 1]);
    }
  }

  /** Rows that are stuck give the first two conditions of a terminal board. */
  lemma StuckRowsTerminal(g: Grid, n: nat)
    requires IsSquare(g, n)
    requires forall i :: 0 <= i < n ==> Stuck(g[i])
    ensures forall i, j :: 0 <= i < n && 0 <= j < n ==> g[i][j] != 0
    ensures forall i, j :: 0 <= i < n && 0 <= j < n - 1 ==> g[i][j] != g[i][j + 1]
  {
    forall i, j | 0 <= i < n && 0 <= j < n ensures g[i][j] != 0 {
      assert Stuck(g[i]);
    }
    forall i, j | 0 <= i < n && 0 <= j < n - 1 ensures g[i][j] != g[i][j + 1] {
      assert Stuck(g[i]);
    }
  }

  lemma TerminalTranspose(g: Grid, n: nat)
    requires IsSquare(g, n) && Terminal(g, n)
    ensures Terminal(Transpose(g, n), n)
  {
    var t := Transpose(g, n);
    forall i | 0 <= i < n - 1 ensures Unequal(t[i], t[i + 1]) {
      forall j | 0 <= j < n ensures t[i][j] != t[i + 1][j] {
        assert t[i][j] == g[j][i] && t[i + 1][j] == g[j][i + 1];
      }
    }
    forall i, j | 0 <= i < n && 0 <= j < n - 1 ensures t[i][j] != t[i][j + 1] {
      assert t[i][j] == g[j][i] && t[i][j + 1] == g[j + 1][i];
      assert Unequal(g[j], g[j + 1]);
    }
  }

  /** On a terminal board (the `gameover` condition) no direction changes the
      board or earns any score. */
  lemma TerminalNoMove(d: Direction, g: Grid, n: nat)
    requires IsSquare(g, n) && Terminal(g, n)
    ensures Slide(d, g, n) == g && SlideGain(d, g, n) == 0
  {
    TransformsAreInvolutions(g, n);
    match d
    case Left =>
      TerminalRowsStuck(g, n);
      StuckMoveLeft(g);
    case Right =>
      TerminalReverseRows(g, n);
      TerminalRowsStuck(ReverseRows(g), n);
      StuckMoveLeft(ReverseRows(g));
    case Up =>
      TerminalTranspose(g, n);
      TerminalRowsStuck(Transpose(g, n), n);
      StuckMoveLeft(Transpose(g, n));
    case Down =>
      var o := Reverse(g);
      TerminalReverseOrder(g, n);
      TransformsAreInvolutions(o, n);
      TerminalTranspose(o, n);
      TerminalRowsStuck(Transpose(o, n), n);
      StuckMoveLeft(Transpose(o, n));
  }

  // ---------------------------------------------------------------------
  // Spawning

  lemma {:induction false} EmptyInRowComplete(row: Row, x: nat, y0: nat, y: nat)
    requires y0 <= y < |row| && row[y] == 0
    ensures (x, y) in EmptyInRow(row, x, y0)
    decreases y - y0
  {
    if y0 < y {
      EmptyInRowComplete(row, x, y0 + 1, y);
    }
  }

  lemma {:induction false} EmptyCellsFromComplete(g: Grid, x0: nat, x: nat, y: nat)
    requires x0 <= x < |g| && y < |g[x]| && g[x][y] == 0
    ensures (x, y) in EmptyCellsFrom(g, x0)
    decreases x - x0
  {
    if x0 < x {
      EmptyCellsFromComplete(g, x0 + 1, x, y);
    } else {
      EmptyInRowComplete(g[x], x, 0, y);
    }
  }

  /** The list of empty cells holds exactly the cells equal to 0. */
  lemma EmptyCellsExact(g: Grid, x: nat, y: nat)
    requires x < |g| && y < |g[x]|
    ensures (x, y) in EmptyCells(g) <==> g[x][y] == 0
  {
    if g[x][y] == 0 {
      EmptyCellsFromComplete(g, 0, x, y);
    }
  }

  /** On a full board spawning changes nothing; otherwise it turns exactly one
      empty cell into a 2 and leaves every other cell as it was. */
  lemma SpawnEffect(g: Grid, pick: nat)
    ensures (forall i, j :: 0 <= i < |g| && 0 <= j < |g[i]| ==> g[i][j] != 0) ==> Spawn(g, pick) == g
    ensures (exists i, j :: 0 <= i < |g| && 0 <= j < |g[i]| && g[i][j] == 0) ==>
      exists x, y :: 0 <= x < |g| && 0 <= y < |g[x]| && g[x][y] == 0 &&
        Spawn(g, pick) == g[x := g[x][y := 2]]
  {
    var cells := EmptyCells(g);
    if cells != [] {
      var p := cells[pick % |cells|];
      assert p in cells;
      assert g[p.0][p.1] == 0;
    }
    if exists i, j :: 0 <= i < |g| && 0 <= j < |g[i]| && g[i][j] == 0 {
      var i, j :| 0 <= i < |g| && 0 <= j < |g[i]| && g[i][j] == 0;
      EmptyCellsExact(g, i, j);
    }
  }

  /** Every empty cell is a possible place for the new tile. */
  lemma SpawnCanChooseAny(g: Grid, x: nat, y: nat)
    requires x < |g| && y < |g[x]| && g[x][y] == 0
    ensures exists pick: nat :: Spawn(g, pick) == g[x := g[x][y := 2]]
  {
    EmptyCellsExact(g, x, y);
    var cells := EmptyCells(g);
    var k :| 0 <= k < |cells| && cells[k] == (x, y);
    assert cells != [];
    assert k % |cells| == k;
    assert cells[k % |cells|] == (x, y);
    assert Spawn(g, k) == g[x := g[x][y := 2]];
  }

  lemma SpawnTiles(g: Grid, n: nat, pick: nat)
    requires IsSquare(g, n) && AllTiles(g)
    ensures IsSquare(Spawn(g, pick), n) && AllTiles(Spawn(g, pick))
  {
    SpawnEffect(g, pick);
    assert IsTile(2);
  }

  /** The cell a spawn on a board with an empty cell fills. */
  lemma SpawnCell(g: Grid, pick: nat, zx: nat, zy: nat) returns (x: nat, y: nat)
    requires zx < |g| && zy < |g[zx]| && g[zx][zy] == 0
    ensures x < |g| && y < |g[x]| && g[x][y] == 0
    ensures Spawn(g, pick) == g[x := g[x][y := 2]]
  {
    EmptyCellsExact(g, zx, zy);
    var cells := EmptyCells(g);
    var p := cells[pick % |cells|];
    assert p in cells;
    x, y := p.0, p.1;
  }

  lemma SetCell(g: Grid, n: nat, x: nat, y: nat, v: int)
    requires IsSquare(g, n) && x < n && y < n
    ensures IsSquare(g[x := g[x][y := v]], n)
    ensures forall i, j :: 0 <= i < n && 0 <= j < n ==>
      g[x := g[x][y := v]][i][j] == if i == x && j == y then v else g[i][j]
  {
  }

  /** b is an n x n board whose only non-empty cells are two distinct cells
      (x1, y1) and (x2, y2), each holding 2. */
  predicate TwoTwos(b: Grid, n: nat, x1: nat, y1: nat, x2: nat, y2: nat)
  {
    IsSquare(b, n) && x1 < n && y1 < n && x2 < n && y2 < n && (x1, y1) != (x2, y2) &&
    forall i, j :: 0 <= i < n && 0 <= j < n ==>
      b[i][j] == if (i == x1 && j == y1) || (i == x2 && j == y2) then 2 else 0
  }

  /** Two spawns on an empty board of size at least 2 leave exactly two cells
      equal to 2 and every other cell 0. */
  lemma SpawnTwiceOnEmpty(n: nat, pick1: nat, pick2: nat)
    requires n >= 2
    ensures exists x1, y1, x2, y2 :: TwoTwos(Spawn(Spawn(ZeroGrid(n), pick1), pick2), n, x1, y1, x2, y2)
  {
    var g0 := ZeroGrid(n);
    var x1, y1 := SpawnCell(g0, pick1, 0, 0);
    var g1 := g0[x1 := g0[x1][y1 := 2]];
    var zy := if x1 == 0 && y1 == 0 then 1 else 0;
    SetCell(g0, n, x1, y1, 2);
    assert g1[0][zy] == 0;
    var x2, y2 := SpawnCell(g1, pick2, 0, zy);
    TwoSets(g0, n, x1, y1, x2, y2);
  }

  /** Writing 2 into two distinct cells of an empty board. */
  lemma TwoSets(g0: Grid, n: nat, x1: nat, y1: nat, x2: nat, y2: nat)
    requires IsSquare(g0, n) && forall i, j :: 0 <= i < n && 0 <= j < n ==> g0[i][j] == 0
    requires x1 < n && y1 < n && x2 < n && y2 < n
    requires g0[x1 := g0[x1][y1 := 2]][x2][y2] == 0
    ensures var g1 := g0[x1 := g0[x1][y1 := 2]];
      TwoTwos(g1[x2 := g1[x2][y2 := 2]], n, x1, y1, x2, y2)
  {
    var g1 := g0[x1 := g0[x1][y1 := 2]];
    SetCell(g0, n, x1, y1, 2);
    SetCell(g1, n, x2, y2, 2);
    var b := g1[x2 := g1[x2][y2 := 2]];
    assert (x1, y1) != (x2, y2);
    forall i, j | 0 <= i < n && 0 <= j < n
      ensures b[i][j] == if (i == x1 && j == y1) || (i == x2 && j == y2) then 2 else 0
    {
      assert b[i][j] == if i == x2 && j == y2 then 2 else g1[i][j];
      assert g1[i][j] == if i == x1 && j == y1 then 2 else 0;
    }
  }
}
