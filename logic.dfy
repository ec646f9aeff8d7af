// The game engine `Matrix2048`: an N x N board, a score and a bounded undo
// history, with the operations that update them in place.

module Logic {

  import opened Rows
  import opened Grids

  datatype Option<T> = None | Some(value: T)

  /** The most snapshots the undo history keeps. */
  const HistoryLimit: nat := 10

  /** The score and a copy of the board, taken just before a move. */
  datatype Snapshot = Snapshot(score: int, matrix: Grid)

  predicate SnapshotOk(s: Snapshot, n: nat)
  {
    IsSquare(s.matrix, n) && AllTiles(s.matrix) && s.score >= 0
  }

  /** Push a snapshot, then keep only the latest HistoryLimit entries. */
  function Record(history: seq<Snapshot>, s: Snapshot): (r: seq<Snapshot>)
    ensures |r| == if |history| < HistoryLimit then |history| + 1 else HistoryLimit
    ensures r[|r| - 1] == s
  {
    var h := history + [s];
    if |h| > HistoryLimit then h[|h| - HistoryLimit..] else h
  }

  /** The history never exceeds its bound, its newest entry is the pushed
      snapshot, and below it lie the previous entries, the oldest one dropped
      when the history was already full. */
  lemma RecordBounded(history: seq<Snapshot>, s: Snapshot)
    requires |history| <= HistoryLimit
    ensures var h := Record(history, s);
      0 < |h| <= HistoryLimit && h[|h| - 1] == s &&
      h[..|h| - 1] == if |history| < HistoryLimit then history else history[1..]
  {
  }

  lemma RecordKeepsSnapshotsOk(history: seq<Snapshot>, s: Snapshot, n: nat)
    requires |history| <= HistoryLimit
    requires forall k :: 0 <= k < |history| ==> SnapshotOk(history[k], n)
    requires SnapshotOk(s, n)
    ensures |Record(history, s)| <= HistoryLimit
    ensures forall k :: 0 <= k < |Record(history, s)| ==> SnapshotOk(Record(history, s)[k], n)
  {
    var h := history + [s];
    if |h| > HistoryLimit {
      forall k | 0 <= k < HistoryLimit ensures SnapshotOk(Record(history, s)[k], n) {
        assert Record(history, s)[k] == h[k + 1];
      }
    }
  }

  /** The directions `matrix_move` accepts; any other string is not a move. */
  function ParseDirection(direction: string): (d: Option<Direction>)
    ensures d.Some? <==> direction in ["L", "R", "D", "U"]
  {
    if direction == "L" then Some(Left)
    else if direction == "R" then Some(Right)
    else if direction == "D" then Some(Down)
    else if direction == "U" then Some(Up)
    else None
  }

  /** The direction keys of the window's key handler: arrows and w, s, a, d. */
  function KeyDirection(keysym: string): (d: Option<Direction>)
    ensures d.Some? <==> keysym in ["Up", "w", "Down", "s", "Left", "a", "Right", "d"]
  {
    if keysym in ["Up", "w"] then Some(Up)
    else if keysym in ["Down", "s"] then Some(Down)
    else if keysym in ["Left", "a"] then Some(Left)
    else if keysym in ["Right", "d"] then Some(Right)
    else None
  }

  /** The letter `matrix_move` takes for a direction. */
  function Letter(d: Direction): (s: string)
    ensures ParseDirection(s) == Some(d)
  {
    match d
    case Left => "L"
    case Right => "R"
    case Down => "D"
    case Up => "U"
  }

  // ---------------------------------------------------------------------
  // The left move's passes, on values

  /** The index `list.remove(x)` removes: that of the first x. */
  function FirstIndex(s: Row, x: int): (k: nat)
    requires x in s
    ensures k < |s| && s[k] == x && x !in s[..k]
  {
    if s[0] == x then 0 else 1 + FirstIndex(s[1..], x)
  }

  /** One row of `move_left_`: remove the first 0 while there is one, then
      append 0 until the row is `column` cells long again. */
  method CompactRow(row: Row, column: nat) returns (r: Row)
    requires |row| == column
    ensures r == Compact(row)
  {
    r := row;
    while 0 in r
      invariant |r| <= |row|
      invariant NonZeros(r) == NonZeros(row)
      decreases |r|
    {
      var k := FirstIndex(r, 0);
      NonZerosRemoveZero(r, k);
      r := r[..k] + r[k + 1..];
    }
    NonZerosOfFull(r);
    assert r == NonZeros(row) + Zeros(0);
    while |r| != column
      invariant |NonZeros(row)| <= |r| <= column
      invariant r == NonZeros(row) + Zeros(|r| - |NonZeros(row)|)
      decreases column - |r|
    {
      assert Zeros(|r| - |NonZeros(row)|) + [0] == Zeros(|r| + 1 - |NonZeros(row)|);
      r := r + [0];
    }
  }

  /** `move_left_`: compact every row of the board. */
  method CompactRows(m: Grid, column: nat) returns (r: Grid)
    requires IsSquare(m, column)
    ensures r == CompactGrid(m)
  {
    r := m;
    for row := 0 to column
      invariant |r| == column
      invariant forall i :: 0 <= i < row ==> r[i] == Compact(m[i])
      invariant forall i :: row <= i < column ==> r[i] == m[i]
    {
      var compacted := CompactRow(r[row], column);
      r := r[row := compacted];
    }
  }

  /** The loop invariant of the scan over one row: the cells left of col are
      final, and merging the rest completes the merge pass of the original row;
      `gain` plus what the rest earns is what the whole pass earns. */
  ghost predicate Scanned(row: Row, r: Row, col: nat, gain: int)
  {
    |r| == |row| && col <= |r| &&
    r[..col] + Merge(r[col..]) == Merge(row) &&
    gain + MergeGain(r[col..]) == MergeGain(row)
  }

  /** The scan at position col of r merges the pair there: the double lands at
      col, col + 1 is emptied, the double is earned, and the scan moves on. */
  lemma MergePairStep(row: Row, r: Row, col: nat, gain: int)
    requires Scanned(row, r, col, gain)
    requires col + 1 < |r| && r[col] == r[col + 1] && r[col] != 0
    ensures Scanned(row, r[col := 2 * r[col]][col + 1 := 0], col + 1, gain + 2 * r[col])
  {
    var r' := r[col := 2 * r[col]][col + 1 := 0];
    var v, rest := r[col], r[col + 2..];
    PairWritten(r, col, r');
    MergeAfterZero(rest);
    MergeAtPair(r[col..]);
    assert r[col..][2..] == rest;
    var done, tail := r'[..col + 1], r'[col + 1..];
    assert Merge(tail) == [0] + Merge(rest);
    assert done + Merge(tail) == r[..col] + Merge(r[col..]) by {
      assert (r[..col] + [2 * v]) + ([0] + Merge(rest)) == r[..col] + ([2 * v, 0] + Merge(rest));
    }
    assert MergeGain(tail) == MergeGain(rest);
  }

  /** Writing the double at col and an empty cell at col + 1. */
  lemma PairWritten(r: Row, col: nat, r': Row)
    requires col + 1 < |r| && r' == r[col := 2 * r[col]][col + 1 := 0]
    ensures r'[..col + 1] == r[..col] + [2 * r[col]]
    ensures r'[col + 1..] == [0] + r[col + 2..]
  {
    var t, u := r'[col + 1..], [0] + r[col + 2..];
    forall k | 0 <= k < |t| ensures t[k] == u[k] {
      if k > 0 { assert t[k] == r[col + 1 + k] == u[k]; }
    }
  }

  lemma MergeAtPair(t: Row)
    requires |t| >= 2 && t[0] == t[1] && t[0] != 0
    ensures Merge(t) == [2 * t[0], 0] + Merge(t[2..])
    ensures MergeGain(t) == 2 * t[0] + MergeGain(t[2..])
  {
  }

  /** The scan at position col of r finds no pair to merge and moves on. */
  lemma MergeSkipStep(row: Row, r: Row, col: nat, gain: int)
    requires Scanned(row, r, col, gain)
    requires col + 1 < |r| && !(r[col] == r[col + 1] && r[col] != 0)
    ensures Scanned(row, r, col + 1, gain)
  {
    assert r[col..][1..] == r[col + 1..];
    assert r[..col + 1] == r[..col] + [r[col]];
  }

  /** One row of `merge_left`: scan the neighbour pairs left to right, turning
      an equal non-empty pair into its double and an empty cell; `gain` sums the
      doubles written. */
  method MergeRowLeft(row: Row) returns (r: Row, gain: int)
    ensures r == Merge(row)
    ensures gain == MergeGain(row)
  {
    r, gain := row, 0;
    var col := 0;
    assert r[..0] + Merge(r[0..]) == Merge(row) by { assert r[0..] == row; }
    while col + 1 < |r|
      invariant Scanned(row, r, col, gain)
    {
      if r[col] == r[col + 1] && r[col] != 0 {
        MergePairStep(row, r, col, gain);
        gain := gain + 2 * r[col];
        r := r[col := 2 * r[col]][col + 1 := 0];
      } else {
        MergeSkipStep(row, r, col, gain);
      }
      col := col + 1;
    }
    MergeShort(r[col..]);
    assert r[..col] + r[col..] == r;
  }

  // ---------------------------------------------------------------------
  // The engine

  class Matrix2048 {
    var column: nat
    var matrix: Grid
    var history: seq<Snapshot>
    var score: int

    /** The board is column x column and holds tiles, the score is never
        negative, and the history holds at most HistoryLimit such snapshots. */
    ghost predicate Valid()
      reads this
    {
      IsSquare(matrix, column) && AllTiles(matrix) && score >= 0 &&
      |history| <= HistoryLimit &&
      forall k :: 0 <= k < |history| ==> SnapshotOk(history[k], column)
    }

    /** A new game on a column x column board; `pick1` and `pick2` choose the
        cells of the two starting tiles. */
    constructor (column: nat, pick1: nat, pick2: nat)
      ensures Valid() && this.column == column
      ensures matrix == Spawn(Spawn(ZeroGrid(column), pick1), pick2)
      ensures score == 0 && history == []
    {
      this.column := column;
      matrix := ZeroGrid(column);
      history := [];
      score := 0;
      new;
      Init(pick1, pick2);
    }

    /** Put a 2 on the empty cell chosen by `pick`; a full board is left as it is. */
    method GenerateNumber(pick: nat)
      requires IsSquare(matrix, column) && AllTiles(matrix)
      modifies this`matrix
      ensures matrix == Spawn(old(matrix), pick)
      ensures IsSquare(matrix, column) && AllTiles(matrix)
    {
      ghost var before := matrix;
      var zero := EmptyCells(matrix);
      if zero != [] {
        var p := zero[pick % |zero|];
        assert p in zero;
        matrix := matrix[p.0 := matrix[p.0][p.1 := 2]];
      }
      SpawnTiles(before, column, pick);
    }

    /** True exactly when the board is terminal: no empty cell and no equal
        neighbours in a row or in a column. */
    method GameOver() returns (over: bool)
      requires Valid()
      ensures over == Terminal(matrix, column)
    {
      var row := 0;
      while row < column
        invariant row <= column
        invariant forall i, j :: 0 <= i < row && 0 <= j < column ==> matrix[i][j] != 0
      {
        if 0 in matrix[row] {
          return false;
        }
        row := row + 1;
      }
      row := 0;
      while row < column
        invariant row <= column
        invariant forall i, j :: 0 <= i < row && 0 <= j < column - 1 ==> matrix[i][j] != matrix[i][j + 1]
      {
        var col := 0;
        while col + 1 < column
          invariant col == 0 || col < column
          invariant forall j :: 0 <= j < col ==> matrix[row][j] != matrix[row][j + 1]
        {
          if matrix[row][col] == matrix[row][col + 1] {
            return false;
          }
          col := col + 1;
        }
        row := row + 1;
      }
      row := 0;
      while row + 1 < column
        invariant row == 0 || row < column
        invariant forall i :: 0 <= i < row ==> Unequal(matrix[i], matrix[i + 1])
      {
        var col := 0;
        while col < column
          invariant col <= column
          invariant forall j :: 0 <= j < col ==> matrix[row][j] != matrix[row + 1][j]
        {
          if matrix[row][col] == matrix[row + 1][col] {
            assert !Unequal(matrix[row], matrix[row + 1]);
            return false;
          }
          col := col + 1;
        }
        row := row + 1;
      }
      return true;
    }

    /** Start over: an empty board with two new tiles, score 0, no history. */
    method Init(pick1: nat, pick2: nat)
      modifies this
      ensures Valid() && column == old(column)
      ensures matrix == Spawn(Spawn(ZeroGrid(column), pick1), pick2)
      ensures score == 0 && history == []
    {
      matrix := ZeroGrid(column);
      GenerateNumber(pick1);
      GenerateNumber(pick2);
      history := [];
      score := 0;
    }

    /** Record a snapshot and move in the given direction; any string other
        than "L", "R", "D" or "U" changes nothing. */
    method MatrixMove(direction: string)
      requires Valid()
      modifies this`matrix, this`score, this`history
      ensures Valid()
      ensures ParseDirection(direction).None? ==>
        matrix == old(matrix) && score == old(score) && history == old(history)
      ensures ParseDirection(direction).Some? ==>
        var d := ParseDirection(direction).value;
        history == Record(old(history), Snapshot(old(score), old(matrix))) &&
        matrix == Slide(d, old(matrix), column) &&
        score == old(score) + SlideGain(d, old(matrix), column)
    {
      if direction in ["L", "R", "D", "U"] {
        ghost var before := Snapshot(score, matrix);
        history := history + [Snapshot(score, matrix)];
        if |history| > HistoryLimit {
          history := history[|history| - HistoryLimit..];
        }
        assert history == Record(old(history), before);
        RecordKeepsSnapshotsOk(old(history), before, column);
        Dispatch(direction);
        SlideTiles(ParseDirection(direction).value, before.matrix, column);
      }
    }

    /** The four-way branch of `matrix_move` on an accepted direction letter. */
    method Dispatch(direction: string)
      requires IsSquare(matrix, column) && ParseDirection(direction).Some?
      modifies this`matrix, this`score
      ensures var d := ParseDirection(direction).value;
        matrix == Slide(d, old(matrix), column) &&
        score == old(score) + SlideGain(d, old(matrix), column)
    {
      if direction == "U" {
        assert ParseDirection(direction).value == Up;
        MoveUp();
      } else if direction == "D" {
        assert ParseDirection(direction).value == Down;
        MoveDown();
      } else if direction == "L" {
        assert ParseDirection(direction).value == Left;
        MoveLeft();
      } else {
        assert ParseDirection(direction).value == Right;
        MoveRight();
      }
    }

    /** `move_left`: compact, merge (earning score), compact. */
    method MoveLeft()
      requires IsSquare(matrix, column)
      modifies this`matrix, this`score
      ensures matrix == MoveLeftGrid(old(matrix))
      ensures score == old(score) + MoveLeftGain(old(matrix))
    {
      var m := CompactRows(matrix, column);
      m := MergeLeft(m);
      matrix := CompactRows(m, column);
    }

    /** `merge_left`: the merge pass on every row, adding what it earns to the score. */
    method MergeLeft(m: Grid) returns (r: Grid)
      requires IsSquare(m, column)
      modifies this`score
      ensures r == MergeGrid(m)
      ensures score == old(score) + GridGain(m)
    {
      r := m;
      for row := 0 to column
        invariant |r| == column
        invariant forall i :: 0 <= i < row ==> r[i] == Merge(m[i])
        invariant forall i :: row <= i < column ==> r[i] == m[i]
        invariant score == old(score) + GridGain(m[..row])
      {
        var merged, gain := MergeRowLeft(r[row]);
        r := r[row := merged];
        assert m[..row + 1][..row] == m[..row];
        score := score + gain;
      }
      assert m[..column] == m;
    }

    /** `move_right`: reverse every row, move left, reverse every row back. */
    method MoveRight()
      requires IsSquare(matrix, column)
      modifies this`matrix, this`score
      ensures matrix == MoveRightGrid(old(matrix))
      ensures score == old(score) + MoveRightGain(old(matrix))
    {
      TransformsAreInvolutions(matrix, column);
      matrix := ReverseRows(matrix);
      MoveLeft();
      matrix := ReverseRows(matrix);
    }

    /** `move_up`: transpose, move left, transpose back. */
    method MoveUp()
      requires IsSquare(matrix, column)
      modifies this`matrix, this`score
      ensures matrix == MoveUpGrid(old(matrix), column)
      ensures score == old(score) + MoveUpGain(old(matrix), column)
    {
      matrix := Transpose(matrix, column);
      MoveLeft();
      matrix := Transpose(matrix, column);
    }

    /** `move_down`: reverse the row order, move up, reverse the row order back. */
    method MoveDown()
      requires IsSquare(matrix, column)
      modifies this`matrix, this`score
      ensures matrix == MoveDownGrid(old(matrix), column)
      ensures score == old(score) + MoveDownGain(old(matrix), column)
    {
      TransformsAreInvolutions(matrix, column);
      matrix := Reverse(matrix);
      MoveUp();
      matrix := Reverse(matrix);
    }

    /** Undo: restore the score and board of the newest snapshot and drop it;
        with no history nothing changes. */
    method PrevStep()
      requires Valid()
      modifies this`matrix, this`score, this`history
      ensures Valid()
      ensures old(history) == [] ==> matrix == old(matrix) && score == old(score) && history == []
      ensures old(history) != [] ==>
        var last := old(history)[|old(history)| - 1];
        score == last.score && matrix == last.matrix && history == old(history)[..|old(history)| - 1]
    {
      if history != [] {
        var prevData := history[|history| - 1];
        assert SnapshotOk(prevData, column);
        score := prevData.score;
        matrix := prevData.matrix;
        history := history[0..|history| - 1];
      }
    }

    /** One key press as the window handles it: a direction key moves and then
        spawns a tile (`pick` chooses its cell) whether or not the board
        changed; "z" undoes when there is history; then the game-over test. */
    method Step(keysym: string, pick: nat) returns (over: bool)
      requires Valid()
      modifies this`matrix, this`score, this`history
      ensures Valid()
      ensures over == Terminal(matrix, column)
      ensures KeyDirection(keysym).Some? ==>
        var d := KeyDirection(keysym).value;
        history == Record(old(history), Snapshot(old(score), old(matrix))) &&
        matrix == Spawn(Slide(d, old(matrix), column), pick) &&
        score == old(score) + SlideGain(d, old(matrix), column)
      ensures keysym == "z" && old(history) != [] ==>
        var last := old(history)[|old(history)| - 1];
        score == last.score && matrix == last.matrix && history == old(history)[..|old(history)| - 1]
      ensures KeyDirection(keysym).None? && (keysym != "z" || old(history) == []) ==>
        matrix == old(matrix) && score == old(score) && history == old(history)
    {
      var key := KeyDirection(keysym);
      if key.Some? {
        MatrixMove(Letter(key.value));
        GenerateNumber(pick);
      }
      if keysym == "z" {
        if history != [] {
          PrevStep();
        }
      }
      over := GameOver();
    }
  }

  /** Undo right after a move restores the board and the score, and leaves the
      history as it was, minus its oldest entry if it was full. */
  method MoveThenUndo(e: Matrix2048, direction: string)
    requires e.Valid() && ParseDirection(direction).Some?
    modifies e`matrix, e`score, e`history
    ensures e.Valid()
    ensures e.matrix == old(e.matrix) && e.score == old(e.score)
    ensures e.history == if |old(e.history)| < HistoryLimit then old(e.history) else old(e.history)[1..]
  {
    RecordBounded(e.history, Snapshot(e.score, e.matrix));
    e.MatrixMove(direction);
    e.PrevStep();
  }
}
