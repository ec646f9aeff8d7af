// Concrete boards: the worked examples of the left, right and terminal cases,
// and a move followed by an undo on a 2 x 2 engine.

module Scenarios {

  import opened Rows
  import opened Grids
  import opened Logic

  /** A one-row board moves left as its row does. */
  lemma OneRowLeft(r: Row)
    ensures MoveLeftGrid([r]) == [Compact(Merge(Compact(r)))]
    ensures MoveLeftGain([r]) == MergeGain(Compact(r))
  {
    var c := CompactGrid([r]);
    assert c == [Compact(r)];
    var m := MergeGrid(c);
    assert m == [Merge(Compact(r))];
    assert CompactGrid(m) == [Compact(Merge(Compact(r)))];
    assert MoveLeftGrid([r]) == CompactGrid(m);
    assert c[..0] == [];
    assert GridGain(c) == GridGain(c[..0]) + MergeGain(c[0]);
  }

  lemma Row2200()
    ensures Compact([2, 2, 0, 0]) == [2, 2, 0, 0]
    ensures Merge([2, 2, 0, 0]) == [4, 0, 0, 0] && MergeGain([2, 2, 0, 0]) == 4
    ensures Compact([4, 0, 0, 0]) == [4, 0, 0, 0]
  {
    assert [2, 2, 0, 0][1..] == [2, 0, 0] && [2, 0, 0][1..] == [0, 0] && [0, 0][1..] == [0] && [0][1..] == [];
    assert NonZeros([2, 2, 0, 0]) == [2, 2];
    assert Zeros(2) == [0, 0];
    assert [2, 2, 0, 0][2..] == [0, 0];
    assert [4, 0, 0, 0][1..] == [0, 0, 0] && [0, 0, 0][1..] == [0, 0];
    assert NonZeros([4, 0, 0, 0]) == [4];
    assert Zeros(3) == [0, 0, 0];
  }

  lemma Row2022()
    ensures Compact([2, 0, 2, 2]) == [2, 2, 2, 0]
    ensures Merge([2, 2, 2, 0]) == [4, 0, 2, 0] && MergeGain([2, 2, 2, 0]) == 4
    ensures Compact([4, 0, 2, 0]) == [4, 2, 0, 0]
  {
    assert [2, 0, 2, 2][1..] == [0, 2, 2] && [0, 2, 2][1..] == [2, 2] && [2, 2][1..] == [2] && [2][1..] == [];
    assert NonZeros([2, 0, 2, 2]) == [2, 2, 2];
    assert Zeros(1) == [0];
    assert [2, 2, 2, 0][2..] == [2, 0] && [2, 0][1..] == [0] && [0][1..] == [];
    assert [4, 0, 2, 0][1..] == [0, 2, 0] && [0, 2, 0][1..] == [2, 0];
    assert NonZeros([4, 0, 2, 0]) == [4, 2];
    assert Zeros(2) == [0, 0];
  }

  lemma Row2222()
    ensures Compact([2, 2, 2, 2]) == [2, 2, 2, 2]
    ensures Merge([2, 2, 2, 2]) == [4, 0, 4, 0] && MergeGain([2, 2, 2, 2]) == 8
    ensures Compact([4, 0, 4, 0]) == [4, 4, 0, 0]
  {
    assert [2, 2, 2, 2][1..] == [2, 2, 2] && [2, 2, 2][1..] == [2, 2] && [2, 2][1..] == [2] && [2][1..] == [];
    assert NonZeros([2, 2, 2, 2]) == [2, 2, 2, 2];
    assert Zeros(0) == [];
    assert [2, 2, 2, 2][2..] == [2, 2] && [2, 2][2..] == [];
    assert [4, 0, 4, 0][1..] == [0, 4, 0] && [0, 4, 0][1..] == [4, 0] && [4, 0][1..] == [0] && [0][1..] == [];
    assert NonZeros([4, 0, 4, 0]) == [4, 4];
    assert Zeros(2) == [0, 0];
  }

  /** [2,2,0,0] becomes [4,0,0,0]; [2,0,2,2] becomes [4,2,0,0] (the new 4 does
      not merge again); [2,2,2,2] becomes [4,4,0,0]; each merge earns its double. */
  lemma LeftExamples()
    ensures MoveLeftGrid([[2, 2, 0, 0]]) == [[4, 0, 0, 0]] && MoveLeftGain([[2, 2, 0, 0]]) == 4
    ensures MoveLeftGrid([[2, 0, 2, 2]]) == [[4, 2, 0, 0]] && MoveLeftGain([[2, 0, 2, 2]]) == 4
    ensures MoveLeftGrid([[2, 2, 2, 2]]) == [[4, 4, 0, 0]] && MoveLeftGain([[2, 2, 2, 2]]) == 8
  {
    OneRowLeft([2, 2, 0, 0]);
    OneRowLeft([2, 0, 2, 2]);
    OneRowLeft([2, 2, 2, 2]);
    Row2200();
    Row2022();
    Row2222();
  }

  /** [0,0,2,2] moved right becomes [0,0,0,4]. */
  lemma RightExample()
    ensures MoveRightGrid([[0, 0, 2, 2]]) == [[0, 0, 0, 4]]
    ensures MoveRightGain([[0, 0, 2, 2]]) == 4
  {
    var r := Reverse([0, 0, 2, 2]);
    assert r[0] == 2 && r[1] == 2 && r[2] == 0 && r[3] == 0;
    assert r == [2, 2, 0, 0];
    assert ReverseRows([[0, 0, 2, 2]]) == [[2, 2, 0, 0]];
    OneRowLeft([2, 2, 0, 0]);
    Row2200();
    var r' := Reverse([4, 0, 0, 0]);
    assert r'[0] == 0 && r'[1] == 0 && r'[2] == 0 && r'[3] == 4;
    assert r' == [0, 0, 0, 4];
    assert ReverseRows([[4, 0, 0, 0]]) == [[0, 0, 0, 4]];
  }

  /** A full 2 x 2 checkerboard of 2 and 4 is terminal; a board with an equal
      pair in a row is not. */
  lemma TerminalExamples()
    ensures IsSquare([[2, 4], [4, 2]], 2) && Terminal([[2, 4], [4, 2]], 2)
    ensures IsSquare([[2, 2], [4, 8]], 2) && !Terminal([[2, 2], [4, 8]], 2)
    ensures IsSquare([[2, 4], [2, 8]], 2) && !Terminal([[2, 4], [2, 8]], 2)
  {
    var g: Grid := [[2, 4], [4, 2]];
    assert |g[0]| == 2 && |g[1]| == 2;
    forall i, j | 0 <= i < 2 && 0 <= j < 2 ensures g[i][j] != 0 {
      assert i == 0 || i == 1;
    }
    forall i, j | 0 <= i < 2 && 0 <= j < 1 ensures g[i][j] != g[i][j + 1] {
      assert i == 0 || i == 1;
    }
    forall i | 0 <= i < 1 ensures Unequal(g[i], g[i + 1]) {
      assert i == 0;
      forall j | 0 <= j < 2 ensures g[0][j] != g[1][j] {
        assert j == 0 || j == 1;
      }
    }
    var h: Grid := [[2, 2], [4, 8]];
    assert |h[0]| == 2 && |h[1]| == 2;
    assert h[0][0] == h[0][1];
    var k: Grid := [[2, 4], [2, 8]];
    assert |k[0]| == 2 && |k[1]| == 2;
    assert k[0][0] == k[1][0];
    assert !Unequal(k[0], k[1]);
  }

  /** On the 2 x 2 board [[2,2],[0,0]] with score 0, a left move gives
      [[4,0],[0,0]] and score 4, and undo restores [[2,2],[0,0]] and score 0. */
  method MoveLeftThenUndo(e: Matrix2048)
    requires e.Valid() && e.column == 2 && e.matrix == [[2, 2], [0, 0]] && e.score == 0
    modifies e`matrix, e`score, e`history
    ensures e.matrix == [[2, 2], [0, 0]] && e.score == 0
  {
    assert MoveLeftGrid([[2, 2], [0, 0]]) == [[4, 0], [0, 0]] && MoveLeftGain([[2, 2], [0, 0]]) == 4 by {
      TwoByTwoLeft();
    }
    e.MatrixMove("L");
    assert e.matrix == [[4, 0], [0, 0]] && e.score == 4;
    RecordBounded(old(e.history), Snapshot(0, [[2, 2], [0, 0]]));
    e.PrevStep();
  }

  lemma TwoByTwoLeft()
    ensures MoveLeftGrid([[2, 2], [0, 0]]) == [[4, 0], [0, 0]]
    ensures MoveLeftGain([[2, 2], [0, 0]]) == 4
  {
    var g: Grid := [[2, 2], [0, 0]];
    assert [2, 2][1..] == [2] && [2][1..] == [] && [0, 0][1..] == [0] && [0][1..] == [];
    assert Compact([2, 2]) == [2, 2] by {
      assert NonZeros([2, 2]) == [2, 2];
      assert Zeros(0) == [];
    }
    assert Compact([0, 0]) == [0, 0] by {
      assert NonZeros([0, 0]) == [];
      assert Zeros(2) == [0, 0];
    }
    assert Compact([4, 0]) == [4, 0] by {
      assert [4, 0][1..] == [0];
      assert NonZeros([4, 0]) == [4];
      assert Zeros(1) == [0];
    }
    assert [2, 2][2..] == [];
    assert Merge([2, 2]) == [4, 0] && MergeGain([2, 2]) == 4;
    assert Merge([0, 0]) == [0, 0] && MergeGain([0, 0]) == 0;
    var c := CompactGrid(g);
    assert c == g;
    var m := MergeGrid(c);
    assert m == [[4, 0], [0, 0]];
    assert CompactGrid(m) == m;
    assert c[..1] == [[2, 2]] && c[..1][..0] == [];
    assert GridGain(c[..1]) == 4;
  }
}
