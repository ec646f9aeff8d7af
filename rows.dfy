// One row of the 2048 board: the left move on a single row (compaction,
// one merge pass, compaction again), the tile values, row sums and reversal.

module Rows {

  type Row = seq<int>

  /** A row of k empty cells. */
  function Zeros(k: nat): (z: Row)
    ensures |z| == k
    ensures forall i :: 0 <= i < k ==> z[i] == 0
  {
    seq(k, _ => 0)
  }

  /** The non-empty cells of s, in their original order. */
  function NonZeros(s: Row): (r: Row)
    ensures |r| <= |s|
    ensures 0 !in r
    ensures forall x :: x in r ==> x in s
  {
    if s == [] then []
    else if s[0] == 0 then NonZeros(s[1..])
    else [s[0]] + NonZeros(s[1..])
  }

  /** Compaction of one row: the non-empty cells slid to the left, in order,
      followed by as many empty cells as were removed. */
  function Compact(s: Row): (r: Row)
    ensures |r| == |s|
  {
    NonZeros(s) + Zeros(|s| - |NonZeros(s)|)
  }

  /** Every empty cell is followed only by empty cells. */
  predicate Packed(s: Row)
  {
    forall i, j :: 0 <= i < j < |s| && s[i] == 0 ==> s[j] == 0
  }

  /** One left-to-right merge pass: an equal non-empty pair becomes the double
      followed by an empty cell, and the scan resumes after that empty cell. */
  function Merge(s: Row): (r: Row)
    ensures |r| == |s|
  {
    if |s| < 2 then s
    else if s[0] == s[1] && s[0] != 0 then [2 * s[0], 0] + Merge(s[2..])
    else [s[0]] + Merge(s[1..])
  }

  /** The score earned by the merge pass: the sum of the doubled values it
      writes, hence always even. */
  function MergeGain(s: Row): (g: int)
    ensures g % 2 == 0
  {
    if |s| < 2 then 0
    else if s[0] == s[1] && s[0] != 0 then 2 * s[0] + MergeGain(s[2..])
    else MergeGain(s[1..])
  }

  function Sum(s: Row): int
  {
    if s == [] then 0 else s[0] + Sum(s[1..])
  }

  /** A sequence read back to front (`[::-1]`): a row read right to left, or
      the rows of a board in the opposite order. */
  function Reverse<T>(s: seq<T>): (r: seq<T>)
    ensures |r| == |s|
    ensures forall i :: 0 <= i < |s| ==> r[i] == s[|s| - 1 - i]
  {
    seq(|s|, i requires 0 <= i < |s| => s[|s| - 1 - i])
  }

  /** v is 2^k for some k >= 1. */
  predicate IsPowerOfTwo(v: int)
    decreases if v < 0 then 0 else v
  {
    v == 2 || (v > 2 && v % 2 == 0 && IsPowerOfTwo(v / 2))
  }

  /** A cell value: empty (0) or a power of two at least 2. */
  predicate IsTile(v: int)
  {
    v == 0 || IsPowerOfTwo(v)
  }

  predicate RowTiles(s: Row)
  {
    forall i :: 0 <= i < |s| ==> IsTile(s[i])
  }

  /** A row in which nothing can slide or merge: no empty cell, no equal neighbours. */
  predicate Stuck(s: Row)
  {
    (forall i :: 0 <= i < |s| ==> s[i] != 0) &&
    (forall i :: 0 <= i < |s| - 1 ==> s[i] != s[i + 1])
  }

  // ---------------------------------------------------------------------
  // Compaction

  lemma {:induction false} NonZerosAppend(a: Row, b: Row)
    ensures NonZeros(a + b) == NonZeros(a) + NonZeros(b)
  {
    if a == [] {
      assert a + b == b;
    } else {
      assert (a + b)[1..] == a[1..] + b;
      NonZerosAppend(a[1..], b);
    }
  }

  lemma {:induction false} NonZerosOfZeros(k: nat)
    ensures NonZeros(Zeros(k)) == []
  {
    if k > 0 {
      assert Zeros(k)[1..] == Zeros(k - 1);
      NonZerosOfZeros(k - 1);
    }
  }

  lemma {:induction false} NonZerosOfFull(s: Row)
    requires 0 !in s
    ensures NonZeros(s) == s
  {
    if s != [] {
      assert 0 !in s[1..];
      NonZerosOfFull(s[1..]);
    }
  }

  /** Removing one empty cell does not change the non-empty cells. */
  lemma NonZerosRemoveZero(s: Row, k: nat)
    requires k < |s| && s[k] == 0
    ensures NonZeros(s[..k] + s[k + 1..]) == NonZeros(s)
  {
    assert s == s[..k] + ([s[k]] + s[k + 1..]);
    NonZerosAppend(s[..k], [s[k]] + s[k + 1..]);
    NonZerosAppend(s[..k], s[k + 1..]);
  }

  /** Compaction keeps the row length, leaves the row packed to the left,
      keeps the non-empty cells in their order, and is idempotent. */
  lemma CompactShape(s: Row)
    ensures |Compact(s)| == |s|
    ensures Packed(Compact(s))
    ensures NonZeros(Compact(s)) == NonZeros(s)
    ensures Compact(Compact(s)) == Compact(s)
  {
    var nz := NonZeros(s);
    NonZerosAppend(nz, Zeros(|s| - |nz|));
    NonZerosOfZeros(|s| - |nz|);
    NonZerosOfFull(nz);
  }

  // ---------------------------------------------------------------------
  // Merging

  lemma MergeShort(s: Row)
    requires |s| < 2
    ensures Merge(s) == s && MergeGain(s) == 0
  {
  }

  /** A row starting with an empty cell merges as its tail does. */
  lemma MergeAfterZero(t: Row)
    ensures Merge([0] + t) == [0] + Merge(t)
    ensures MergeGain([0] + t) == MergeGain(t)
  {
    assert ([0] + t)[1..] == t;
  }

  /** Each cell of the merged row is its own value, or the double of its value
      having absorbed its equal right neighbour (now empty), or empty having been
      absorbed by its equal left neighbour: no tile takes part in two merges. */
  lemma {:induction false} MergeCell(s: Row, i: nat)
    requires i < |s|
    ensures var r := Merge(s);
      r[i] == s[i] ||
      (i + 1 < |s| && s[i] == s[i + 1] && s[i] != 0 && r[i] == 2 * s[i] && r[i + 1] == 0) ||
      (0 < i && s[i - 1] == s[i] && s[i] != 0 && r[i - 1] == 2 * s[i - 1] && r[i] == 0)
  {
    if |s| < 2 {
    } else if s[0] == s[1] && s[0] != 0 {
      if i >= 2 {
        MergeCell(s[2..], i - 2);
      }
    } else if i >= 1 {
      MergeCell(s[1..], i - 1);
    }
  }

  /** Score accounting: a merge replaces v, v by 2v, 0, so the row total is unchanged. */
  lemma {:induction false} MergeSum(s: Row)
    ensures Sum(Merge(s)) == Sum(s)
  {
    if |s| < 2 {
    } else if s[0] == s[1] && s[0] != 0 {
      MergeSum(s[2..]);
      assert s[1..][1..] == s[2..];
      SumAppend([2 * s[0], 0], Merge(s[2..]));
    } else {
      MergeSum(s[1..]);
      SumAppend([s[0]], Merge(s[1..]));
    }
  }

  /** On a row of tiles the merge pass yields tiles and a non-negative gain, and
      the gain is zero exactly when the pass changes nothing. */
  lemma {:induction false} MergeTiles(s: Row)
    requires RowTiles(s)
    ensures RowTiles(Merge(s))
    ensures MergeGain(s) >= 0
    ensures MergeGain(s) == 0 <==> Merge(s) == s
  {
    if |s| < 2 {
    } else if s[0] == s[1] && s[0] != 0 {
      assert RowTiles(s[2..]) by {
        forall i | 0 <= i < |s[2..]| ensures IsTile(s[2..][i]) { assert s[2..][i] == s[i + 2]; }
      }
      MergeTiles(s[2..]);
      DoubleIsPowerOfTwo(s[0]);
      var r := Merge(s);
      assert r == [2 * s[0], 0] + Merge(s[2..]);
      assert r[0] == 2 * s[0] && r[1] == 0;
      forall i | 0 <= i < |r| ensures IsTile(r[i]) {
        if i >= 2 { assert r[i] == Merge(s[2..])[i - 2]; }
      }
      assert r[0] != s[0];
    } else {
      assert RowTiles(s[1..]) by {
        forall i | 0 <= i < |s[1..]| ensures IsTile(s[1..][i]) { assert s[1..][i] == s[i + 1]; }
      }
      MergeTiles(s[1..]);
      var r := Merge(s);
      assert r == [s[0]] + Merge(s[1..]);
      forall i | 0 <= i < |r| ensures IsTile(r[i]) {
        if i >= 1 { assert r[i] == Merge(s[1..])[i - 1]; }
      }
      assert r == s <==> Merge(s[1..]) == s[1..] by {
        if Merge(s[1..]) == s[1..] { assert r == [s[0]] + s[1..]; }
        if r == s { assert r[1..] == Merge(s[1..]); }
      }
    }
  }

  lemma DoubleIsPowerOfTwo(v: int)
    requires IsPowerOfTwo(v)
    ensures IsPowerOfTwo(2 * v) && v >= 2
  {
    assert (2 * v) / 2 == v;
  }

  /** A stuck row is left as it is by compaction and by the merge pass, and earns nothing. */
  lemma {:induction false} StuckRowUnchanged(s: Row)
    requires Stuck(s)
    ensures Compact(s) == s
    ensures Merge(s) == s && MergeGain(s) == 0
  {
    assert 0 !in s;
    NonZerosOfFull(s);
    assert Zeros(0) == [];
    if |s| >= 2 {
      assert Stuck(s[1..]);
      StuckRowUnchanged(s[1..]);
      assert Merge(s) == [s[0]] + s[1..];
    }
  }

  // ---------------------------------------------------------------------
  // Sums, tiles and reversal

  lemma {:induction false} SumAppend(a: Row, b: Row)
    ensures Sum(a + b) == Sum(a) + Sum(b)
  {
    if a == [] {
      assert a + b == b;
    } else {
      assert (a + b)[1..] == a[1..] + b;
      SumAppend(a[1..], b);
    }
  }

  lemma {:induction false} NonZerosSum(s: Row)
    ensures Sum(NonZeros(s)) == Sum(s)
  {
    if s != [] {
      NonZerosSum(s[1..]);
      if s[0] != 0 {
        SumAppend([s[0]], NonZeros(s[1..]));
      }
    }
  }

  lemma {:induction false} ZerosSum(k: nat)
    ensures Sum(Zeros(k)) == 0
  {
    if k > 0 {
      assert Zeros(k)[1..] == Zeros(k - 1);
      ZerosSum(k - 1);
    }
  }

  /** Compaction keeps the row total. */
  lemma CompactSum(s: Row)
    ensures Sum(Compact(s)) == Sum(s)
  {
    SumAppend(NonZeros(s), Zeros(|s| - |NonZeros(s)|));
    NonZerosSum(s);
    ZerosSum(|s| - |NonZeros(s)|);
  }

  /** Compaction only moves tiles and adds empty cells. */
  lemma CompactTiles(s: Row)
    requires RowTiles(s)
    ensures RowTiles(Compact(s))
  {
    var nz := NonZeros(s);
    forall i | 0 <= i < |Compact(s)| ensures IsTile(Compact(s)[i]) {
      if i < |nz| {
        assert nz[i] in nz;
        assert nz[i] in s;
      }
    }
  }

  lemma ReverseInvolution<T>(s: seq<T>)
    ensures Reverse(Reverse(s)) == s
  {
  }

  lemma {:induction false} ReverseRowSum(s: Row)
    ensures Sum(Reverse(s)) == Sum(s)
  {
    if s != [] {
      assert Reverse(s) == Reverse(s[1..]) + [s[0]];
      ReverseRowSum(s[1..]);
      SumAppend(Reverse(s[1..]), [s[0]]);
    }
  }

  lemma ReverseRowStuck(s: Row)
    requires Stuck(s)
    ensures Stuck(Reverse(s))
  {
    var r := Reverse(s);
    forall i | 0 <= i < |r| - 1 ensures r[i] != r[i + 1] {
      assert r[i] == s[|s| - 1 - i] && r[i + 1] == s[|s| - 1 - i - 1];
    }
  }
}
