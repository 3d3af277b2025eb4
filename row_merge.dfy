/** The canonical left-merge of one row (moveTraversable): drop the empty
    cells, merge equal neighbours left to right so that a doubled cell cannot
    merge again, drop the zeros the merges left behind and pad with zeros to
    the board side. */
module RowMerge {
  import opened Matrices

  /** A row whose every cell holds a tile. */
  predicate ZeroFree(s: seq<int>) {
    forall i :: 0 <= i < |s| ==> s[i] != 0
  }

  /** Empty cells only after all the tiles. */
  predicate ZerosTrail(s: seq<int>) {
    forall i, j :: 0 <= i < j < |s| && s[i] == 0 ==> s[j] == 0
  }

  /** Two horizontally adjacent tiles with the same value. */
  predicate HasPair(s: seq<int>) {
    exists i :: 0 <= i < |s| - 1 && s[i] != 0 && s[i] == s[i + 1]
  }

  /** A row on which a move to the left changes nothing. */
  predicate Settled(s: seq<int>) {
    ZerosTrail(s) && !HasPair(s)
  }

  /** The number of tiles (non-zero cells) of a row. */
  function TileCount(s: seq<int>): nat {
    |s| - ZeroCount(s)
  }

  function Zeros(k: nat): (z: seq<int>)
    ensures |z| == k
  {
    seq(k, _ => 0)
  }

  /** The tiles of a row, in order, empty cells dropped. */
  function NonZeros(s: seq<int>): (r: seq<int>)
    ensures |r| == TileCount(s)
    ensures ZeroFree(r)
    ensures Sum(r) == Sum(s)
  {
    if s == [] then []
    else if s[0] != 0 then [s[0]] + NonZeros(s[1..])
    else NonZeros(s[1..])
  }

  /** The merge pass: scanning left to right, a cell equal to its right
      neighbour is doubled and the neighbour zeroed, so the doubled cell is not
      compared again. */
  function MergePairs(s: seq<int>): (r: seq<int>)
    ensures |r| == |s|
    ensures Sum(r) == Sum(s)
  {
    if |s| < 2 then s
    else if s[0] == s[1] then [2 * s[0], 0] + MergePairs(s[2..])
    else [s[0]] + MergePairs(s[1..])
  }

  /** The row after a move to the left (the result of moveTraversable). */
  function MergeLeft(row: seq<int>): (r: seq<int>)
    ensures |row| <= N ==> |r| == N
  {
    var packed := NonZeros(MergePairs(NonZeros(row)));
    packed + Zeros(if |packed| < N then N - |packed| else 0)
  }

  // ---------------------------------------------------------------------------
  // Helper facts

  lemma {:induction false} NonZerosConcat(a: seq<int>, b: seq<int>)
    ensures NonZeros(a + b) == NonZeros(a) + NonZeros(b)
  {
    if a == [] {
      assert a + b == b;
    } else {
      assert (a + b)[0] == a[0] && (a + b)[1..] == a[1..] + b;
      NonZerosConcat(a[1..], b);
    }
  }

  lemma {:induction false} NonZerosOfZeroFree(s: seq<int>)
    requires ZeroFree(s)
    ensures NonZeros(s) == s
  {
    if s != [] {
      NonZerosOfZeroFree(s[1..]);
    }
  }

  lemma {:induction false} AllZero(s: seq<int>)
    requires forall i :: 0 <= i < |s| ==> s[i] == 0
    ensures ZeroCount(s) == |s| && NonZeros(s) == [] && s == Zeros(|s|)
  {
    if s != [] {
      AllZero(s[1..]);
    }
  }

  lemma ZeroFreeCounts(s: seq<int>)
    requires ZeroFree(s)
    ensures ZeroCount(s) == 0
  {
    NonZerosOfZeroFree(s);
  }

  lemma SumZeros(k: nat)
    ensures Sum(Zeros(k)) == 0 && ZeroCount(Zeros(k)) == k
  {
    AllZero(Zeros(k));
    assert NonZeros(Zeros(k)) == [];
  }

  /** A zero at the head of the merge pass is left alone and does not disturb
      the rest: this is why the pass may look at the cell it just zeroed. */
  lemma {:induction false} MergePairsZeroHead(r: seq<int>)
    ensures MergePairs([0] + r) == [0] + MergePairs(r)
  {
    if r != [] && r[0] == 0 {
      assert ([0] + r)[2..] == r[1..];
      MergePairsZeroHead(r[1..]);
      assert [0] + r[1..] == r;
    } else if r != [] {
      assert ([0] + r)[1..] == r;
    }
  }

  lemma {:induction false} MergePairsWithoutPairs(s: seq<int>)
    requires ZeroFree(s) && !HasPair(s)
    ensures MergePairs(s) == s
  {
    if |s| >= 2 {
      assert s[0] != s[1];
      forall i | 0 <= i < |s[1..]| - 1 && s[1..][i] != 0
        ensures s[1..][i] != s[1..][i + 1]
      {
        assert s[1..][i] == s[i + 1] && s[1..][i + 1] == s[i + 2];
      }
      MergePairsWithoutPairs(s[1..]);
    }
  }

  /** On a row of tiles the merge pass never adds tiles, and removes at least
      one as soon as two neighbours are equal. */
  lemma {:induction false} MergePairsTiles(s: seq<int>)
    requires ZeroFree(s)
    ensures |NonZeros(MergePairs(s))| <= |s|
    ensures HasPair(s) ==> |NonZeros(MergePairs(s))| < |s|
  {
    if |s| < 2 {
      NonZerosOfZeroFree(s);
    } else if s[0] == s[1] {
      MergePairsTiles(s[2..]);
      NonZerosConcat([2 * s[0], 0], MergePairs(s[2..]));
      assert NonZeros([2 * s[0], 0]) == [2 * s[0]] by {
        assert [2 * s[0], 0][1..] == [0];
        assert [0][1..] == [];
      }
    } else {
      MergePairsTiles(s[1..]);
      NonZerosConcat([s[0]], MergePairs(s[1..]));
      assert NonZeros([s[0]]) == [s[0]] by {
        assert [s[0]][1..] == [];
      }
      if HasPair(s) {
        var i :| 0 <= i < |s| - 1 && s[i] != 0 && s[i] == s[i + 1];
        assert i != 0;
        assert s[1..][i - 1] == s[1..][i];
        assert HasPair(s[1..]);
      }
    }
  }

  /** A row whose zeros trail is its tiles followed by its empty cells. */
  lemma {:induction false} TrailingZerosSplit(s: seq<int>)
    requires ZerosTrail(s)
    ensures s == NonZeros(s) + Zeros(ZeroCount(s))
  {
    if s == [] {
    } else if s[0] == 0 {
      AllZero(s);
    } else {
      TrailingZerosSplit(s[1..]);
      assert s == [s[0]] + s[1..];
    }
  }

  // ---------------------------------------------------------------------------
  // What moveTraversable promises

  /** Tiles first, then the empty cells. */
  lemma MergeLeftZerosTrail(row: seq<int>)
    ensures ZerosTrail(MergeLeft(row))
  {
    var packed := NonZeros(MergePairs(NonZeros(row)));
    var r := MergeLeft(row);
    forall i, j | 0 <= i < j < |r| && r[i] == 0
      ensures r[j] == 0
    {
      assert i >= |packed|;
    }
  }

  /** A move never changes the total of the row. */
  lemma MergeLeftSum(row: seq<int>)
    ensures Sum(MergeLeft(row)) == Sum(row)
  {
    var packed := NonZeros(MergePairs(NonZeros(row)));
    var k := if |packed| < N then N - |packed| else 0;
    SumConcat(packed, Zeros(k));
    SumZeros(k);
  }

  /** A move never creates tiles; it removes exactly as many as it merges. */
  lemma MergeLeftTiles(row: seq<int>)
    ensures TileCount(MergeLeft(row)) == |NonZeros(MergePairs(NonZeros(row)))|
    ensures TileCount(MergeLeft(row)) <= TileCount(row)
    ensures HasPair(NonZeros(row)) ==> TileCount(MergeLeft(row)) < TileCount(row)
  {
    var packed := NonZeros(MergePairs(NonZeros(row)));
    var k := if |packed| < N then N - |packed| else 0;
    ZeroCountConcat(packed, Zeros(k));
    ZeroFreeCounts(packed);
    SumZeros(k);
    MergePairsTiles(NonZeros(row));
  }

  /** An empty row stays empty. */
  lemma MergeLeftEmptyRow(row: seq<int>)
    requires |row| == N && forall i :: 0 <= i < N ==> row[i] == 0
    ensures MergeLeft(row) == row
  {
    AllZero(row);
    assert MergePairs([]) == [];
    AllZero(MergePairs(NonZeros(row)));
  }

  /** A move to the left leaves a row of the board unchanged exactly when its
      tiles are already packed to the left and no two neighbouring tiles are
      equal. */
  lemma MergeLeftFixedPoint(row: seq<int>)
    requires |row| == N
    ensures MergeLeft(row) == row <==> Settled(row)
  {
    var tiles := NonZeros(row);
    if Settled(row) {
      TrailingZerosSplit(row);
      forall i | 0 <= i < |tiles| - 1 && tiles[i] != 0
        ensures tiles[i] != tiles[i + 1]
      {
        assert row[i] == tiles[i] && row[i + 1] == tiles[i + 1];
      }
      MergePairsWithoutPairs(tiles);
      NonZerosOfZeroFree(tiles);
    }
    if MergeLeft(row) == row {
      MergeLeftZerosTrail(row);
      TrailingZerosSplit(row);
      MergeLeftTiles(row);
      forall i | 0 <= i < |row| - 1 && row[i] != 0
        ensures row[i] != row[i + 1]
      {
        assert row[i] == (tiles + Zeros(ZeroCount(row)))[i];
        assert i < |tiles|;
        if i + 1 < |tiles| {
          assert tiles[i] == row[i] && tiles[i + 1] == row[i + 1];
        } else {
          assert row[i + 1] == Zeros(ZeroCount(row))[0];
        }
      }
    }
  }

  /** A merged cell never merges again in the same move: four equal tiles
      give two doubled tiles, not one quadrupled tile. */
  lemma MergeFourEqual()
    ensures MergeLeft([2, 2, 2, 2]) == [4, 4, 0, 0]
  {
    NonZerosOfZeroFree([2, 2, 2, 2]);
    assert [2, 2, 2, 2][2..] == [2, 2];
    assert MergePairs([2, 2]) == [4, 0];
    assert MergePairs([2, 2, 2, 2]) == [4, 0, 4, 0];
    NonZerosConcat([4, 0], [4, 0]);
    assert NonZeros([4, 0]) == [4];
    assert Zeros(2) == [0, 0];
  }

  /** Tiles separated by empty cells still merge. */
  lemma MergeAcrossGaps()
    ensures MergeLeft([0, 2, 0, 2]) == [4, 0, 0, 0]
  {
    NonZerosConcat([0, 2], [0, 2]);
    assert NonZeros([0, 2]) == [2];
    assert MergePairs([2, 2]) == [4, 0];
    assert NonZeros([4, 0]) == [4];
    assert Zeros(3) == [0, 0, 0];
  }

  /** The tile produced by a merge does not absorb an equal tile behind it. */
  lemma MergeKeepsLeader()
    ensures MergeLeft([4, 0, 2, 2]) == [4, 4, 0, 0]
  {
    NonZerosConcat([4, 0], [2, 2]);
    assert NonZeros([4, 0]) == [4];
    NonZerosOfZeroFree([2, 2]);
    assert [4, 2, 2][1..] == [2, 2];
    assert MergePairs([2, 2]) == [4, 0];
    assert MergePairs([4, 2, 2]) == [4, 4, 0];
    NonZerosConcat([4, 4], [0]);
    NonZerosOfZeroFree([4, 4]);
    assert Zeros(2) == [0, 0];
  }

  /** A doubled tile does not merge with an equal tile that follows it. */
  lemma MergedTileStaysPut()
    ensures MergeLeft([2, 2, 4, 0]) == [4, 4, 0, 0]
  {
    NonZerosConcat([2, 2], [4, 0]);
    NonZerosOfZeroFree([2, 2]);
    assert NonZeros([4, 0]) == [4];
    assert [2, 2, 4][2..] == [4];
    assert MergePairs([2, 2, 4]) == [4, 0, 4];
    NonZerosConcat([4, 0], [4]);
    assert Zeros(2) == [0, 0];
  }

  /** One step of the in-place merge loop keeps "merged prefix, then the
      merge pass of the rest" equal to the merge pass of the whole: the
      doubling case. */
  lemma MergeStepDouble(m: seq<int>, i: nat)
    requires i + 1 < |m| && m[i] == m[i + 1]
    ensures var m' := m[i := m[i] * 2][i + 1 := 0];
      m[..i] + MergePairs(m[i..]) == m'[..i + 1] + MergePairs(m'[i + 1..])
  {
    var rest := m[i + 2..];
    var m' := m[i := m[i] * 2][i + 1 := 0];
    assert m[i..] == [m[i], m[i]] + rest;
    assert m'[i + 1..] == [0] + rest;
    assert m'[..i + 1] == m[..i] + [2 * m[i]];
    DoubleThenZero(m[..i], m[i], rest);
  }

  /** The merge pass on a doubled pair equals the doubled cell followed by the
      pass on the zero it leaves. */
  lemma DoubleThenZero(prefix: seq<int>, a: int, rest: seq<int>)
    ensures prefix + MergePairs([a, a] + rest) == (prefix + [2 * a]) + MergePairs([0] + rest)
  {
    var t := [a, a] + rest;
    assert t[0] == a && t[1] == a && t[2..] == rest;
    assert MergePairs(t) == [2 * a, 0] + MergePairs(rest);
    MergePairsZeroHead(rest);
    assert prefix + ([2 * a, 0] + MergePairs(rest)) == (prefix + [2 * a]) + ([0] + MergePairs(rest));
  }

  /** The same, when the two cells differ and nothing is written. */
  lemma MergeStepKeep(m: seq<int>, i: nat)
    requires i + 1 < |m| && m[i] != m[i + 1]
    ensures m[..i] + MergePairs(m[i..]) == m[..i + 1] + MergePairs(m[i + 1..])
  {
    assert m[i..] == [m[i]] + m[i + 1..];
    assert m[..i + 1] == m[..i] + [m[i]];
    KeepThenRest(m[..i], m[i], m[i + 1..]);
  }

  /** The merge pass passes over a cell that differs from its neighbour. */
  lemma KeepThenRest(prefix: seq<int>, a: int, rest: seq<int>)
    requires rest != [] && rest[0] != a
    ensures prefix + MergePairs([a] + rest) == (prefix + [a]) + MergePairs(rest)
  {
    var t := [a] + rest;
    assert t[0] == a && t[1] == rest[0] && t[1..] == rest;
    assert MergePairs(t) == [a] + MergePairs(rest);
    assert prefix + ([a] + MergePairs(rest)) == (prefix + [a]) + MergePairs(rest);
  }

  // ---------------------------------------------------------------------------
  // The source's loops

  /** moveTraversable: three passes over fresh sequences, the input untouched. */
  method MoveTraversable(vectorGrid: seq<int>) returns (resultTraversable: seq<int>)
    ensures resultTraversable == MergeLeft(vectorGrid)
  {
    var movableElements := CollectTiles(vectorGrid);
    movableElements := MergeNeighbours(movableElements);
    resultTraversable := PackAndPad(movableElements);
  }

  /** First pass of moveTraversable: copy the non-zero cells. */
  method CollectTiles(vectorGrid: seq<int>) returns (movableElements: seq<int>)
    ensures movableElements == NonZeros(vectorGrid)
  {
    movableElements := [];
    var i := 0;
    while i < |vectorGrid|
      invariant 0 <= i <= |vectorGrid|
      invariant movableElements == NonZeros(vectorGrid[..i])
    {
      NonZerosConcat(vectorGrid[..i], [vectorGrid[i]]);
      assert vectorGrid[..i + 1] == vectorGrid[..i] + [vectorGrid[i]];
      if vectorGrid[i] != 0 {
        movableElements := movableElements + [vectorGrid[i]];
      }
      i := i + 1;
    }
    assert vectorGrid[..i] == vectorGrid;
  }

  /** Second pass of moveTraversable: the in-place merge loop. */
  method MergeNeighbours(compacted: seq<int>) returns (movableElements: seq<int>)
    ensures movableElements == MergePairs(compacted)
  {
    movableElements := compacted;
    var i := 0;
    while i < |movableElements| - 1
      invariant 0 <= i <= |movableElements| == |compacted|
      invariant MergePairs(compacted) == movableElements[..i] + MergePairs(movableElements[i..])
    {
      if movableElements[i] == movableElements[i + 1] {
        MergeStepDouble(movableElements, i);
        movableElements := movableElements[i := movableElements[i] * 2][i + 1 := 0];
      } else {
        MergeStepKeep(movableElements, i);
      }
      i := i + 1;
    }
    if |movableElements| > 0 {
      assert movableElements[..i] + movableElements[i..] == movableElements;
    }
  }

  /** Third pass of moveTraversable: keep the non-zero cells, then pad with
      zeros until there are four cells. */
  method PackAndPad(movableElements: seq<int>) returns (resultTraversable: seq<int>)
    ensures var packed := NonZeros(movableElements);
      resultTraversable == packed + Zeros(if |packed| < N then N - |packed| else 0)
  {
    resultTraversable := [];
    var count := 0;
    var i := 0;
    while i < |movableElements|
      invariant 0 <= i <= |movableElements|
      invariant resultTraversable == NonZeros(movableElements[..i])
      invariant count == |resultTraversable|
    {
      NonZerosConcat(movableElements[..i], [movableElements[i]]);
      assert movableElements[..i + 1] == movableElements[..i] + [movableElements[i]];
      if movableElements[i] != 0 {
        count := count + 1;
        resultTraversable := resultTraversable + [movableElements[i]];
      }
      i := i + 1;
    }
    assert movableElements[..i] == movableElements;
    ghost var packed := resultTraversable;
    while count < 4
      invariant |packed| <= count <= if |packed| < N then N else |packed|
      invariant resultTraversable == packed + Zeros(count - |packed|)
    {
      resultTraversable := resultTraversable + [0];
      count := count + 1;
    }
  }
}
