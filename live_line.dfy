/** The rule the live game applies along one line of a move: tiles are taken
    in traversal order (the one farthest in the direction of the move first);
    each slides as far as it can and merges into the tile it runs into when
    that tile has the same value and was not itself produced by a merge in this
    move (its mergedFrom marker is unset). */
module LiveLine {
  import opened Matrices
  import opened RowMerge

  /** A tile already placed during the move; `merged` is its mergedFrom marker. */
  datatype Placed = Placed(value: int, merged: bool)

  function Values(line: seq<Placed>): (r: seq<int>)
    ensures |r| == |line|
  {
    seq(|line|, i requires 0 <= i < |line| => line[i].value)
  }

  /** One tile of value v arrives behind the tiles already placed. */
  function Arrive(placed: seq<Placed>, v: int): (r: seq<Placed>)
    ensures r != []
  {
    if placed != [] && placed[|placed| - 1].value == v && !placed[|placed| - 1].merged
    then placed[..|placed| - 1] + [Placed(2 * v, true)]
    else placed + [Placed(v, false)]
  }

  /** The tiles of a line arriving one after the other. */
  function ArriveAll(placed: seq<Placed>, tiles: seq<int>): seq<Placed>
    decreases tiles
  {
    if tiles == [] then placed else ArriveAll(Arrive(placed, tiles[0]), tiles[1..])
  }

  /** The line after the move: its tiles in traversal order, each arriving in turn. */
  function LiveMerge(tiles: seq<int>): seq<Placed> {
    ArriveAll([], tiles)
  }

  lemma {:induction false} ArriveAllPrefix(prefix: seq<Placed>, placed: seq<Placed>, tiles: seq<int>)
    requires placed != []
    ensures ArriveAll(prefix + placed, tiles) == prefix + ArriveAll(placed, tiles)
    decreases tiles
  {
    if tiles != [] {
      var p := prefix + placed;
      assert p[|p| - 1] == placed[|placed| - 1];
      assert p[..|p| - 1] == prefix + placed[..|placed| - 1];
      assert Arrive(p, tiles[0]) == prefix + Arrive(placed, tiles[0]);
      ArriveAllPrefix(prefix, Arrive(placed, tiles[0]), tiles[1..]);
    }
  }

  /** Behind a merged tile the line starts afresh: nothing can merge into it. */
  lemma ArriveAllAfterMerged(prefix: seq<Placed>, tiles: seq<int>)
    requires prefix != [] && prefix[|prefix| - 1].merged
    ensures ArriveAll(prefix, tiles) == prefix + LiveMerge(tiles)
  {
    if tiles != [] {
      assert Arrive(prefix, tiles[0]) == prefix + [Placed(tiles[0], false)];
      assert Arrive([], tiles[0]) == [Placed(tiles[0], false)];
      ArriveAllPrefix(prefix, [Placed(tiles[0], false)], tiles[1..]);
    } else {
      assert prefix + [] == prefix;
    }
  }

  lemma ValuesConcat(a: seq<Placed>, b: seq<Placed>)
    ensures Values(a + b) == Values(a) + Values(b)
  {
  }

  /** The live rule and the simulated merge pass agree on every row of tiles:
      an unmerged tile absorbs at most one equal follower, and a merged tile
      absorbs none. */
  lemma {:induction false} LiveMergeAgrees(tiles: seq<int>)
    requires ZeroFree(tiles)
    ensures Values(LiveMerge(tiles)) == NonZeros(MergePairs(tiles))
  {
    if |tiles| == 0 {
    } else if |tiles| == 1 {
      assert tiles[1..] == [];
      assert Arrive([], tiles[0]) == [Placed(tiles[0], false)];
      assert LiveMerge(tiles) == ArriveAll(Arrive([], tiles[0]), tiles[1..]);
      NonZerosOfZeroFree(tiles);
    } else if tiles[0] == tiles[1] {
      LiveMergeAgrees(tiles[2..]);
      LiveMergePair(tiles);
    } else {
      LiveMergeAgrees(tiles[1..]);
      LiveMergeSingle(tiles);
    }
  }

  /** The inductive step when the first two tiles merge. */
  lemma LiveMergePair(tiles: seq<int>)
    requires |tiles| >= 2 && tiles[0] == tiles[1] && ZeroFree(tiles)
    requires Values(LiveMerge(tiles[2..])) == NonZeros(MergePairs(tiles[2..]))
    ensures Values(LiveMerge(tiles)) == NonZeros(MergePairs(tiles))
  {
    var a := tiles[0];
    var rest := tiles[2..];
    assert tiles[1..][0] == a && tiles[1..][1..] == rest;
    assert Arrive([], a) == [Placed(a, false)];
    assert [Placed(a, false)][..0] == [];
    assert Arrive([Placed(a, false)], a) == [Placed(2 * a, true)];
    assert LiveMerge(tiles) == ArriveAll([Placed(a, false)], tiles[1..]);
    assert ArriveAll([Placed(a, false)], tiles[1..]) == ArriveAll([Placed(2 * a, true)], rest);
    ArriveAllAfterMerged([Placed(2 * a, true)], rest);
    ValuesConcat([Placed(2 * a, true)], LiveMerge(rest));
    NonZerosConcat([2 * a, 0], MergePairs(rest));
    assert NonZeros([2 * a, 0]) == [2 * a] by {
      assert [2 * a, 0][1..] == [0];
      assert [0][1..] == [];
    }
  }

  /** The inductive step when the first tile stays alone. */
  lemma LiveMergeSingle(tiles: seq<int>)
    requires |tiles| >= 2 && tiles[0] != tiles[1] && ZeroFree(tiles)
    requires Values(LiveMerge(tiles[1..])) == NonZeros(MergePairs(tiles[1..]))
    ensures Values(LiveMerge(tiles)) == NonZeros(MergePairs(tiles))
  {
    var a := tiles[0];
    var rest := tiles[1..];
    LiveMergeLoneHead(tiles);
    ValuesConcat([Placed(a, false)], LiveMerge(rest));
    assert MergePairs(tiles) == [a] + MergePairs(rest);
    NonZerosConcat([a], MergePairs(rest));
    assert NonZeros([a]) == [a] by {
      assert [a][1..] == [];
    }
  }

  /** A first tile that differs from the second is placed on its own and the
      rest of the line is handled afresh behind it. */
  lemma LiveMergeLoneHead(tiles: seq<int>)
    requires |tiles| >= 2 && tiles[0] != tiles[1]
    ensures LiveMerge(tiles) == [Placed(tiles[0], false)] + LiveMerge(tiles[1..])
  {
    var a := tiles[0];
    var b := tiles[1];
    var rest := tiles[1..];
    assert rest[0] == b;
    assert Arrive([], a) == [Placed(a, false)];
    assert Arrive([Placed(a, false)], b) == [Placed(a, false)] + [Placed(b, false)];
    assert LiveMerge(tiles) == ArriveAll([Placed(a, false)], rest);
    assert ArriveAll([Placed(a, false)], rest) == ArriveAll([Placed(a, false)] + [Placed(b, false)], rest[1..]);
    ArriveAllPrefix([Placed(a, false)], [Placed(b, false)], rest[1..]);
    assert Arrive([], b) == [Placed(b, false)];
    assert LiveMerge(rest) == ArriveAll([Placed(b, false)], rest[1..]);
  }

  /** Laid out on a board line of four cells, the live rule gives exactly the
      simulated left-merge. */
  lemma LiveMergeIsMergeLeft(row: seq<int>)
    requires |row| <= N
    ensures |Values(LiveMerge(NonZeros(row)))| <= N
    ensures var placed := Values(LiveMerge(NonZeros(row)));
      MergeLeft(row) == placed + Zeros(N - |placed|)
  {
    LiveMergeAgrees(NonZeros(row));
    MergeLeftTiles(row);
  }
}
