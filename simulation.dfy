/** The simulated move engine: a move in any direction is a rotation that makes
    it a move to the left, the left-merge of every row, and the inverse
    rotation. It builds fresh matrices and never touches its input. */
module Simulation {
  import opened Matrices
  import opened RowMerge
  import opened Features

  /** Directions as the game encodes them. */
  const Up: int := 0
  const Right: int := 1
  const Down: int := 2
  const Left: int := 3

  /** calculateNextLeftFunction: every row merged to the left. */
  function NextLeft(g: Matrix): (r: Matrix)
    requires IsSquare(g)
    ensures IsSquare(r)
  {
    seq(N, i requires 0 <= i < N => MergeLeft(g[i]))
  }

  /** calculateNextUpFunction */
  function NextUp(g: Matrix): (r: Matrix)
    requires IsSquare(g)
    ensures IsSquare(r)
  {
    Rotated90(NextLeft(Rotated270(g)))
  }

  /** calculateNextRightFunction */
  function NextRight(g: Matrix): (r: Matrix)
    requires IsSquare(g)
    ensures IsSquare(r)
  {
    Rotated180(NextLeft(Rotated180(g)))
  }

  /** calculateNextDownFunction */
  function NextDown(g: Matrix): (r: Matrix)
    requires IsSquare(g)
    ensures IsSquare(r)
  {
    Rotated270(NextLeft(Rotated90(g)))
  }

  /** calculateNextMove: 0 up, 1 right, 2 down, anything else left. */
  function NextGrid(g: Matrix, dir: int): (r: Matrix)
    requires IsSquare(g)
    ensures IsSquare(r)
  {
    if dir == Up then NextUp(g)
    else if dir == Right then NextRight(g)
    else if dir == Down then NextDown(g)
    else NextLeft(g)
  }

  /** The board turned so that a move in direction dir becomes a move to the left. */
  function Aligned(g: Matrix, dir: int): (r: Matrix)
    requires IsSquare(g)
    ensures IsSquare(r)
  {
    if dir == Up then Rotated270(g)
    else if dir == Right then Rotated180(g)
    else if dir == Down then Rotated90(g)
    else g
  }

  /** The k-th line of the board read in the direction of the move, the cell
      the tiles move towards first. */
  function Line(g: Matrix, dir: int, k: int): (line: seq<int>)
    requires IsSquare(g) && 0 <= k < N
    ensures |line| == N
  {
    if dir == Up then [g[0][k], g[1][k], g[2][k], g[3][k]]
    else if dir == Right then [g[k][3], g[k][2], g[k][1], g[k][0]]
    else if dir == Down then [g[3][k], g[2][k], g[1][k], g[0][k]]
    else g[k]
  }

  // ---------------------------------------------------------------------------
  // Properties of a move

  lemma NextLeftCounts(g: Matrix)
    requires IsSquare(g)
    ensures MatrixSum(NextLeft(g)) == MatrixSum(g)
    ensures MatrixZeros(NextLeft(g)) >= MatrixZeros(g)
  {
    var r := NextLeft(g);
    Matrix4(g);
    Matrix4(r);
    forall i | 0 <= i < N
      ensures Sum(r[i]) == Sum(g[i]) && ZeroCount(r[i]) >= ZeroCount(g[i])
    {
      MergeLeftSum(g[i]);
      MergeLeftTiles(g[i]);
    }
  }

  /** Each direction is the left move seen through a rotation. */
  lemma NextGridAligned(g: Matrix, dir: int)
    requires IsSquare(g)
    ensures NextLeft(Aligned(g, dir)) == Aligned(NextGrid(g, dir), dir)
  {
    var a := NextLeft(Aligned(g, dir));
    if dir == Up {
      RotateInverse(a);
    } else if dir == Right {
      Rotate180Involution(a);
    } else if dir == Down {
      RotateInverse(a);
    }
  }

  /** A move neither creates nor destroys value: the total of the board is kept. */
  lemma MoveKeepsTotal(g: Matrix, dir: int)
    requires IsSquare(g)
    ensures MatrixSum(NextGrid(g, dir)) == MatrixSum(g)
  {
    var a := Aligned(g, dir);
    NextLeftCounts(a);
    NextGridAligned(g, dir);
    var r := NextGrid(g, dir);
    if dir == Up {
      Rotated270Counts(g);
      Rotated270Counts(r);
    } else if dir == Right {
      Rotated180Counts(g);
      Rotated180Counts(r);
    } else if dir == Down {
      Rotated90Counts(g);
      Rotated90Counts(r);
    }
  }

  /** A move never adds a tile: the board has at least as many empty cells after it. */
  lemma MoveKeepsOrFreesCells(g: Matrix, dir: int)
    requires IsSquare(g)
    ensures MatrixZeros(NextGrid(g, dir)) >= MatrixZeros(g)
  {
    var a := Aligned(g, dir);
    NextLeftCounts(a);
    NextGridAligned(g, dir);
    var r := NextGrid(g, dir);
    if dir == Up {
      Rotated270Counts(g);
      Rotated270Counts(r);
    } else if dir == Right {
      Rotated180Counts(g);
      Rotated180Counts(r);
    } else if dir == Down {
      Rotated90Counts(g);
      Rotated90Counts(r);
    }
  }

  /** Rotation is injective, so a move changes nothing exactly when the left
      move of the turned board changes nothing. */
  lemma NoOpAligned(g: Matrix, dir: int)
    requires IsSquare(g)
    ensures NextGrid(g, dir) == g <==> NextLeft(Aligned(g, dir)) == Aligned(g, dir)
  {
    NextGridAligned(g, dir);
    var r := NextGrid(g, dir);
    if dir == Up {
      RotateInverse(r);
      RotateInverse(g);
      Rotated90Injective(Rotated270(r), Rotated270(g));
    } else if dir == Right {
      Rotate180Involution(r);
      Rotate180Involution(g);
      Rotated90Injective(Rotated90(r), Rotated90(g));
      Rotated90Injective(r, g);
    } else if dir == Down {
      Rotated90Injective(r, g);
    }
  }

  /** The row of the turned board that holds line k. */
  function AlignedIndex(dir: int, k: int): (i: int)
    requires 0 <= k < N
    ensures 0 <= i < N
  {
    if dir == Up || dir == Right then N - 1 - k else k
  }

  /** The rows of the turned board are the lines of the board in the direction of the move. */
  lemma AlignedRows(g: Matrix, dir: int, k: int)
    requires IsSquare(g) && 0 <= k < N
    ensures Aligned(g, dir)[AlignedIndex(dir, k)] == Line(g, dir, k)
  {
    if dir == Up {
      forall j | 0 <= j < N
        ensures Aligned(g, dir)[N - 1 - k][j] == g[j][k]
      {
        Rotated270At(g, N - 1 - k, j);
      }
    } else if dir == Right {
      var a := Rotated180(g);
      forall j | 0 <= j < N
        ensures a[N - 1 - k][j] == Line(g, dir, k)[j]
      {
        Rotated180At(g, N - 1 - k, j);
      }
    }
  }

  /** Each line of the board after a move is the left-merge of the same line before it. */
  lemma LineOfNextGrid(g: Matrix, dir: int, k: int)
    requires IsSquare(g) && 0 <= k < N
    ensures Line(NextGrid(g, dir), dir, k) == MergeLeft(Line(g, dir, k))
  {
    AlignedRows(g, dir, k);
    AlignedRows(NextGrid(g, dir), dir, k);
    NextGridAligned(g, dir);
  }

  lemma NextLeftNoOp(g: Matrix)
    requires IsSquare(g)
    ensures NextLeft(g) == g <==> forall i :: 0 <= i < N ==> Settled(g[i])
  {
    if forall i :: 0 <= i < N ==> Settled(g[i]) {
      forall i | 0 <= i < N
        ensures NextLeft(g)[i] == g[i]
      {
        MergeLeftFixedPoint(g[i]);
      }
    }
    if NextLeft(g) == g {
      forall i | 0 <= i < N
        ensures Settled(g[i])
      {
        assert NextLeft(g)[i] == MergeLeft(g[i]);
        MergeLeftFixedPoint(g[i]);
      }
    }
  }

  /** A move changes nothing exactly when, on every line taken in the direction
      of the move, the tiles are already packed forward and no two neighbouring
      tiles are equal. */
  lemma MoveIsNoOpIff(g: Matrix, dir: int)
    requires IsSquare(g)
    ensures NextGrid(g, dir) == g <==> forall k :: 0 <= k < N ==> Settled(Line(g, dir, k))
  {
    NoOpAligned(g, dir);
    var a := Aligned(g, dir);
    NextLeftNoOp(a);
    if forall k :: 0 <= k < N ==> Settled(Line(g, dir, k)) {
      forall i | 0 <= i < N
        ensures Settled(a[i])
      {
        AlignedRows(g, dir, AlignedIndex(dir, i));
      }
    }
    if forall i :: 0 <= i < N ==> Settled(a[i]) {
      forall k | 0 <= k < N
        ensures Settled(Line(g, dir, k))
      {
        AlignedRows(g, dir, k);
      }
    }
  }

  // ---------------------------------------------------------------------------
  // When no move is left

  /** The tile at (i, j) has the same value as its right or its lower neighbour. */
  predicate MatchesNeighbour(g: Matrix, i: int, j: int)
    requires IsSquare(g) && 0 <= i < N && 0 <= j < N
  {
    g[i][j] != 0 &&
    ((j + 1 < N && g[i][j] == g[i][j + 1]) || (i + 1 < N && g[i][j] == g[i + 1][j]))
  }

  /** Some tile has an orthogonal neighbour of the same value. */
  predicate HasEqualNeighbours(g: Matrix)
    requires IsSquare(g)
  {
    exists i, j :: 0 <= i < N && 0 <= j < N && MatchesNeighbour(g, i, j)
  }

  /** The game's notion of a move being possible: an empty cell, or two equal
      tiles side by side. */
  predicate MovesAvailable(g: Matrix)
    requires IsSquare(g)
  {
    HasEmptyCell(g) || HasEqualNeighbours(g)
  }

  /** No move in any of the four directions changes the board. */
  predicate Stuck(g: Matrix)
    requires IsSquare(g)
  {
    forall dir :: Up <= dir <= Left ==> NextGrid(g, dir) == g
  }

  /** A line packed towards both of its ends is either full or empty. */
  lemma PackedBothWays(s: seq<int>, r: seq<int>)
    requires |s| == N && r == [s[3], s[2], s[1], s[0]]
    requires ZerosTrail(s) && ZerosTrail(r)
    ensures (forall x :: 0 <= x < N ==> s[x] == 0) || (forall x :: 0 <= x < N ==> s[x] != 0)
  {
    if s[0] == 0 {
      forall x | 0 <= x < N
        ensures s[x] == 0
      {
        if x > 0 {
          assert 0 < x && s[0] == 0;
        }
      }
    } else {
      forall x | 0 <= x < N
        ensures s[x] != 0
      {
        assert r[N - 1 - x] == s[x] && r[3] == s[0];
        if x > 0 {
          assert N - 1 - x < 3;
        }
      }
    }
  }

  /** On a stuck board every line is settled in every direction. */
  lemma StuckLines(g: Matrix, k: int)
    requires IsSquare(g) && Stuck(g) && 0 <= k < N
    ensures Settled(Line(g, Up, k)) && Settled(Line(g, Right, k))
    ensures Settled(Line(g, Down, k)) && Settled(Line(g, Left, k))
  {
    assert NextGrid(g, Up) == g && NextGrid(g, Right) == g;
    assert NextGrid(g, Down) == g && NextGrid(g, Left) == g;
    MoveIsNoOpIff(g, Up);
    MoveIsNoOpIff(g, Right);
    MoveIsNoOpIff(g, Down);
    MoveIsNoOpIff(g, Left);
  }

  /** A stuck board holding a tile is full: the row of that tile is full, and
      so then is every column. */
  lemma StuckIsFull(g: Matrix)
    requires IsSquare(g) && Stuck(g)
    requires exists i, j :: 0 <= i < N && 0 <= j < N && g[i][j] != 0
    ensures !HasEmptyCell(g)
  {
    var ti, tj :| 0 <= ti < N && 0 <= tj < N && g[ti][tj] != 0;
    StuckLines(g, ti);
    assert Line(g, Left, ti) == g[ti];
    PackedBothWays(g[ti], Line(g, Right, ti));
    forall r, c | 0 <= r < N && 0 <= c < N
      ensures g[r][c] != 0
    {
      assert g[ti][c] != 0;
      StuckLines(g, c);
      PackedBothWays(Line(g, Up, c), Line(g, Down, c));
      assert Line(g, Up, c)[ti] == g[ti][c];
      assert Line(g, Up, c)[r] == g[r][c];
    }
  }

  /** On a stuck board no two neighbouring tiles are equal. */
  lemma StuckHasNoMatches(g: Matrix)
    requires IsSquare(g) && Stuck(g)
    ensures !HasEqualNeighbours(g)
  {
    forall i, j | 0 <= i < N && 0 <= j < N
      ensures !MatchesNeighbour(g, i, j)
    {
      StuckLines(g, i);
      StuckLines(g, j);
      assert Line(g, Left, i) == g[i];
      assert !HasPair(g[i]);
      var col := Line(g, Up, j);
      assert !HasPair(col);
      assert col[i] == g[i][j];
      if i + 1 < N {
        assert col[i + 1] == g[i + 1][j];
      }
    }
  }

  /** Without an empty cell and without equal neighbours every line is settled. */
  lemma NoMovesSettledLine(g: Matrix, dir: int, k: int)
    requires IsSquare(g) && !MovesAvailable(g) && 0 <= k < N
    ensures Settled(Line(g, dir, k))
  {
    var line := Line(g, dir, k);
    forall x | 0 <= x < N
      ensures line[x] != 0
    {
      if dir == Up {
        assert line[x] == g[x][k];
      } else if dir == Right {
        assert line[x] == g[k][N - 1 - x];
      } else if dir == Down {
        assert line[x] == g[N - 1 - x][k];
      } else {
        assert line[x] == g[k][x];
      }
    }
    forall x | 0 <= x < N - 1
      ensures line[x] == line[x + 1] ==> line[x] == 0
    {
      if dir == Up {
        assert line[x] == g[x][k] && line[x + 1] == g[x + 1][k];
        assert !MatchesNeighbour(g, x, k);
      } else if dir == Right {
        assert line[x] == g[k][N - 1 - x] && line[x + 1] == g[k][N - 2 - x];
        assert !MatchesNeighbour(g, k, N - 2 - x);
      } else if dir == Down {
        assert line[x] == g[N - 1 - x][k] && line[x + 1] == g[N - 2 - x][k];
        assert !MatchesNeighbour(g, N - 2 - x, k);
      } else {
        assert line[x] == g[k][x] && line[x + 1] == g[k][x + 1];
        assert !MatchesNeighbour(g, k, x);
      }
    }
  }

  /** On a board holding at least one tile, the simulated moves are all
      no-ops exactly when the game's availability test fails. */
  lemma StuckIffNoMovesAvailable(g: Matrix)
    requires IsSquare(g)
    requires exists i, j :: 0 <= i < N && 0 <= j < N && g[i][j] != 0
    ensures Stuck(g) <==> !MovesAvailable(g)
  {
    if Stuck(g) {
      StuckIsFull(g);
      StuckHasNoMatches(g);
    }
    if !MovesAvailable(g) {
      forall dir | Up <= dir <= Left
        ensures NextGrid(g, dir) == g
      {
        forall k | 0 <= k < N
          ensures Settled(Line(g, dir, k))
        {
          NoMovesSettledLine(g, dir, k);
        }
        MoveIsNoOpIff(g, dir);
      }
    }
  }

  /** An empty board is left as it is by every move. */
  lemma EmptyBoardStuck(g: Matrix)
    requires IsSquare(g)
    requires forall i, j :: 0 <= i < N && 0 <= j < N ==> g[i][j] == 0
    ensures Stuck(g)
  {
    forall dir | Up <= dir <= Left
      ensures NextGrid(g, dir) == g
    {
      forall k | 0 <= k < N
        ensures Settled(Line(g, dir, k))
      {
        var line := Line(g, dir, k);
        assert forall x :: 0 <= x < N ==> line[x] == 0;
      }
      MoveIsNoOpIff(g, dir);
    }
  }

  // ---------------------------------------------------------------------------
  // The source's loops

  /** rotateArray90: builds a fresh matrix column by column. */
  method RotateArray90(arrayGrid: Matrix) returns (resultArray: Matrix)
    requires IsSquare(arrayGrid)
    ensures resultArray == Rotated90(arrayGrid)
  {
    resultArray := [];
    var i := 0;
    while i < |arrayGrid[0]|
      invariant 0 <= i <= N
      invariant |resultArray| == i
      invariant forall k :: 0 <= k < i ==> resultArray[k] == Rotated90(arrayGrid)[k]
    {
      var resultVector: seq<int> := [];
      var j := |arrayGrid| - 1;
      while j >= 0
        invariant -1 <= j <= N - 1
        invariant |resultVector| == N - 1 - j
        invariant forall k :: 0 <= k < |resultVector| ==> resultVector[k] == arrayGrid[N - 1 - k][i]
      {
        resultVector := resultVector + [arrayGrid[j][i]];
        j := j - 1;
      }
      assert resultVector == Rotated90(arrayGrid)[i];
      resultArray := resultArray + [resultVector];
      i := i + 1;
    }
  }

  /** rotateArray180 */
  method RotateArray180(arrayGrid: Matrix) returns (resultArray: Matrix)
    requires IsSquare(arrayGrid)
    ensures resultArray == Rotated180(arrayGrid)
  {
    var once := RotateArray90(arrayGrid);
    resultArray := RotateArray90(once);
  }

  /** rotateArray270 */
  method RotateArray270(arrayGrid: Matrix) returns (resultArray: Matrix)
    requires IsSquare(arrayGrid)
    ensures resultArray == Rotated270(arrayGrid)
  {
    var once := RotateArray90(arrayGrid);
    resultArray := RotateArray180(once);
  }

  /** transposeArrayGrid: row c of the result is column c of the input. */
  method TransposeArrayGrid(arrayGrid: Matrix) returns (result: Matrix)
    requires IsSquare(arrayGrid)
    ensures result == Transposed(arrayGrid)
  {
    result := [];
    var col := 0;
    while col < |arrayGrid[0]|
      invariant 0 <= col <= N
      invariant |result| == col
      invariant forall k :: 0 <= k < col ==> result[k] == Transposed(arrayGrid)[k]
    {
      var resultRow: seq<int> := [];
      var row := 0;
      while row < |arrayGrid|
        invariant 0 <= row <= N
        invariant |resultRow| == row
        invariant forall k :: 0 <= k < row ==> resultRow[k] == arrayGrid[k][col]
      {
        resultRow := resultRow + [arrayGrid[row][col]];
        row := row + 1;
      }
      assert resultRow == Transposed(arrayGrid)[col];
      result := result + [resultRow];
      col := col + 1;
    }
  }

  /** calculateNextLeftFunction: moveTraversable on every row. */
  method CalculateNextLeftFunction(arrayGrid: Matrix) returns (resultArrayGrid: Matrix)
    requires IsSquare(arrayGrid)
    ensures resultArrayGrid == NextLeft(arrayGrid)
  {
    resultArrayGrid := [];
    var i := 0;
    while i < |arrayGrid|
      invariant 0 <= i <= N
      invariant |resultArrayGrid| == i
      invariant forall k :: 0 <= k < i ==> resultArrayGrid[k] == MergeLeft(arrayGrid[k])
    {
      var row := MoveTraversable(arrayGrid[i]);
      resultArrayGrid := resultArrayGrid + [row];
      i := i + 1;
    }
  }

  /** calculateNextUpFunction */
  method CalculateNextUpFunction(arrayGrid: Matrix) returns (result: Matrix)
    requires IsSquare(arrayGrid)
    ensures result == NextUp(arrayGrid)
  {
    var rotatedArray := RotateArray270(arrayGrid);
    var rotatedMergedArray := CalculateNextLeftFunction(rotatedArray);
    result := RotateArray90(rotatedMergedArray);
  }

  /** calculateNextDownFunction */
  method CalculateNextDownFunction(arrayGrid: Matrix) returns (result: Matrix)
    requires IsSquare(arrayGrid)
    ensures result == NextDown(arrayGrid)
  {
    var rotatedArray := RotateArray90(arrayGrid);
    var rotatedMergedArray := CalculateNextLeftFunction(rotatedArray);
    result := RotateArray270(rotatedMergedArray);
  }

  /** calculateNextRightFunction */
  method CalculateNextRightFunction(arrayGrid: Matrix) returns (result: Matrix)
    requires IsSquare(arrayGrid)
    ensures result == NextRight(arrayGrid)
  {
    var rotatedArray := RotateArray180(arrayGrid);
    var rotatedMergedArray := CalculateNextLeftFunction(rotatedArray);
    result := RotateArray180(rotatedMergedArray);
  }

  /** calculateNextMove */
  method CalculateNextMove(arrayGrid: Matrix, dir: int) returns (result: Matrix)
    requires IsSquare(arrayGrid)
    ensures result == NextGrid(arrayGrid, dir)
  {
    if dir == 0 {
      result := CalculateNextUpFunction(arrayGrid);
    } else if dir == 1 {
      result := CalculateNextRightFunction(arrayGrid);
    } else if dir == 2 {
      result := CalculateNextDownFunction(arrayGrid);
    } else {
      result := CalculateNextLeftFunction(arrayGrid);
    }
  }
}
