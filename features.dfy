/** The integer features the autoplayer reads off a board snapshot: the number
    of empty cells, whether exactly one cell is empty, and where the largest
    tile sits. Each source loop scans the matrix row by row, column by column,
    and treats a 0 cell as empty. */
module Features {
  import opened Matrices

  // ---------------------------------------------------------------------------
  // Counting empty cells during a row-major scan

  lemma {:induction false} MatrixZerosConcat(a: Matrix, b: Matrix)
    ensures MatrixZeros(a + b) == MatrixZeros(a) + MatrixZeros(b)
  {
    if a != [] {
      assert (a + b)[0] == a[0] && (a + b)[1..] == a[1..] + b;
      MatrixZerosConcat(a[1..], b);
    } else {
      assert a + b == b;
    }
  }

  /** The empty cells met by a scan that has finished rows 0..i-1 and the first j cells of row i. */
  function ScannedZeros(m: Matrix, i: int, j: int): nat
    requires 0 <= i < |m| && 0 <= j <= |m[i]|
  {
    MatrixZeros(m[..i]) + ZeroCount(m[i][..j])
  }

  lemma ScanCell(m: Matrix, i: int, j: int)
    requires 0 <= i < |m| && 0 <= j < |m[i]|
    ensures ScannedZeros(m, i, j + 1) == ScannedZeros(m, i, j) + Zero(m[i][j])
  {
    assert m[i][..j + 1] == m[i][..j] + [m[i][j]];
    ZeroCountConcat(m[i][..j], [m[i][j]]);
    assert [m[i][j]][1..] == [];
  }

  lemma ScanRow(m: Matrix, i: int)
    requires 0 <= i < |m|
    ensures MatrixZeros(m[..i + 1]) == ScannedZeros(m, i, |m[i]|)
  {
    assert m[..i + 1] == m[..i] + [m[i]];
    MatrixZerosConcat(m[..i], [m[i]]);
    assert [m[i]][1..] == [];
    assert m[i][..|m[i]|] == m[i];
  }

  /** No scan ever counts more empty cells than the whole board has. */
  lemma ScanBound(m: Matrix, i: int, j: int)
    requires 0 <= i < |m| && 0 <= j <= |m[i]|
    ensures ScannedZeros(m, i, j) <= MatrixZeros(m)
  {
    assert m == m[..i] + [m[i]] + m[i + 1..];
    MatrixZerosConcat(m[..i] + [m[i]], m[i + 1..]);
    MatrixZerosConcat(m[..i], [m[i]]);
    assert [m[i]][1..] == [];
    assert m[i] == m[i][..j] + m[i][j..];
    ZeroCountConcat(m[i][..j], m[i][j..]);
  }

  // ---------------------------------------------------------------------------
  // What the counts mean cell by cell

  lemma {:induction false} ZeroCountNone(s: seq<int>)
    ensures ZeroCount(s) == 0 <==> forall k :: 0 <= k < |s| ==> s[k] != 0
  {
    if s != [] {
      ZeroCountNone(s[1..]);
      assert forall k :: 1 <= k < |s| ==> s[k] == s[1..][k - 1];
    }
  }

  /** Position k is the one and only 0 of s. */
  predicate OnlyZeroAt(s: seq<int>, k: int) {
    0 <= k < |s| && s[k] == 0 && forall k' :: 0 <= k' < |s| && s[k'] == 0 ==> k' == k
  }

  lemma {:induction false} ZeroCountOne(s: seq<int>)
    ensures ZeroCount(s) == 1 <==> exists k :: OnlyZeroAt(s, k)
  {
    if s != [] {
      ZeroCountNone(s[1..]);
      ZeroCountOne(s[1..]);
      if ZeroCount(s) == 1 {
        OnlyZeroFound(s);
      }
      if exists k :: OnlyZeroAt(s, k) {
        OnlyZeroCounted(s);
      }
    }
  }

  /** A single 0 counted in s sits at one position: the step of ZeroCountOne. */
  lemma OnlyZeroFound(s: seq<int>)
    requires s != [] && ZeroCount(s) == 1
    requires ZeroCount(s[1..]) == 1 ==> exists k :: OnlyZeroAt(s[1..], k)
    requires ZeroCount(s[1..]) == 0 ==> forall k :: 0 <= k < |s[1..]| ==> s[1..][k] != 0
    ensures exists k :: OnlyZeroAt(s, k)
  {
    var t := s[1..];
    if s[0] == 0 {
      forall k' | 0 <= k' < |s|
        ensures s[k'] == 0 ==> k' == 0
      {
        if k' > 0 {
          assert s[k'] == t[k' - 1];
        }
      }
      assert OnlyZeroAt(s, 0);
    } else {
      var k :| OnlyZeroAt(t, k);
      assert s[k + 1] == t[k];
      forall k' | 0 <= k' < |s|
        ensures s[k'] == 0 ==> k' == k + 1
      {
        if k' > 0 {
          assert s[k'] == t[k' - 1];
        }
      }
      assert OnlyZeroAt(s, k + 1);
    }
  }

  /** A sequence with a single 0 counts one: the other step of ZeroCountOne. */
  lemma OnlyZeroCounted(s: seq<int>)
    requires s != [] && exists k :: OnlyZeroAt(s, k)
    requires (exists k :: OnlyZeroAt(s[1..], k)) ==> ZeroCount(s[1..]) == 1
    requires (forall k :: 0 <= k < |s[1..]| ==> s[1..][k] != 0) ==> ZeroCount(s[1..]) == 0
    ensures ZeroCount(s) == 1
  {
    var t := s[1..];
    var k :| OnlyZeroAt(s, k);
    if k == 0 {
      forall k' | 0 <= k' < |t|
        ensures t[k'] != 0
      {
        assert t[k'] == s[k' + 1];
      }
    } else {
      assert t[k - 1] == s[k];
      forall k' | 0 <= k' < |t|
        ensures t[k'] == 0 ==> k' == k - 1
      {
        assert t[k'] == s[k' + 1];
      }
      assert OnlyZeroAt(t, k - 1);
    }
  }

  /** Some cell of a (not necessarily square) board holds 0. */
  predicate HasEmptyCell(m: Matrix) {
    exists i, j :: 0 <= i < |m| && 0 <= j < |m[i]| && m[i][j] == 0
  }

  /** Exactly one cell of the board holds 0. */
  predicate ExactlyOneEmpty(m: Matrix) {
    exists i, j :: 0 <= i < |m| && 0 <= j < |m[i]| && m[i][j] == 0 &&
      forall i', j' :: 0 <= i' < |m| && 0 <= j' < |m[i']| && m[i'][j'] == 0 ==> i' == i && j' == j
  }

  /** The number of holes is zero exactly when no cell is empty. */
  lemma {:induction false} HolesNone(m: Matrix)
    ensures MatrixZeros(m) == 0 <==> !HasEmptyCell(m)
  {
    if m != [] {
      HolesNone(m[1..]);
      ZeroCountNone(m[0]);
      assert forall i :: 1 <= i < |m| ==> m[i] == m[1..][i - 1];
      if HasEmptyCell(m) {
        var i, j :| 0 <= i < |m| && 0 <= j < |m[i]| && m[i][j] == 0;
        if i > 0 {
          assert m[1..][i - 1][j] == 0;
        }
      }
    }
  }

  lemma OneHoleFound(m: Matrix)
    requires m != [] && MatrixZeros(m) == 1
    requires MatrixZeros(m[1..]) == 1 ==> ExactlyOneEmpty(m[1..])
    requires MatrixZeros(m[1..]) == 0 ==> !HasEmptyCell(m[1..])
    ensures ExactlyOneEmpty(m)
  {
    ZeroCountNone(m[0]);
    ZeroCountOne(m[0]);
    var t := m[1..];
    if ZeroCount(m[0]) == 1 {
      var k :| OnlyZeroAt(m[0], k);
      forall i', j' | 0 <= i' < |m| && 0 <= j' < |m[i']|
        ensures m[i'][j'] == 0 ==> i' == 0 && j' == k
      {
        if i' > 0 {
          assert m[i'][j'] == t[i' - 1][j'];
        }
      }
    } else {
      var i, j :| 0 <= i < |t| && 0 <= j < |t[i]| && t[i][j] == 0 &&
        forall i', j' :: 0 <= i' < |t| && 0 <= j' < |t[i']| && t[i'][j'] == 0 ==> i' == i && j' == j;
      assert m[i + 1][j] == 0;
      forall i', j' | 0 <= i' < |m| && 0 <= j' < |m[i']|
        ensures m[i'][j'] == 0 ==> i' == i + 1 && j' == j
      {
        if i' > 0 {
          assert m[i'][j'] == t[i' - 1][j'];
        }
      }
    }
  }

  lemma OneHoleCounted(m: Matrix)
    requires m != [] && ExactlyOneEmpty(m)
    requires MatrixZeros(m[1..]) == 1 <== ExactlyOneEmpty(m[1..])
    requires MatrixZeros(m[1..]) == 0 <== !HasEmptyCell(m[1..])
    ensures MatrixZeros(m) == 1
  {
    ZeroCountNone(m[0]);
    ZeroCountOne(m[0]);
    var t := m[1..];
    var i, j :| 0 <= i < |m| && 0 <= j < |m[i]| && m[i][j] == 0 &&
      forall i', j' :: 0 <= i' < |m| && 0 <= j' < |m[i']| && m[i'][j'] == 0 ==> i' == i && j' == j;
    if i == 0 {
      assert forall k' :: 0 <= k' < |m[0]| && m[0][k'] == 0 ==> k' == j;
      assert OnlyZeroAt(m[0], j);
      forall i', j' | 0 <= i' < |t| && 0 <= j' < |t[i']|
        ensures t[i'][j'] != 0
      {
        assert m[i' + 1][j'] == t[i'][j'];
      }
    } else {
      assert forall k' :: 0 <= k' < |m[0]| ==> m[0][k'] != 0;
      assert t[i - 1][j] == 0;
      forall i', j' | 0 <= i' < |t| && 0 <= j' < |t[i']| && t[i'][j'] == 0
        ensures i' == i - 1 && j' == j
      {
        assert m[i' + 1][j'] == 0;
      }
    }
  }

  /** The number of holes is one exactly when a single cell is empty. */
  lemma {:induction false} HolesOne(m: Matrix)
    ensures MatrixZeros(m) == 1 <==> ExactlyOneEmpty(m)
  {
    if m != [] {
      HolesNone(m[1..]);
      HolesOne(m[1..]);
      if MatrixZeros(m) == 1 {
        OneHoleFound(m);
      }
      if ExactlyOneEmpty(m) {
        OneHoleCounted(m);
      }
    }
  }

  // ---------------------------------------------------------------------------
  // The source's scans

  /** getNumberOfHoles */
  method GetNumberOfHoles(arrayGrid: Matrix) returns (result: nat)
    ensures result == MatrixZeros(arrayGrid)
  {
    result := 0;
    var iRow := 0;
    while iRow < |arrayGrid|
      invariant 0 <= iRow <= |arrayGrid|
      invariant result == MatrixZeros(arrayGrid[..iRow])
    {
      var iCol := 0;
      assert arrayGrid[iRow][..0] == [];
      while iCol < |arrayGrid[iRow]|
        invariant 0 <= iCol <= |arrayGrid[iRow]|
        invariant result == ScannedZeros(arrayGrid, iRow, iCol)
      {
        ScanCell(arrayGrid, iRow, iCol);
        if arrayGrid[iRow][iCol] == 0 {
          result := result + 1;
        }
        iCol := iCol + 1;
      }
      ScanRow(arrayGrid, iRow);
      iRow := iRow + 1;
    }
    assert arrayGrid[..iRow] == arrayGrid;
  }

  /** justOneTileEmpty: stops at the second empty cell it meets. */
  method JustOneTileEmpty(arrayGrid: Matrix) returns (r: bool)
    ensures r <==> MatrixZeros(arrayGrid) == 1
  {
    var thereAreEmpty := false;
    var i := 0;
    while i < |arrayGrid|
      invariant 0 <= i <= |arrayGrid|
      invariant MatrixZeros(arrayGrid[..i]) <= 1
      invariant thereAreEmpty <==> MatrixZeros(arrayGrid[..i]) == 1
    {
      var j := 0;
      assert arrayGrid[i][..0] == [];
      while j < |arrayGrid[i]|
        invariant 0 <= j <= |arrayGrid[i]|
        invariant ScannedZeros(arrayGrid, i, j) <= 1
        invariant thereAreEmpty <==> ScannedZeros(arrayGrid, i, j) == 1
      {
        ScanCell(arrayGrid, i, j);
        if arrayGrid[i][j] == 0 {
          if thereAreEmpty {
            ScanBound(arrayGrid, i, j + 1);
            return false;
          }
          thereAreEmpty := true;
        }
        j := j + 1;
      }
      ScanRow(arrayGrid, i);
      i := i + 1;
    }
    assert arrayGrid[..i] == arrayGrid;
    return thereAreEmpty;
  }

  /** A cell of the board as getMaximumPosition reports it. */
  datatype Cell = Cell(row: int, column: int)

  /** Cell (i, j) comes before cell (r, c) in a row-major scan. */
  predicate Before(i: int, j: int, r: int, c: int) {
    i < r || (i == r && j < c)
  }

  /** getMaximumPosition: the first cell, in row-major order, holding the
      largest positive value; (0, 0) when no cell is positive. */
  method GetMaximumPosition(arrayGrid: Matrix) returns (result: Cell)
    ensures (forall i, j :: 0 <= i < |arrayGrid| && 0 <= j < |arrayGrid[i]| ==> arrayGrid[i][j] <= 0) ==>
      result == Cell(0, 0)
    ensures |arrayGrid| > 0 && |arrayGrid[0]| > 0 ==>
      0 <= result.row < |arrayGrid| && 0 <= result.column < |arrayGrid[result.row]|
    ensures (exists i, j :: 0 <= i < |arrayGrid| && 0 <= j < |arrayGrid[i]| && arrayGrid[i][j] > 0) ==>
      0 <= result.row < |arrayGrid| && 0 <= result.column < |arrayGrid[result.row]| &&
      arrayGrid[result.row][result.column] > 0 &&
      (forall i, j :: 0 <= i < |arrayGrid| && 0 <= j < |arrayGrid[i]| ==>
        arrayGrid[i][j] <= arrayGrid[result.row][result.column]) &&
      (forall i, j :: 0 <= i < |arrayGrid| && 0 <= j < |arrayGrid[i]| && Before(i, j, result.row, result.column) ==>
        arrayGrid[i][j] < arrayGrid[result.row][result.column])
  {
    result := Cell(0, 0);
    var maximum := 0;
    var iRow := 0;
    while iRow < |arrayGrid|
      invariant 0 <= iRow <= |arrayGrid|
      invariant maximum >= 0
      invariant maximum == 0 ==> result == Cell(0, 0)
      invariant forall i, j :: 0 <= i < iRow && 0 <= j < |arrayGrid[i]| ==> arrayGrid[i][j] <= maximum
      invariant maximum > 0 ==>
        0 <= result.row < iRow && 0 <= result.column < |arrayGrid[result.row]| &&
        arrayGrid[result.row][result.column] == maximum &&
        forall i, j :: 0 <= i < |arrayGrid| && 0 <= j < |arrayGrid[i]| && Before(i, j, result.row, result.column) ==>
          arrayGrid[i][j] < maximum
    {
      var iCol := 0;
      while iCol < |arrayGrid[iRow]|
        invariant 0 <= iCol <= |arrayGrid[iRow]|
        invariant maximum >= 0
        invariant maximum == 0 ==> result == Cell(0, 0)
        invariant forall i, j :: 0 <= i < |arrayGrid| && 0 <= j < |arrayGrid[i]| && Before(i, j, iRow, iCol) ==>
          arrayGrid[i][j] <= maximum
        invariant maximum > 0 ==>
          0 <= result.row <= iRow && 0 <= result.column < |arrayGrid[result.row]| &&
          Before(result.row, result.column, iRow, iCol) &&
          arrayGrid[result.row][result.column] == maximum &&
          forall i, j :: 0 <= i < |arrayGrid| && 0 <= j < |arrayGrid[i]| && Before(i, j, result.row, result.column) ==>
            arrayGrid[i][j] < maximum
      {
        if arrayGrid[iRow][iCol] != 0 && arrayGrid[iRow][iCol] > maximum {
          result := Cell(iRow, iCol);
          maximum := arrayGrid[iRow][iCol];
        }
        iCol := iCol + 1;
      }
      iRow := iRow + 1;
    }
  }
}
