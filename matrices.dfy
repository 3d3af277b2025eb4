/** The integer snapshot of the board that the simulated move engine works on:
    a 4x4 matrix of tile values, 0 for an empty cell, indexed [row][column].
    Rotations, the transpose and the counting functions used by the features. */
module Matrices {

  /** The board side; the engine hard-codes it when it pads a merged row. */
  const N: nat := 4

  type Matrix = seq<seq<int>>

  predicate IsSquare(m: Matrix) {
    |m| == N && forall i :: 0 <= i < N ==> |m[i]| == N
  }

  /** Quarter turn clockwise: row i of the result is column i read bottom-up. */
  function Rotated90(m: Matrix): (r: Matrix)
    requires IsSquare(m)
    ensures IsSquare(r)
  {
    seq(N, i requires 0 <= i < N => seq(N, j requires 0 <= j < N => m[N - 1 - j][i]))
  }

  function Rotated180(m: Matrix): (r: Matrix)
    requires IsSquare(m)
    ensures IsSquare(r)
  {
    Rotated90(Rotated90(m))
  }

  function Rotated270(m: Matrix): (r: Matrix)
    requires IsSquare(m)
    ensures IsSquare(r)
  {
    Rotated180(Rotated90(m))
  }

  function Transposed(m: Matrix): (r: Matrix)
    requires IsSquare(m)
    ensures IsSquare(r)
  {
    seq(N, c requires 0 <= c < N => seq(N, row requires 0 <= row < N => m[row][c]))
  }

  lemma Rotated180At(m: Matrix, i: int, j: int)
    requires IsSquare(m) && 0 <= i < N && 0 <= j < N
    ensures Rotated180(m)[i][j] == m[N - 1 - i][N - 1 - j]
  {
    assert Rotated180(m)[i][j] == Rotated90(m)[N - 1 - j][i];
  }

  lemma Rotated270At(m: Matrix, i: int, j: int)
    requires IsSquare(m) && 0 <= i < N && 0 <= j < N
    ensures Rotated270(m)[i][j] == m[j][N - 1 - i]
  {
    Rotated180At(Rotated90(m), i, j);
  }

  /** Two matrices of the same shape that agree cell by cell are equal. */
  lemma SameCells(a: Matrix, b: Matrix)
    requires IsSquare(a) && IsSquare(b)
    requires forall i, j :: 0 <= i < N && 0 <= j < N ==> a[i][j] == b[i][j]
    ensures a == b
  {
    forall i | 0 <= i < N
      ensures a[i] == b[i]
    {
      assert forall j :: 0 <= j < N ==> a[i][j] == b[i][j];
    }
  }

  /** Four quarter turns give back the original board. */
  lemma RotateFourTimes(m: Matrix)
    requires IsSquare(m)
    ensures Rotated90(Rotated90(Rotated90(Rotated90(m)))) == m
  {
    var r := Rotated90(Rotated90(Rotated90(Rotated90(m))));
    forall i, j | 0 <= i < N && 0 <= j < N
      ensures r[i][j] == m[i][j]
    {
      Rotated180At(m, N - 1 - j, i);
      Rotated180At(Rotated180(m), i, j);
    }
    SameCells(r, m);
  }

  /** rotateArray270 undoes rotateArray90 and the other way round. */
  lemma RotateInverse(m: Matrix)
    requires IsSquare(m)
    ensures Rotated270(Rotated90(m)) == m
    ensures Rotated90(Rotated270(m)) == m
  {
    RotateFourTimes(m);
    RotateFourTimes(Rotated90(m));
    assert Rotated90(Rotated270(Rotated90(m))) == Rotated90(m);
    forall i, j | 0 <= i < N && 0 <= j < N
      ensures Rotated90(Rotated270(m))[i][j] == m[i][j]
    {
      Rotated270At(m, N - 1 - j, i);
    }
    SameCells(Rotated90(Rotated270(m)), m);
  }

  /** A half turn is its own inverse. */
  lemma Rotate180Involution(m: Matrix)
    requires IsSquare(m)
    ensures Rotated180(Rotated180(m)) == m
  {
    RotateFourTimes(m);
  }

  lemma TransposeInvolution(m: Matrix)
    requires IsSquare(m)
    ensures Transposed(Transposed(m)) == m
  {
    SameCells(Transposed(Transposed(m)), m);
  }

  /** Quarter turns are injective: equal images come from equal boards. */
  lemma Rotated90Injective(a: Matrix, b: Matrix)
    requires IsSquare(a) && IsSquare(b)
    ensures Rotated90(a) == Rotated90(b) <==> a == b
  {
    if Rotated90(a) == Rotated90(b) {
      RotateInverse(a);
      RotateInverse(b);
    }
  }

  // ---------------------------------------------------------------------------
  // Counting

  function Sum(s: seq<int>): int {
    if s == [] then 0 else s[0] + Sum(s[1..])
  }

  function ZeroCount(s: seq<int>): (k: nat)
    ensures k <= |s|
  {
    if s == [] then 0 else (if s[0] == 0 then 1 else 0) + ZeroCount(s[1..])
  }

  function MatrixSum(m: Matrix): int {
    if m == [] then 0 else Sum(m[0]) + MatrixSum(m[1..])
  }

  /** The number of empty cells of a board. */
  function MatrixZeros(m: Matrix): nat {
    if m == [] then 0 else ZeroCount(m[0]) + MatrixZeros(m[1..])
  }

  lemma {:induction false} SumConcat(a: seq<int>, b: seq<int>)
    ensures Sum(a + b) == Sum(a) + Sum(b)
  {
    if a != [] {
      assert (a + b)[0] == a[0] && (a + b)[1..] == a[1..] + b;
      SumConcat(a[1..], b);
    } else {
      assert a + b == b;
    }
  }

  lemma {:induction false} ZeroCountConcat(a: seq<int>, b: seq<int>)
    ensures ZeroCount(a + b) == ZeroCount(a) + ZeroCount(b)
  {
    if a != [] {
      assert (a + b)[0] == a[0] && (a + b)[1..] == a[1..] + b;
      ZeroCountConcat(a[1..], b);
    } else {
      assert a + b == b;
    }
  }

  function Zero(x: int): nat {
    if x == 0 then 1 else 0
  }

  lemma Row4(s: seq<int>)
    requires |s| == N
    ensures Sum(s) == s[0] + s[1] + s[2] + s[3]
    ensures ZeroCount(s) == Zero(s[0]) + Zero(s[1]) + Zero(s[2]) + Zero(s[3])
  {
    assert s[1..][0] == s[1] && s[1..][1..] == s[2..];
    assert s[2..][0] == s[2] && s[2..][1..] == s[3..];
    assert s[3..][0] == s[3] && s[3..][1..] == [];
    assert Sum(s[3..]) == s[3];
    assert Sum(s[2..]) == s[2] + s[3];
    assert Sum(s[1..]) == s[1] + s[2] + s[3];
    assert ZeroCount(s[3..]) == Zero(s[3]);
    assert ZeroCount(s[2..]) == Zero(s[2]) + Zero(s[3]);
    assert ZeroCount(s[1..]) == Zero(s[1]) + Zero(s[2]) + Zero(s[3]);
  }

  lemma Matrix4(m: Matrix)
    requires IsSquare(m)
    ensures MatrixSum(m) == Sum(m[0]) + Sum(m[1]) + Sum(m[2]) + Sum(m[3])
    ensures MatrixZeros(m) == ZeroCount(m[0]) + ZeroCount(m[1]) + ZeroCount(m[2]) + ZeroCount(m[3])
  {
    assert m[1..][0] == m[1] && m[1..][1..] == m[2..];
    assert m[2..][0] == m[2] && m[2..][1..] == m[3..];
    assert m[3..][0] == m[3] && m[3..][1..] == [];
    assert MatrixSum(m[3..]) == Sum(m[3]);
    assert MatrixSum(m[2..]) == Sum(m[2]) + Sum(m[3]);
    assert MatrixSum(m[1..]) == Sum(m[1]) + Sum(m[2]) + Sum(m[3]);
    assert MatrixZeros(m[3..]) == ZeroCount(m[3]);
    assert MatrixZeros(m[2..]) == ZeroCount(m[2]) + ZeroCount(m[3]);
    assert MatrixZeros(m[1..]) == ZeroCount(m[1]) + ZeroCount(m[2]) + ZeroCount(m[3]);
  }

  /** The sum and the number of empty cells written out cell by cell. */
  lemma Cells16(m: Matrix)
    requires IsSquare(m)
    ensures MatrixSum(m) ==
      m[0][0] + m[0][1] + m[0][2] + m[0][3] + m[1][0] + m[1][1] + m[1][2] + m[1][3] +
      m[2][0] + m[2][1] + m[2][2] + m[2][3] + m[3][0] + m[3][1] + m[3][2] + m[3][3]
    ensures MatrixZeros(m) ==
      Zero(m[0][0]) + Zero(m[0][1]) + Zero(m[0][2]) + Zero(m[0][3]) +
      Zero(m[1][0]) + Zero(m[1][1]) + Zero(m[1][2]) + Zero(m[1][3]) +
      Zero(m[2][0]) + Zero(m[2][1]) + Zero(m[2][2]) + Zero(m[2][3]) +
      Zero(m[3][0]) + Zero(m[3][1]) + Zero(m[3][2]) + Zero(m[3][3])
  {
    Matrix4(m);
    Row4(m[0]);
    Row4(m[1]);
    Row4(m[2]);
    Row4(m[3]);
  }

  /** A quarter turn moves tiles around without creating, losing or changing any. */
  lemma Rotated90Counts(m: Matrix)
    requires IsSquare(m)
    ensures MatrixSum(Rotated90(m)) == MatrixSum(m)
    ensures MatrixZeros(Rotated90(m)) == MatrixZeros(m)
  {
    Cells16(m);
    Cells16(Rotated90(m));
  }

  lemma Rotated180Counts(m: Matrix)
    requires IsSquare(m)
    ensures MatrixSum(Rotated180(m)) == MatrixSum(m)
    ensures MatrixZeros(Rotated180(m)) == MatrixZeros(m)
  {
    Rotated90Counts(m);
    Rotated90Counts(Rotated90(m));
  }

  lemma Rotated270Counts(m: Matrix)
    requires IsSquare(m)
    ensures MatrixSum(Rotated270(m)) == MatrixSum(m)
    ensures MatrixZeros(Rotated270(m)) == MatrixZeros(m)
  {
    Rotated90Counts(m);
    Rotated180Counts(Rotated90(m));
  }

  lemma TransposedCounts(m: Matrix)
    requires IsSquare(m)
    ensures MatrixSum(Transposed(m)) == MatrixSum(m)
    ensures MatrixZeros(Transposed(m)) == MatrixZeros(m)
  {
    Cells16(m);
    Cells16(Transposed(m));
  }
}
