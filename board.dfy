/** The live board shared by both copies of the game: tiles are objects that
    know their own cell, and the grid is a size-by-size array of cells indexed
    [x, y] (x the column, y the row), each empty (null) or holding one tile. */
module Board {
  import opened Matrices
  import Simulation

  datatype Position = Position(x: int, y: int)

  datatype Option<T> = None | Some(value: T)

  /** One tile. Its value never changes after construction; a merge builds a
      new tile. `mergedFrom` is empty unless the tile was produced by a merge
      during the current move, in which case it lists the two tiles merged. */
  class Tile {
    var x: int
    var y: int
    const value: int
    var previousPosition: Option<Position>
    var mergedFrom: seq<Tile>

    /** A missing (zero) value stands for 2. */
    constructor (position: Position, value: int)
      ensures x == position.x && y == position.y
      ensures this.value == (if value == 0 then 2 else value)
      ensures previousPosition == None && mergedFrom == []
    {
      x := position.x;
      y := position.y;
      this.value := if value == 0 then 2 else value;
      previousPosition := None;
      mergedFrom := [];
    }

    method SavePosition()
      modifies this`previousPosition
      ensures previousPosition == Some(Position(x, y))
    {
      previousPosition := Some(Position(x, y));
    }

    method UpdatePosition(position: Position)
      modifies this`x, this`y
      ensures x == position.x && y == position.y
    {
      x := position.x;
      y := position.y;
    }
  }

  /** The cells are listed in the order of the grid's scans: column by column
      (x), and within a column by row (y). */
  predicate ScanBefore(p: Position, q: Position) {
    p.x < q.x || (p.x == q.x && p.y < q.y)
  }

  class Grid {
    const size: nat
    const cells: array2<Tile?>

    /** The tiles on the board. */
    ghost function Tiles(): set<Tile>
      reads this, cells
    {
      set x, y | 0 <= x < cells.Length0 && 0 <= y < cells.Length1 && cells[x, y] != null :: cells[x, y]
    }

    /** The array has the board's size, and every tile on it sits at the cell
        its own coordinates name and has a positive value. It follows that no
        tile occupies two cells. */
    ghost predicate Valid()
      reads this, cells, Tiles()`x, Tiles()`y
    {
      cells.Length0 == size && cells.Length1 == size &&
      forall x, y :: 0 <= x < size && 0 <= y < size && cells[x, y] != null ==>
        cells[x, y].x == x && cells[x, y].y == y && cells[x, y].value > 0
    }

    /** build: a board of empty cells. */
    constructor (size: nat)
      ensures this.size == size && Valid() && fresh(cells)
      ensures forall x, y :: 0 <= x < size && 0 <= y < size ==> cells[x, y] == null
    {
      this.size := size;
      cells := new Tile?[size, size]((x, y) => null);
    }

    predicate WithinBounds(position: Position) {
      0 <= position.x < size && 0 <= position.y < size
    }

    function CellContent(cell: Position): (t: Tile?)
      reads this, cells
      requires cells.Length0 == size && cells.Length1 == size
    {
      if WithinBounds(cell) then cells[cell.x, cell.y] else null
    }

    predicate CellOccupied(cell: Position)
      reads this, cells
      requires cells.Length0 == size && cells.Length1 == size
    {
      CellContent(cell) != null
    }

    predicate CellAvailable(cell: Position)
      reads this, cells
      requires cells.Length0 == size && cells.Length1 == size
    {
      !CellOccupied(cell)
    }

    /** Some cell of the board is empty. */
    ghost predicate HasEmptyCell()
      reads this, cells
      requires cells.Length0 == size && cells.Length1 == size
    {
      exists x, y :: 0 <= x < size && 0 <= y < size && cells[x, y] == null
    }

    /** The tile found at a cell is the one whose coordinates name that cell;
        outside the board there is none. */
    lemma ContentKnowsItsCell(cell: Position)
      requires Valid()
      ensures !WithinBounds(cell) ==> CellContent(cell) == null
      ensures CellContent(cell) != null ==>
        CellContent(cell) in Tiles() && CellContent(cell).x == cell.x && CellContent(cell).y == cell.y
    {
    }

    /** insertTile: the tile takes the cell its coordinates name; nothing else changes. */
    method InsertTile(tile: Tile)
      requires Valid() && WithinBounds(Position(tile.x, tile.y)) && tile.value > 0
      modifies cells
      ensures Valid()
      ensures cells[tile.x, tile.y] == tile
      ensures forall x, y :: 0 <= x < size && 0 <= y < size && (x != tile.x || y != tile.y) ==>
        cells[x, y] == old(cells[x, y])
    {
      cells[tile.x, tile.y] := tile;
    }

    /** removeTile: the cell the tile's coordinates name is emptied; nothing else changes. */
    method RemoveTile(tile: Tile)
      requires Valid() && WithinBounds(Position(tile.x, tile.y))
      modifies cells
      ensures Valid()
      ensures cells[tile.x, tile.y] == null
      ensures forall x, y :: 0 <= x < size && 0 <= y < size && (x != tile.x || y != tile.y) ==>
        cells[x, y] == old(cells[x, y])
    {
      cells[tile.x, tile.y] := null;
    }

    /** availableCells: every empty cell, each once, in scan order. */
    method AvailableCells() returns (result: seq<Position>)
      requires Valid()
      ensures forall k :: 0 <= k < |result| ==>
        WithinBounds(result[k]) && cells[result[k].x, result[k].y] == null
      ensures forall x, y :: 0 <= x < size && 0 <= y < size && cells[x, y] == null ==>
        Position(x, y) in result
      ensures forall k, l :: 0 <= k < l < |result| ==> ScanBefore(result[k], result[l])
    {
      result := [];
      var x := 0;
      while x < size
        invariant 0 <= x <= size
        invariant forall k :: 0 <= k < |result| ==>
          WithinBounds(result[k]) && cells[result[k].x, result[k].y] == null && result[k].x < x
        invariant forall x', y' :: 0 <= x' < x && 0 <= y' < size && cells[x', y'] == null ==>
          Position(x', y') in result
        invariant forall k, l :: 0 <= k < l < |result| ==> ScanBefore(result[k], result[l])
      {
        var y := 0;
        while y < size
          invariant 0 <= y <= size
          invariant forall k :: 0 <= k < |result| ==>
            WithinBounds(result[k]) && cells[result[k].x, result[k].y] == null &&
            ScanBefore(result[k], Position(x, y))
          invariant forall x', y' ::
            0 <= x' < size && 0 <= y' < size && cells[x', y'] == null && ScanBefore(Position(x', y'), Position(x, y))
            ==> Position(x', y') in result
          invariant forall k, l :: 0 <= k < l < |result| ==> ScanBefore(result[k], result[l])
        {
          if cells[x, y] == null {
            result := result + [Position(x, y)];
          }
          y := y + 1;
        }
        x := x + 1;
      }
    }

    /** cellsAvailable */
    method CellsAvailable() returns (available: bool)
      requires Valid()
      ensures available <==> HasEmptyCell()
    {
      var empty := AvailableCells();
      available := |empty| > 0;
      if available {
        assert cells[empty[0].x, empty[0].y] == null;
      } else {
        forall x, y | 0 <= x < size && 0 <= y < size
          ensures cells[x, y] == null ==> Position(x, y) in empty
        {
        }
      }
    }

    /** randomAvailableCell, with the random number in [0, 1) as a parameter:
        the empty cell at that fraction of the scan-ordered list of empty
        cells; none when the board is full. */
    method RandomAvailableCell(draw: real) returns (cell: Option<Position>)
      requires Valid() && 0.0 <= draw < 1.0
      ensures cell.None? <==> !HasEmptyCell()
      ensures cell.Some? ==> WithinBounds(cell.value) && cells[cell.value.x, cell.value.y] == null
    {
      var empty := AvailableCells();
      if |empty| > 0 {
        var n := |empty| as real;
        assert draw * n < n by {
          assert (1.0 - draw) * n > 0.0;
        }
        var k := (draw * n).Floor;
        cell := Some(empty[k]);
      } else {
        cell := None;
        forall x, y | 0 <= x < size && 0 <= y < size
          ensures cells[x, y] == null ==> Position(x, y) in empty
        {
        }
      }
    }

    /** The value in a cell, 0 when it is empty. */
    function ValueAt(x: int, y: int): int
      reads this, cells
      requires 0 <= x < cells.Length0 && 0 <= y < cells.Length1
    {
      if cells[x, y] == null then 0 else cells[x, y].value
    }

    /** getMaximumValue: the largest tile value, 0 on an empty board. */
    method GetMaximumValue() returns (maximum: int)
      requires Valid()
      ensures maximum >= 0
      ensures forall x, y :: 0 <= x < size && 0 <= y < size ==> ValueAt(x, y) <= maximum
      ensures maximum == 0 || exists x, y :: 0 <= x < size && 0 <= y < size && ValueAt(x, y) == maximum
    {
      maximum := 0;
      var x := 0;
      while x < size
        invariant 0 <= x <= size
        invariant maximum >= 0
        invariant forall x', y' :: 0 <= x' < x && 0 <= y' < size ==> ValueAt(x', y') <= maximum
        invariant maximum == 0 || exists x', y' :: 0 <= x' < size && 0 <= y' < size && ValueAt(x', y') == maximum
      {
        var y := 0;
        while y < size
          invariant 0 <= y <= size
          invariant maximum >= 0
          invariant forall x', y' :: 0 <= x' < size && 0 <= y' < size && ScanBefore(Position(x', y'), Position(x, y)) ==>
            ValueAt(x', y') <= maximum
          invariant maximum == 0 || exists x', y' :: 0 <= x' < size && 0 <= y' < size && ValueAt(x', y') == maximum
        {
          if cells[x, y] != null && cells[x, y].value > maximum {
            maximum := cells[x, y].value;
          }
          y := y + 1;
        }
        x := x + 1;
      }
    }

    /** The board as the autoplayer reads it: row r, column c holds the value
        of the cell at x = c, y = r, and 0 where the cell is empty. */
    function Snapshot(): (m: Matrix)
      reads this, cells
      requires cells.Length0 == N && cells.Length1 == N
      ensures IsSquare(m)
    {
      seq(N, r requires 0 <= r < N reads this, cells =>
        seq(N, c requires 0 <= c < N reads this, cells => ValueAt(c, r)))
    }

    /** toArray: the cells read column by column, each tile looked up by its
        own coordinates, then transposed into rows. */
    method ToArray() returns (m: Matrix)
      requires Valid() && size == N
      ensures m == Snapshot()
      ensures forall r, c :: 0 <= r < N && 0 <= c < N ==>
        m[r][c] == (if cells[c, r] == null then 0 else cells[c, r].value)
    {
      var resultMatrix: seq<seq<int>> := [];
      var row := 0;
      while row < cells.Length0
        invariant 0 <= row <= N
        invariant |resultMatrix| == row
        invariant forall k :: 0 <= k < row ==> |resultMatrix[k]| == N
        invariant forall k, c :: 0 <= k < row && 0 <= c < N ==> resultMatrix[k][c] == ValueAt(k, c)
      {
        var resultRow: seq<int> := [];
        var col := 0;
        while col < cells.Length1
          invariant 0 <= col <= N
          invariant |resultRow| == col
          invariant forall c :: 0 <= c < col ==> resultRow[c] == ValueAt(row, c)
        {
          var tile := cells[row, col];
          if tile != null {
            var cellContent := CellContent(Position(tile.x, tile.y));
            resultRow := resultRow + [if cellContent != null then cellContent.value else 0];
          } else {
            resultRow := resultRow + [0];
          }
          col := col + 1;
        }
        resultMatrix := resultMatrix + [resultRow];
        row := row + 1;
      }
      m := Simulation.TransposeArrayGrid(resultMatrix);
      SameCells(m, Snapshot());
    }
  }
}
