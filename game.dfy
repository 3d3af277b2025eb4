/** The live game: a manager that owns the board, the score and the over and
    won flags, and changes them in place when a move is played. The program
    carries two near-identical copies of it; they differ in what a move does
    once the game is decided (`Move` and `PlayerMove` below) and in whether a
    2048 tile wins. */
module Game {
  import opened Matrices
  import opened Board
  import Features
  import Simulation
  import MoveSelection
  import opened LiveLine
  import opened LiveBoard

  /** The two random numbers in [0, 1) that one new tile consumes: the first
      picks its value, the second its cell. */
  datatype Draw = Draw(value: real, cell: real) {
    predicate InRange() {
      0.0 <= value < 1.0 && 0.0 <= cell < 1.0
    }
  }

  function Reversed(s: seq<int>): (r: seq<int>)
    ensures |r| == |s| && forall k :: 0 <= k < |s| ==> r[k] == s[|s| - 1 - k]
  {
    seq(|s|, k requires 0 <= k < |s| => s[|s| - 1 - k])
  }

  /** The total value of a list of tiles. */
  function TotalValue(tiles: seq<Tile>): int {
    if tiles == [] then 0 else tiles[0].value + TotalValue(tiles[1..])
  }

  lemma {:induction false} TotalValueAppend(tiles: seq<Tile>, t: Tile)
    ensures TotalValue(tiles + [t]) == TotalValue(tiles) + t.value
  {
    if tiles != [] {
      assert (tiles + [t])[1..] == tiles[1..] + [t];
      TotalValueAppend(tiles[1..], t);
    }
  }

  /** One of the tiles has the winning value. */
  predicate Made2048(tiles: seq<Tile>) {
    exists k :: 0 <= k < |tiles| && tiles[k].value == 2048
  }

  /** Recording more merges adds their values to the total, and a 2048 is
      among all of them exactly when it is among the old or the new ones. */
  lemma {:induction false} RecordMerges(merges: seq<Tile>, added: seq<Tile>)
    ensures TotalValue(merges + added) == TotalValue(merges) + TotalValue(added)
    ensures Made2048(merges + added) <==> Made2048(merges) || Made2048(added)
    decreases merges
  {
    if merges == [] {
      assert merges + added == added;
    } else {
      assert (merges + added)[1..] == merges[1..] + added;
      RecordMerges(merges[1..], added);
    }
    if Made2048(merges) {
      var k :| 0 <= k < |merges| && merges[k].value == 2048;
      assert (merges + added)[k] == merges[k];
    }
    if Made2048(added) {
      var k :| 0 <= k < |added| && added[k].value == 2048;
      assert (merges + added)[|merges| + k] == added[k];
    }
    if Made2048(merges + added) {
      var k :| 0 <= k < |merges + added| && (merges + added)[k].value == 2048;
      if k < |merges| {
        assert merges[k] == (merges + added)[k];
      } else {
        assert added[k - |merges|] == (merges + added)[k];
      }
    }
  }

  /** Tiles of positive value add up to a non-negative total. */
  lemma {:induction false} PositiveTotal(tiles: seq<Tile>)
    requires forall k :: 0 <= k < |tiles| ==> tiles[k].value > 0
    ensures TotalValue(tiles) >= 0
    ensures TotalValue(tiles) == 0 <==> tiles == []
  {
    if tiles != [] {
      PositiveTotal(tiles[1..]);
    }
  }

  lemma ConcatAssociative(a: seq<Tile>, b: seq<Tile>, c: seq<Tile>)
    ensures a + b + c == a + (b + c)
  {
  }

  /** m was produced during the current move by merging two tiles of equal
      value that were on the board, unmerged, when the move began (T0). */
  ghost predicate MergedPair(m: Tile, T0: set<Tile>)
    reads m
  {
    m !in T0 && |m.mergedFrom| == 2 && m.mergedFrom[0] in T0 && m.mergedFrom[1] in T0 &&
    m.mergedFrom[0].value == m.mergedFrom[1].value && m.value == 2 * m.mergedFrom[0].value
  }

  /** Bookkeeping of a move in progress. T0 holds the tiles that were on the
      board when the move began, all unmerged; `merges` holds the tiles made
      by the merges so far. */
  ghost predicate MergesDone(T0: set<Tile>, merges: seq<Tile>)
    reads T0`mergedFrom, merges
  {
    (forall t :: t in T0 ==> t.mergedFrom == []) &&
    forall k :: 0 <= k < |merges| ==> MergedPair(merges[k], T0)
  }

  lemma ExtendMerges(T0: set<Tile>, merges: seq<Tile>, m: Tile)
    requires MergesDone(T0, merges) && MergedPair(m, T0)
    ensures MergesDone(T0, merges + [m])
  {
  }

  /** During a move, a tile on the board was made by a merge exactly when it
      was not there when the move began. */
  lemma MadeByMerge(T0: set<Tile>, merges: seq<Tile>, t: Tile)
    requires MergesDone(T0, merges) && (t in T0 || t in merges)
    ensures t.mergedFrom == [] <==> t in T0
  {
    if t !in T0 {
      var k :| 0 <= k < |merges| && merges[k] == t;
      assert MergedPair(merges[k], T0);
    }
  }

  /** The board B0 at the start of a move: each tile on it is one of T0 and
      occupies one cell only. */
  ghost predicate StartBoard(B0: seq<seq<Tile?>>, T0: set<Tile>, n: int) {
    |B0| == n && (forall x :: 0 <= x < n ==> |B0[x]| == n) &&
    (forall x, y :: 0 <= x < n && 0 <= y < n && B0[x][y] != null ==> B0[x][y] in T0) &&
    forall x1, y1, x2, y2 ::
      0 <= x1 < n && 0 <= y1 < n && 0 <= x2 < n && 0 <= y2 < n && B0[x1][y1] != null && B0[x1][y1] == B0[x2][y2]
      ==> x1 == x2 && y1 == y2
  }

  predicate IsTileBoard(B: seq<seq<Tile?>>, n: int) {
    |B| == n && forall x :: 0 <= x < n ==> |B[x]| == n
  }

  /** How a cell shows in the view of a move that began with the tiles T0:
      its tile's value, 0 when it is empty, and whether the tile was made by
      the move (it is not one of T0). */
  function Look(t: Tile?, T0: set<Tile>): Placed {
    if t == null then Vacant else Placed(t.value, t !in T0)
  }

  /** The Step of cell c on the view V of a board, in the terms move uses:
      `tile` stands on c, f is the farthest empty cell ahead of it and
      `nextTile` the tile, if any, on the cell after f. When that tile has
      the same value and is one of T0, so not made by a merge in this move,
      the two merge on its cell; otherwise the tile lands on f. */
  lemma StepOf(V: View, n: int, T0: set<Tile>, c: Position, v: Position, f: Position, next: Position,
               tile: Tile, nextTile: Tile?, merging: bool)
    requires IsView(V, n) && InBoard(c, n) && UnitVector(v) && Farthest(V, n, c, v) == f && next == Neighbour(f, v)
    requires V[c.x][c.y] == Look(tile, T0) && tile in T0 && tile.value > 0
    requires InBoard(next, n) ==> V[next.x][next.y] == Look(nextTile, T0)
    requires merging == (InBoard(next, n) && nextTile != null && nextTile.value == tile.value && nextTile in T0)
    ensures Step(V, n, c, v) ==
      if merging then Put(V, n, c, next, Placed(2 * tile.value, true)) else Put(V, n, c, f, Placed(tile.value, false))
  {
    StepIsPut(V, n, c, v, f);
  }

  /** A board of tiles as a view. */
  function ViewOf(B: seq<seq<Tile?>>, T0: set<Tile>, n: int): (V: View)
    requires IsTileBoard(B, n)
    ensures IsView(V, n) && forall x, y :: 0 <= x < n && 0 <= y < n ==> V[x][y] == Look(B[x][y], T0)
  {
    seq(n, x requires 0 <= x < n => seq(n, y requires 0 <= y < n => Look(B[x][y], T0)))
  }

  class GameManager {
    const size: nat
    const startTiles: nat
    var grid: Grid
    var score: int
    var over: bool
    var won: bool
    var movesTaken: int
    var moveLimit: int
    var rndSeed: int
    /** The cells the start tiles of the game were placed on. */
    ghost var startCells: seq<Position>

    ghost predicate Valid()
      reads this`grid, grid, grid.cells, grid.Tiles()`x, grid.Tiles()`y
    {
      grid.size == size && grid.Valid()
    }

    /** V is the board's view during a move that began with the tiles T0. */
    ghost predicate Shows(V: View, T0: set<Tile>)
      reads this`grid, grid.cells
    {
      grid.cells.Length0 == size && grid.cells.Length1 == size && IsView(V, size) &&
      forall x, y {:trigger V[x][y]} :: 0 <= x < size && 0 <= y < size ==> V[x][y] == Look(grid.cells[x, y], T0)
    }

    /** B holds the tile values of the board, indexed [x][y], 0 for an empty cell. */
    ghost predicate Holds(B: seq<seq<int>>)
      reads this`grid, grid.cells
    {
      grid.cells.Length0 == size && grid.cells.Length1 == size && IsBoard(B, size) &&
      forall x, y {:trigger B[x][y]} :: 0 <= x < size && 0 <= y < size ==>
        B[x][y] == if grid.cells[x, y] == null then 0 else grid.cells[x, y].value
    }

    lemma ShowsValues(V: View, T0: set<Tile>)
      requires Shows(V, T0)
      ensures Holds(ValuesOf(V, size))
    {
    }

    lemma HoldsUnique(A: seq<seq<int>>, B: seq<seq<int>>)
      requires Holds(A) && Holds(B)
      ensures A == B
    {
      forall x | 0 <= x < size
        ensures A[x] == B[x]
      {
      }
    }

    /** The autoplayer's snapshot is the value board read by rows. */
    lemma HoldsSnapshot(B: seq<seq<int>>)
      requires Holds(B) && size == N
      ensures grid.Snapshot() == Transposed(B)
    {
      SameCells(grid.Snapshot(), Transposed(B));
    }

    // -------------------------------------------------------------------------
    // Starting a game

    constructor (size: nat, start: seq<Draw>)
      requires |start| == 2 && forall k :: 0 <= k < |start| ==> start[k].InRange()
      ensures Valid() && this.size == size && startTiles == 2
      ensures score == 0 && !over && !won && movesTaken == 0 && moveLimit == 5000 && rndSeed == 1
      ensures |startCells| == 2 || (|startCells| < 2 && !grid.HasEmptyCell())
      ensures forall k, l :: 0 <= k < l < |startCells| ==> startCells[k] != startCells[l]
      ensures forall x, y :: 0 <= x < size && 0 <= y < size ==>
        (grid.cells[x, y] != null <==> Position(x, y) in startCells)
      ensures forall x, y :: 0 <= x < size && 0 <= y < size && grid.cells[x, y] != null ==>
        grid.cells[x, y].value == 2 || grid.cells[x, y].value == 4
    {
      this.size := size;
      startTiles := 2;
      grid := new Grid(size);
      score, over, won := 0, false, false;
      movesTaken, moveLimit, rndSeed := 0, 5000, 1;
      startCells := [];
      new;
      startCells := Setup(start);
    }

    /** setup: a fresh empty board, the counters reset, then the start tiles.
        The start tiles occupy distinct cells, one per draw, unless the board
        fills up first. */
    method Setup(start: seq<Draw>) returns (ghost spots: seq<Position>)
      requires |start| == startTiles && forall k :: 0 <= k < |start| ==> start[k].InRange()
      modifies this
      ensures Valid() && fresh(grid) && fresh(grid.cells)
      ensures score == 0 && !over && !won && movesTaken == 0 && moveLimit == 5000 && rndSeed == 1
      ensures |spots| == startTiles || (|spots| < startTiles && !grid.HasEmptyCell())
      ensures forall k, l :: 0 <= k < l < |spots| ==> spots[k] != spots[l]
      ensures forall x, y :: 0 <= x < size && 0 <= y < size ==>
        (grid.cells[x, y] != null <==> Position(x, y) in spots)
      ensures forall x, y :: 0 <= x < size && 0 <= y < size && grid.cells[x, y] != null ==>
        fresh(grid.cells[x, y]) && (grid.cells[x, y].value == 2 || grid.cells[x, y].value == 4)
    {
      grid := new Grid(size);
      rndSeed := 1;
      score := 0;
      over := false;
      won := false;
      movesTaken := 0;
      moveLimit := 5000;
      spots := AddStartTiles(start);
    }

    /** addStartTiles */
    method AddStartTiles(start: seq<Draw>) returns (ghost spots: seq<Position>)
      requires Valid() && |start| == startTiles && forall k :: 0 <= k < |start| ==> start[k].InRange()
      requires forall x, y :: 0 <= x < size && 0 <= y < size ==> grid.cells[x, y] == null
      modifies grid.cells
      ensures Valid()
      ensures |spots| == startTiles || (|spots| < startTiles && !grid.HasEmptyCell())
      ensures forall k, l :: 0 <= k < l < |spots| ==> spots[k] != spots[l]
      ensures forall x, y :: 0 <= x < size && 0 <= y < size ==>
        (grid.cells[x, y] != null <==> Position(x, y) in spots)
      ensures forall x, y :: 0 <= x < size && 0 <= y < size && grid.cells[x, y] != null ==>
        fresh(grid.cells[x, y]) && (grid.cells[x, y].value == 2 || grid.cells[x, y].value == 4)
    {
      spots := [];
      var i := 0;
      while i < startTiles
        invariant 0 <= i <= startTiles && Valid()
        invariant |spots| == i || (|spots| < i && !grid.HasEmptyCell())
        invariant forall k, l :: 0 <= k < l < |spots| ==> spots[k] != spots[l]
        invariant forall x, y :: 0 <= x < size && 0 <= y < size ==>
          (grid.cells[x, y] != null <==> Position(x, y) in spots)
        invariant forall x, y :: 0 <= x < size && 0 <= y < size && grid.cells[x, y] != null ==>
          fresh(grid.cells[x, y]) && (grid.cells[x, y].value == 2 || grid.cells[x, y].value == 4)
      {
        ghost var values := HeldValues();
        ghost var placed, _ := AddRandomTile(start[i], values);
        if placed.Some? {
          spots := spots + [placed.value];
        }
        i := i + 1;
      }
    }

    /** addRandomTile, with Math.random's two draws as a parameter: on a board
        with an empty cell, one empty cell receives a new tile, a 2 when the
        value draw is below 0.9 and a 4 otherwise; a full board is left as it is. */
    method AddRandomTile(draw: Draw, ghost B: seq<seq<int>>) returns (ghost placed: Option<Position>, ghost B': seq<seq<int>>)
      requires Valid() && draw.InRange() && Holds(B)
      modifies grid.cells
      ensures Valid()
      ensures placed.Some? <==> old(grid.HasEmptyCell())
      ensures placed.Some? ==>
        grid.WithinBounds(placed.value) && old(grid.cells[placed.value.x, placed.value.y]) == null &&
        grid.cells[placed.value.x, placed.value.y] != null && fresh(grid.cells[placed.value.x, placed.value.y]) &&
        grid.cells[placed.value.x, placed.value.y].value == (if draw.value < 0.9 then 2 else 4)
      ensures forall x, y :: 0 <= x < size && 0 <= y < size && (placed.None? || placed.value != Position(x, y)) ==>
        grid.cells[x, y] == old(grid.cells[x, y])
      ensures Holds(B') && (placed.Some? <==> HasEmpty(B, size))
      ensures placed.Some? ==> Spawned(B, B', size, placed.value, if draw.value < 0.9 then 2 else 4)
      ensures placed.None? ==> B' == B
    {
      HoldsEmpty(B);
      var available := grid.CellsAvailable();
      placed := None;
      if available {
        var value := if draw.value < 0.9 then 2 else 4;
        var cell := grid.RandomAvailableCell(draw.cell);
        var tile := new Tile(cell.value, value);
        grid.InsertTile(tile);
        placed := cell;
      }
      B' := HeldValues();
      if placed.None? {
        HoldsUnique(B, B');
      }
    }

    /** On a valid board a cell is empty exactly when its value is 0. */
    lemma HoldsEmpty(B: seq<seq<int>>)
      requires Valid() && Holds(B)
      ensures grid.HasEmptyCell() <==> HasEmpty(B, size)
    {
      if HasEmpty(B, size) {
        var x, y :| 0 <= x < size && 0 <= y < size && B[x][y] == 0;
        assert grid.cells[x, y] == null;
      }
      if grid.HasEmptyCell() {
        var x, y :| 0 <= x < size && 0 <= y < size && grid.cells[x, y] == null;
        assert B[x][y] == 0;
      }
    }

    // -------------------------------------------------------------------------
    // The pieces of a move

    /** prepareTiles: every tile on the board forgets its merge and records
        its current cell. */
    method PrepareTiles()
      requires Valid()
      modifies grid.Tiles()`mergedFrom, grid.Tiles()`previousPosition
      ensures Valid()
      ensures forall x, y :: 0 <= x < size && 0 <= y < size && grid.cells[x, y] != null ==>
        grid.cells[x, y].mergedFrom == [] && grid.cells[x, y].previousPosition == Some(Position(x, y))
    {
      var x := 0;
      while x < size
        invariant 0 <= x <= size && Valid()
        invariant forall x', y' :: 0 <= x' < x && 0 <= y' < size && grid.cells[x', y'] != null ==>
          grid.cells[x', y'].mergedFrom == [] && grid.cells[x', y'].previousPosition == Some(Position(x', y'))
      {
        var y := 0;
        while y < size
          invariant 0 <= y <= size && Valid()
          invariant forall x', y' ::
            0 <= x' < size && 0 <= y' < size && grid.cells[x', y'] != null && ScanBefore(Position(x', y'), Position(x, y))
            ==> grid.cells[x', y'].mergedFrom == [] && grid.cells[x', y'].previousPosition == Some(Position(x', y'))
        {
          var tile := grid.cells[x, y];
          if tile != null {
            tile.mergedFrom := [];
            tile.SavePosition();
          }
          y := y + 1;
        }
        x := x + 1;
      }
    }

    /** moveTile: the tile leaves its cell for `cell`, which is empty or its own. */
    method MoveTile(tile: Tile, cell: Position)
      requires Valid() && grid.WithinBounds(Position(tile.x, tile.y)) && grid.cells[tile.x, tile.y] == tile
      requires grid.WithinBounds(cell) && (grid.cells[cell.x, cell.y] == null || cell == Position(tile.x, tile.y))
      modifies grid.cells, tile`x, tile`y
      ensures Valid()
      ensures tile.x == cell.x && tile.y == cell.y && grid.cells[cell.x, cell.y] == tile
      ensures cell != Position(old(tile.x), old(tile.y)) ==> grid.cells[old(tile.x), old(tile.y)] == null
      ensures forall x, y ::
        0 <= x < size && 0 <= y < size && Position(x, y) != cell && Position(x, y) != Position(old(tile.x), old(tile.y))
        ==> grid.cells[x, y] == old(grid.cells[x, y])
    {
      grid.cells[tile.x, tile.y] := null;
      grid.cells[cell.x, cell.y] := tile;
      tile.UpdatePosition(cell);
    }

    /** positionsEqual */
    function PositionsEqual(first: Position, second: Position): (r: bool)
      ensures r <==> first == second
    {
      first.x == second.x && first.y == second.y
    }

    /** buildTraversals: on each axis the indices 0..size-1 in ascending
        order, reversed exactly when the vector's component on that axis is 1,
        so that the cells farthest in the direction of the move come first. */
    method BuildTraversals(vector: Position) returns (xs: seq<int>, ys: seq<int>)
      ensures |xs| == size && |ys| == size
      ensures forall k :: 0 <= k < size ==> xs[k] == (if vector.x == 1 then size - 1 - k else k)
      ensures forall k :: 0 <= k < size ==> ys[k] == (if vector.y == 1 then size - 1 - k else k)
      ensures forall v :: 0 <= v < size ==> v in xs && v in ys
      ensures forall k, l :: 0 <= k < l < size ==> (if vector.x == 1 then xs[k] > xs[l] else xs[k] < xs[l])
      ensures forall k, l :: 0 <= k < l < size ==> (if vector.y == 1 then ys[k] > ys[l] else ys[k] < ys[l])
    {
      xs, ys := [], [];
      var pos := 0;
      while pos < size
        invariant 0 <= pos <= size && |xs| == pos && |ys| == pos
        invariant forall k :: 0 <= k < pos ==> xs[k] == k && ys[k] == k
      {
        xs := xs + [pos];
        ys := ys + [pos];
        pos := pos + 1;
      }
      if vector.x == 1 {
        xs := Reversed(xs);
      }
      if vector.y == 1 {
        ys := Reversed(ys);
      }
      forall v | 0 <= v < size
        ensures v in xs && v in ys
      {
        var kx := if vector.x == 1 then size - 1 - v else v;
        var ky := if vector.y == 1 then size - 1 - v else v;
        assert xs[kx] == v && ys[ky] == v;
      }
    }

    /** findFarthestPosition: walking from `cell` along the vector through
        empty cells, `farthest` is the last cell reached on the board and
        `next` the first one beyond it, off the board or occupied. */
    method FindFarthestPosition(cell: Position, vector: Position, ghost T0: set<Tile>, ghost V: View)
      returns (farthest: Position, next: Position)
      requires Valid() && grid.WithinBounds(cell) && UnitVector(vector) && Shows(V, T0)
      ensures grid.WithinBounds(farthest)
      ensures next == Position(farthest.x + vector.x, farthest.y + vector.y)
      ensures !grid.WithinBounds(next) || grid.CellOccupied(next)
      ensures farthest == cell || (Ahead(cell, vector, farthest) && grid.CellAvailable(farthest))
      ensures Farthest(V, size, cell, vector) == farthest
    {
      var previous := cell;
      var current := Position(previous.x + vector.x, previous.y + vector.y);
      ghost var steps: nat := 0;
      while grid.WithinBounds(current) && grid.CellAvailable(current)
        invariant grid.WithinBounds(previous)
        invariant current == Position(previous.x + vector.x, previous.y + vector.y)
        invariant previous == Shift(cell, vector, steps)
        invariant forall i :: 1 <= i <= steps ==>
          grid.WithinBounds(Shift(cell, vector, i)) && grid.CellAvailable(Shift(cell, vector, i))
        invariant steps < size
        decreases size - steps
      {
        ShiftStep(cell, vector, steps);
        previous := current;
        steps := steps + 1;
        current := Position(previous.x + vector.x, previous.y + vector.y);
        ShiftBound(cell, vector, steps, size);
      }
      farthest, next := previous, current;
      if steps > 0 {
        ShiftAhead(cell, vector, steps);
      }
      FarthestShown(V, T0, cell, vector, steps);
    }

    /** The walk over empty cells on the board is the walk over vacant cells in its view. */
    lemma FarthestShown(V: View, T0: set<Tile>, cell: Position, vector: Position, steps: nat)
      requires Valid() && Shows(V, T0) && InBoard(cell, size) && UnitVector(vector)
      requires forall i :: 1 <= i <= steps ==>
        grid.WithinBounds(Shift(cell, vector, i)) && grid.CellAvailable(Shift(cell, vector, i))
      requires var next := Neighbour(Shift(cell, vector, steps), vector);
        !grid.WithinBounds(next) || grid.CellOccupied(next)
      ensures Farthest(V, size, cell, vector) == Shift(cell, vector, steps)
    {
      forall i | 1 <= i <= steps
        ensures InBoard(Shift(cell, vector, i), size) && V[Shift(cell, vector, i).x][Shift(cell, vector, i).y].value == 0
      {
        var p := Shift(cell, vector, i);
        assert V[p.x][p.y] == Look(grid.cells[p.x, p.y], T0);
      }
      var next := Neighbour(Shift(cell, vector, steps), vector);
      if InBoard(next, size) {
        assert V[next.x][next.y] == Look(grid.cells[next.x, next.y], T0);
      }
      FarthestIs(V, size, cell, vector, steps);
    }

    /** The tile at (x, y) has a neighbour in the given direction with the same value. */
    predicate MatchAt(x: int, y: int, direction: int)
      reads this`grid, grid, grid.cells
      requires grid.cells.Length0 == grid.size && grid.cells.Length1 == grid.size
      requires 0 <= x < grid.size && 0 <= y < grid.size && 0 <= direction <= 3
    {
      var other := grid.CellContent(Position(x + Vector(direction).x, y + Vector(direction).y));
      grid.cells[x, y] != null && other != null && other.value == grid.cells[x, y].value
    }

    /** Two orthogonally adjacent tiles have the same value. */
    predicate TileMatches()
      reads this`grid, grid, grid.cells
      requires grid.cells.Length0 == grid.size && grid.cells.Length1 == grid.size
    {
      exists x, y, direction :: 0 <= x < grid.size && 0 <= y < grid.size && 0 <= direction <= 3 &&
        MatchAt(x, y, direction)
    }

    /** tileMatchesAvailable: scans every tile and its four neighbours. */
    method TileMatchesAvailable() returns (found: bool)
      requires Valid()
      ensures found <==> TileMatches()
    {
      var x := 0;
      while x < size
        invariant 0 <= x <= size
        invariant forall x', y', d :: 0 <= x' < x && 0 <= y' < size && 0 <= d <= 3 ==> !MatchAt(x', y', d)
      {
        var y := 0;
        while y < size
          invariant 0 <= y <= size
          invariant forall x', y', d ::
            0 <= x' < size && 0 <= y' < size && 0 <= d <= 3 && ScanBefore(Position(x', y'), Position(x, y))
            ==> !MatchAt(x', y', d)
        {
          var tile := grid.CellContent(Position(x, y));
          if tile != null {
            var direction := 0;
            while direction < 4
              invariant 0 <= direction <= 4
              invariant forall d :: 0 <= d < direction ==> !MatchAt(x, y, d)
            {
              var vector := Vector(direction);
              var cell := Position(x + vector.x, y + vector.y);
              var other := grid.CellContent(cell);
              if other != null && other.value == tile.value {
                assert MatchAt(x, y, direction);
                return true;
              }
              direction := direction + 1;
            }
          }
          y := y + 1;
        }
        x := x + 1;
      }
      return false;
    }

    /** The game's test for a possible move: an empty cell or two equal neighbours. */
    ghost predicate MovesLeft()
      reads this`grid, grid, grid.cells
      requires grid.cells.Length0 == grid.size && grid.cells.Length1 == grid.size
    {
      grid.HasEmptyCell() || TileMatches()
    }

    /** movesAvailable */
    method MovesAvailable() returns (available: bool)
      requires Valid()
      ensures available <==> MovesLeft()
    {
      available := grid.CellsAvailable();
      if !available {
        available := TileMatchesAvailable();
      }
    }

    // -------------------------------------------------------------------------
    // A move

    /** Every tile on the board was there when the move began or was made by one of its merges. */
    ghost predicate Covered(T0: set<Tile>, merges: seq<Tile>)
      reads this`grid, grid.cells
    {
      grid.cells.Length0 == grid.size && grid.cells.Length1 == grid.size &&
      forall x, y :: 0 <= x < grid.size && 0 <= y < grid.size && grid.cells[x, y] != null ==>
        grid.cells[x, y] in T0 || grid.cells[x, y] in merges
    }

    /** The board side of a merge: a new tile of twice the value, recording
        the two it was made from, replaces `next` in its cell, and `tile`
        leaves its own cell and takes the coordinates of the merge. */
    method PlaceMerged(tile: Tile, next: Tile) returns (merged: Tile)
      requires Valid()
      requires grid.WithinBounds(Position(tile.x, tile.y)) && grid.cells[tile.x, tile.y] == tile
      requires grid.WithinBounds(Position(next.x, next.y)) && grid.cells[next.x, next.y] == next
      requires tile != next && next.value == tile.value
      modifies grid.cells, tile`x, tile`y
      ensures Valid() && fresh(merged) && merged.value == 2 * tile.value && merged.mergedFrom == [tile, next]
      ensures tile.x == next.x && tile.y == next.y && merged.x == next.x && merged.y == next.y
      ensures grid.cells[old(tile.x), old(tile.y)] == null && grid.cells[next.x, next.y] == merged
      ensures forall x, y ::
        0 <= x < size && 0 <= y < size && Position(x, y) != Position(next.x, next.y) &&
        Position(x, y) != Position(old(tile.x), old(tile.y))
        ==> grid.cells[x, y] == old(grid.cells[x, y])
    {
      merged := new Tile(Position(next.x, next.y), tile.value * 2);
      merged.mergedFrom := [tile, next];
      grid.InsertTile(merged);
      grid.RemoveTile(tile);
      assert forall x, y :: 0 <= x < size && 0 <= y < size ==> grid.cells[x, y] != tile;
      tile.UpdatePosition(Position(next.x, next.y));
    }

    /** The merge branch of move's traversal: PlaceMerged, then the score
        grows by the new value and a 2048 wins when that is tracked. The new
        tile joins the record of the move's merges. */
    method MergeTiles(tile: Tile, next: Tile, trackWon: bool, ghost T0: set<Tile>, ghost merges: seq<Tile>)
      returns (merged: Tile)
      requires Valid() && MergesDone(T0, merges) && Covered(T0, merges)
      requires grid.WithinBounds(Position(tile.x, tile.y)) && grid.cells[tile.x, tile.y] == tile && tile in T0
      requires grid.WithinBounds(Position(next.x, next.y)) && grid.cells[next.x, next.y] == next && next in T0
      requires tile != next && next.value == tile.value
      modifies this`score, this`won, grid.cells, tile`x, tile`y
      ensures Valid() && fresh(merged) && merged.value == 2 * tile.value
      ensures MergesDone(T0, merges + [merged]) && Covered(T0, merges + [merged])
      ensures tile.x == next.x && tile.y == next.y && merged.x == next.x && merged.y == next.y
      ensures grid.cells[old(tile.x), old(tile.y)] == null && grid.cells[next.x, next.y] == merged
      ensures forall x, y ::
        0 <= x < size && 0 <= y < size && Position(x, y) != Position(next.x, next.y) &&
        Position(x, y) != Position(old(tile.x), old(tile.y))
        ==> grid.cells[x, y] == old(grid.cells[x, y])
      ensures score == old(score) + merged.value
      ensures won == (old(won) || (trackWon && merged.value == 2048))
    {
      assert tile !in merges;
      merged := PlaceMerged(tile, next);
      ExtendMerges(T0, merges, merged);
      score := score + merged.value;
      if trackWon && merged.value == 2048 {
        won := true;
      }
    }

    /** The body of move's traversal for one cell: its tile, if any, slides
        along the vector as far as empty cells allow and merges into the tile
        it runs into when that tile has the same value and is not itself the
        product of a merge in this move. Only the cell and cells ahead of it
        change. */
    method MoveCell(cell: Position, vector: Position, trackWon: bool, ghost T0: set<Tile>, ghost merges: seq<Tile>,
                    ghost V: View)
      returns (tileMoved: bool, ghost added: seq<Tile>, ghost target: Position)
      requires Valid() && UnitVector(vector) && grid.WithinBounds(cell)
      requires MergesDone(T0, merges) && Covered(T0, merges)
      requires grid.cells[cell.x, cell.y] == null || grid.cells[cell.x, cell.y] in T0
      requires Shows(V, T0)
      modifies this`score, this`won, grid.cells, grid.cells[cell.x, cell.y]
      ensures Valid() && |added| <= 1
      ensures MergesDone(T0, merges + added) && Covered(T0, merges + added)
      ensures score == old(score) + TotalValue(added)
      ensures won == (old(won) || (trackWon && |added| == 1 && added[0].value == 2048))
      ensures grid.WithinBounds(target) && (target == cell || Ahead(cell, vector, target))
      ensures forall x, y ::
        0 <= x < size && 0 <= y < size && Position(x, y) != cell && Position(x, y) != target
        ==> grid.cells[x, y] == old(grid.cells[x, y])
      ensures grid.cells[cell.x, cell.y] == old(grid.cells[cell.x, cell.y]) || grid.cells[cell.x, cell.y] == null
      ensures tileMoved ==>
        old(grid.cells[cell.x, cell.y]) != null && grid.cells[cell.x, cell.y] != old(grid.cells[cell.x, cell.y])
      ensures !tileMoved ==>
        added == [] && score == old(score) && won == old(won) &&
        target == cell && grid.cells[cell.x, cell.y] == old(grid.cells[cell.x, cell.y])
      ensures Shows(Step(V, size, cell, vector), T0)
    {
      added := [];
      tileMoved := false;
      target := cell;
      var tile := grid.CellContent(cell);
      if tile != null {
        var far, next := FindFarthestPosition(cell, vector, T0, V);
        added, target := SlideFrom(tile, cell, vector, far, next, trackWon, T0, merges, V);
        tileMoved := !PositionsEqual(cell, Position(tile.x, tile.y));
      } else {
        assert Step(V, size, cell, vector) == V;
      }
    }

    /** MoveCell for a cell that holds a tile: the tile ends on target, which
        is the cell itself or a cell ahead of it, and the view of the board
        is the Step of the cell. */
    method SlideFrom(tile: Tile, cell: Position, vector: Position, far: Position, next: Position, trackWon: bool,
                     ghost T0: set<Tile>, ghost merges: seq<Tile>, ghost V: View)
      returns (ghost added: seq<Tile>, ghost target: Position)
      requires Valid() && UnitVector(vector) && grid.WithinBounds(cell)
      requires MergesDone(T0, merges) && Covered(T0, merges)
      requires grid.cells[cell.x, cell.y] == tile && tile in T0
      requires Shows(V, T0)
      requires grid.WithinBounds(far) && next == Position(far.x + vector.x, far.y + vector.y)
      requires !grid.WithinBounds(next) || grid.CellOccupied(next)
      requires far == cell || (Ahead(cell, vector, far) && grid.CellAvailable(far))
      requires Farthest(V, size, cell, vector) == far
      modifies this`score, this`won, grid.cells, tile`x, tile`y
      ensures Valid() && |added| <= 1
      ensures MergesDone(T0, merges + added) && Covered(T0, merges + added)
      ensures score == old(score) + TotalValue(added)
      ensures won == (old(won) || (trackWon && |added| == 1 && added[0].value == 2048))
      ensures grid.WithinBounds(target) && (target == cell || Ahead(cell, vector, target))
      ensures tile.x == target.x && tile.y == target.y
      ensures forall x, y ::
        0 <= x < size && 0 <= y < size && Position(x, y) != cell && Position(x, y) != target
        ==> grid.cells[x, y] == old(grid.cells[x, y])
      ensures target == cell ==> added == [] && grid.cells[cell.x, cell.y] == tile
      ensures target != cell ==> grid.cells[cell.x, cell.y] == null
      ensures Shows(Step(V, size, cell, vector), T0)
    {
      AheadStep(cell, vector, far);
      ghost var nextTile := if grid.WithinBounds(next) then grid.cells[next.x, next.y] else null;
      ghost var merging := InBoard(next, size) && nextTile != null && nextTile.value == tile.value && nextTile in T0;
      StepOf(V, size, T0, cell, vector, far, next, tile, nextTile, merging);
      ghost var merged;
      added, target, merged := SlideTile(tile, cell, vector, far, next, trackWon, T0, merges, V);
    }

    /** The rest of move's traversal for one cell, once the farthest empty
        cell ahead of its tile and the cell `next` beyond it are known: the
        tile merges into the tile at `next` when that has the same value and
        is not itself the product of a merge in this move, and otherwise
        moves to `farthest`. */
    method SlideTile(tile: Tile, cell: Position, vector: Position, farthest: Position, next: Position, trackWon: bool,
                     ghost T0: set<Tile>, ghost merges: seq<Tile>, ghost V: View)
      returns (ghost added: seq<Tile>, ghost target: Position, ghost merging: bool)
      requires Valid() && MergesDone(T0, merges) && Covered(T0, merges) && Shows(V, T0)
      requires grid.WithinBounds(cell) && grid.cells[cell.x, cell.y] == tile && tile in T0
      requires grid.WithinBounds(farthest) && (farthest == cell || grid.cells[farthest.x, farthest.y] == null)
      requires next != cell && (!grid.WithinBounds(next) || next != farthest)
      modifies this`score, this`won, grid.cells, tile`x, tile`y
      ensures Valid() && |added| <= 1
      ensures MergesDone(T0, merges + added) && Covered(T0, merges + added)
      ensures score == old(score) + TotalValue(added)
      ensures won == (old(won) || (trackWon && |added| == 1 && added[0].value == 2048))
      ensures merging == (InBoard(next, size) && old(grid.cells[next.x, next.y]) != null &&
        old(grid.cells[next.x, next.y]).value == tile.value && old(grid.cells[next.x, next.y]) in T0)
      ensures target == (if merging then next else farthest) && tile.x == target.x && tile.y == target.y
      ensures !merging ==> grid.cells[target.x, target.y] == tile && added == []
      ensures cell != target ==> grid.cells[cell.x, cell.y] == null
      ensures forall x, y ::
        0 <= x < size && 0 <= y < size && Position(x, y) != cell && Position(x, y) != target
        ==> grid.cells[x, y] == old(grid.cells[x, y])
      ensures Look(grid.cells[target.x, target.y], T0) ==
        if merging then Placed(2 * tile.value, true) else Placed(tile.value, false)
      ensures Shows(Put(V, size, cell, target, Look(grid.cells[target.x, target.y], T0)), T0)
    {
      added := [];
      var nextTile := grid.CellContent(next);
      merging := InBoard(next, size) && nextTile != null && nextTile.value == tile.value && nextTile in T0;
      if nextTile != null {
        MadeByMerge(T0, merges, nextTile);
      }
      if nextTile != null && nextTile.value == tile.value && nextTile.mergedFrom == [] {
        var merged := MergeTiles(tile, nextTile, trackWon, T0, merges);
        added := [merged];
        target := next;
      } else {
        MoveTile(tile, farthest);
        target := farthest;
      }
      ShowsPut(V, T0, cell, target);
    }

    /** On a board that held the tiles B, seen as the view V, a tile placed
        on cell d, with cell c emptied and nothing else changed, makes the
        Put on the view. */
    lemma ShowsPut(V: View, T0: set<Tile>, c: Position, d: Position)
      requires IsView(V, size) && InBoard(c, size) && InBoard(d, size)
      requires grid.cells.Length0 == size && grid.cells.Length1 == size
      requires c != d ==> grid.cells[c.x, c.y] == null
      requires forall x, y :: 0 <= x < size && 0 <= y < size && Position(x, y) != c && Position(x, y) != d ==>
        V[x][y] == Look(grid.cells[x, y], T0)
      ensures Shows(Put(V, size, c, d, Look(grid.cells[d.x, d.y], T0)), T0)
    {
    }

    /** The place of index v in a traversal of 0..size-1, reversed or not. */
    function Rank(v: int, reversed: bool): int {
      if reversed then size - 1 - v else v
    }

    /** Cell (x, y) has been handled once the traversal stands at place j of
        the y order within place i of the x order. */
    predicate Visited(x: int, y: int, vector: Position, i: int, j: int) {
      Rank(x, vector.x == 1) < i || (Rank(x, vector.x == 1) == i && Rank(y, vector.y == 1) < j)
    }

    /** Once the cell at place (i, j) has been handled, it and every cell
        ahead of it in the direction of the move count as visited. */
    lemma NextVisited(vector: Position, i: int, j: int, cell: Position, p: Position)
      requires UnitVector(vector) && 0 <= i < size && 0 <= j < size
      requires Rank(cell.x, vector.x == 1) == i && Rank(cell.y, vector.y == 1) == j
      requires 0 <= p.x < size && 0 <= p.y < size
      ensures Visited(p.x, p.y, vector, i, j) ==> Visited(p.x, p.y, vector, i, j + 1)
      ensures p == cell || Ahead(cell, vector, p) ==> Visited(p.x, p.y, vector, i, j + 1)
      ensures !Visited(cell.x, cell.y, vector, i, j)
    {
    }

    /** The cells of the board as a value, indexed [x][y]. */
    ghost function Board(): (b: seq<seq<Tile?>>)
      reads this`grid, grid.cells
      requires grid.cells.Length0 == size && grid.cells.Length1 == size
      ensures IsTileBoard(b, size)
      ensures forall x, y :: 0 <= x < size && 0 <= y < size ==> b[x][y] == grid.cells[x, y]
    {
      var a := grid.cells;
      seq(size, x requires 0 <= x < size reads a => seq(size, y requires 0 <= y < size reads a => a[x, y]))
    }

    /** The traversal of a move, begun on board B0 with the tiles T0 and
        score and won flag score0 and won0, stands at place (i, j): the merges
        so far are recorded and counted; no cell changed unless a tile moved,
        and then only visited cells changed, wc being one that did. */
    ghost predicate Progress(vector: Position, trackWon: bool, T0: set<Tile>, B0: seq<seq<Tile?>>,
                             score0: int, won0: bool, i: int, j: int,
                             moved: bool, merges: seq<Tile>, wc: Position)
      reads this`score, this`won, this`grid, grid, grid.cells, grid.Tiles()`x, grid.Tiles()`y, T0`mergedFrom, merges
    {
      Valid() && |B0| == size && (forall x :: 0 <= x < size ==> |B0[x]| == size) &&
      MergesDone(T0, merges) && Covered(T0, merges) &&
      score == score0 + TotalValue(merges) && won == (won0 || (trackWon && Made2048(merges))) &&
      (forall x, y ::
        0 <= x < size && 0 <= y < size && (!moved || !Visited(x, y, vector, i, j))
        ==> grid.cells[x, y] == B0[x][y]) &&
      (!moved ==> merges == []) &&
      (moved ==>
        0 <= wc.x < size && 0 <= wc.y < size && Visited(wc.x, wc.y, vector, i, j) &&
        B0[wc.x][wc.y] != null && grid.cells[wc.x, wc.y] != B0[wc.x][wc.y])
    }

    lemma StartBoardOf(T0: set<Tile>)
      requires Valid() && T0 == grid.Tiles()
      ensures StartBoard(Board(), T0, size)
    {
      forall x, y | 0 <= x < size && 0 <= y < size && grid.cells[x, y] != null
        ensures grid.cells[x, y] in T0
      {
        grid.ContentKnowsItsCell(Position(x, y));
      }
    }

    /** The board's view V, in a move that began on the view V0 with the
        tiles T0, is that of the traversal standing at place (i, j): each
        line has had its first cells merged and laid from the wall. */
    ghost predicate Sliding(vector: Position, T0: set<Tile>, V0: View, V: View, i: int, j: int)
      reads this`grid, grid.cells
    {
      Shows(V, T0) && IsView(V0, size) && Unmerged(V0, size) && V == Slid(V0, vector, size, i, j)
    }

    /** One step of the traversal: the cell at place (i, j) goes through
        MoveCell, and `moved` is set when its tile moved. */
    method TraverseCell(vector: Position, trackWon: bool, cell: Position, i: int, j: int,
                        ghost T0: set<Tile>, ghost B0: seq<seq<Tile?>>, ghost score0: int, ghost won0: bool,
                        moved: bool, ghost merges: seq<Tile>, ghost wc: Position, ghost V0: View, ghost V: View)
      returns (moved': bool, ghost merges': seq<Tile>, ghost wc': Position, ghost V': View)
      requires UnitVector(vector) && 0 <= i < size && 0 <= j < size && 0 <= cell.x < size && 0 <= cell.y < size
      requires Rank(cell.x, vector.x == 1) == i && Rank(cell.y, vector.y == 1) == j
      requires Progress(vector, trackWon, T0, B0, score0, won0, i, j, moved, merges, wc)
      requires StartBoard(B0, T0, size)
      requires Sliding(vector, T0, V0, V, i, j)
      modifies this`score, this`won, grid.cells, T0
      ensures Progress(vector, trackWon, T0, B0, score0, won0, i, j + 1, moved', merges', wc')
      ensures Sliding(vector, T0, V0, V', i, j + 1)
    {
      assert cell == Visit(vector, size, i, j);
      SlidStep(V0, vector, size, i, j);
      V' := Step(V, size, cell, vector);
      ghost var B, score1, won1 := Board(), score, won;
      ghost var added, target;
      var tileMoved;
      tileMoved, added, target := MoveCell(cell, vector, trackWon, T0, merges, V);
      ProgressStep(vector, trackWon, cell, i, j, T0, B0, score0, won0, moved, merges, wc, B, score1, won1,
                   tileMoved, added, target);
      merges' := merges + added;
      moved', wc' := moved || tileMoved, if tileMoved then cell else wc;
    }

    /** The bookkeeping of a move carries over one call of MoveCell, made
        on the board B with score score1 and won flag won1: if the traversal
        stood at place (i, j) there, it stands at (i, j + 1) now. */
    lemma ProgressStep(vector: Position, trackWon: bool, cell: Position, i: int, j: int,
                       T0: set<Tile>, B0: seq<seq<Tile?>>, score0: int, won0: bool,
                       moved: bool, merges: seq<Tile>, wc: Position,
                       B: seq<seq<Tile?>>, score1: int, won1: bool, tileMoved: bool, added: seq<Tile>,
                       target: Position)
      requires UnitVector(vector) && 0 <= i < size && 0 <= j < size && 0 <= cell.x < size && 0 <= cell.y < size
      requires Rank(cell.x, vector.x == 1) == i && Rank(cell.y, vector.y == 1) == j
      requires IsTileBoard(B0, size) && IsTileBoard(B, size)
      requires score1 == score0 + TotalValue(merges) && won1 == (won0 || (trackWon && Made2048(merges)))
      requires forall x, y :: 0 <= x < size && 0 <= y < size && (!moved || !Visited(x, y, vector, i, j)) ==>
        B[x][y] == B0[x][y]
      requires !moved ==> merges == []
      requires moved ==>
        0 <= wc.x < size && 0 <= wc.y < size && Visited(wc.x, wc.y, vector, i, j) &&
        B0[wc.x][wc.y] != null && B[wc.x][wc.y] != B0[wc.x][wc.y]
      requires Valid() && MergesDone(T0, merges + added) && Covered(T0, merges + added)
      requires |added| <= 1 && score == score1 + TotalValue(added)
      requires won == (won1 || (trackWon && |added| == 1 && added[0].value == 2048))
      requires 0 <= target.x < size && 0 <= target.y < size && (target == cell || Ahead(cell, vector, target))
      requires forall x, y ::
        0 <= x < size && 0 <= y < size && Position(x, y) != cell && Position(x, y) != target
        ==> grid.cells[x, y] == B[x][y]
      requires tileMoved ==> B[cell.x][cell.y] != null && grid.cells[cell.x, cell.y] != B[cell.x][cell.y]
      requires !tileMoved ==> added == [] && target == cell && grid.cells[cell.x, cell.y] == B[cell.x][cell.y]
      ensures Progress(vector, trackWon, T0, B0, score0, won0, i, j + 1, moved || tileMoved, merges + added,
                       if tileMoved then cell else wc)
    {
      RecordMerges(merges, added);
      if added != [] {
        assert Made2048(added) <==> added[0].value == 2048;
      }
      FrameStep(vector, cell, i, j, B0, moved, wc, B, tileMoved, target);
    }

    /** The part of ProgressStep about the cells: only visited cells have
        changed since B0, and the cell recorded as changed still differs. */
    lemma FrameStep(vector: Position, cell: Position, i: int, j: int, B0: seq<seq<Tile?>>,
                    moved: bool, wc: Position, B: seq<seq<Tile?>>, tileMoved: bool, target: Position)
      requires UnitVector(vector) && 0 <= i < size && 0 <= j < size && 0 <= cell.x < size && 0 <= cell.y < size
      requires Rank(cell.x, vector.x == 1) == i && Rank(cell.y, vector.y == 1) == j
      requires IsTileBoard(B0, size) && IsTileBoard(B, size)
      requires grid.cells.Length0 == size && grid.cells.Length1 == size
      requires forall x, y :: 0 <= x < size && 0 <= y < size && (!moved || !Visited(x, y, vector, i, j)) ==>
        B[x][y] == B0[x][y]
      requires moved ==>
        0 <= wc.x < size && 0 <= wc.y < size && Visited(wc.x, wc.y, vector, i, j) &&
        B0[wc.x][wc.y] != null && B[wc.x][wc.y] != B0[wc.x][wc.y]
      requires 0 <= target.x < size && 0 <= target.y < size && (target == cell || Ahead(cell, vector, target))
      requires forall x, y ::
        0 <= x < size && 0 <= y < size && Position(x, y) != cell && Position(x, y) != target
        ==> grid.cells[x, y] == B[x][y]
      requires tileMoved ==> B[cell.x][cell.y] != null && grid.cells[cell.x, cell.y] != B[cell.x][cell.y]
      requires !tileMoved ==> target == cell && grid.cells[cell.x, cell.y] == B[cell.x][cell.y]
      ensures forall x, y ::
        0 <= x < size && 0 <= y < size && (!(moved || tileMoved) || !Visited(x, y, vector, i, j + 1))
        ==> grid.cells[x, y] == B0[x][y]
      ensures moved || tileMoved ==>
        var wc' := if tileMoved then cell else wc;
        0 <= wc'.x < size && 0 <= wc'.y < size && Visited(wc'.x, wc'.y, vector, i, j + 1) &&
        B0[wc'.x][wc'.y] != null && grid.cells[wc'.x, wc'.y] != B0[wc'.x][wc'.y]
    {
      NextVisited(vector, i, j, cell, cell);
      NextVisited(vector, i, j, cell, target);
      if moved {
        NextVisited(vector, i, j, cell, wc);
      }
    }

    /** The end of one column of the traversal is the start of the next. */
    lemma NextLine(vector: Position, trackWon: bool, T0: set<Tile>, B0: seq<seq<Tile?>>,
                   score0: int, won0: bool, i: int, moved: bool, merges: seq<Tile>, wc: Position)
      requires 0 <= i < size
      requires Progress(vector, trackWon, T0, B0, score0, won0, i, size, moved, merges, wc)
      ensures Progress(vector, trackWon, T0, B0, score0, won0, i + 1, 0, moved, merges, wc)
    {
      forall x, y | 0 <= x < size && 0 <= y < size
        ensures Visited(x, y, vector, i, size) == Visited(x, y, vector, i + 1, 0)
      {
      }
    }

    /** One column x of the traversal, at place i, its cells taken in the
        order ys. */
    method TraverseLine(vector: Position, trackWon: bool, x: int, ys: seq<int>, i: int,
                        ghost T0: set<Tile>, ghost B0: seq<seq<Tile?>>, ghost score0: int, ghost won0: bool,
                        moved: bool, ghost merges: seq<Tile>, ghost wc: Position, ghost V0: View, ghost V: View)
      returns (moved': bool, ghost merges': seq<Tile>, ghost wc': Position, ghost V': View)
      requires UnitVector(vector) && 0 <= i < size && 0 <= x < size && Rank(x, vector.x == 1) == i
      requires |ys| == size && forall k :: 0 <= k < size ==> ys[k] == (if vector.y == 1 then size - 1 - k else k)
      requires Progress(vector, trackWon, T0, B0, score0, won0, i, 0, moved, merges, wc)
      requires StartBoard(B0, T0, size)
      requires Sliding(vector, T0, V0, V, i, 0)
      modifies this`score, this`won, grid.cells, T0
      ensures Progress(vector, trackWon, T0, B0, score0, won0, i + 1, 0, moved', merges', wc')
      ensures Sliding(vector, T0, V0, V', i + 1, 0)
    {
      moved', merges', wc', V' := moved, merges, wc, V;
      var j := 0;
      while j < size
        invariant 0 <= j <= size
        invariant Progress(vector, trackWon, T0, B0, score0, won0, i, j, moved', merges', wc')
        invariant Sliding(vector, T0, V0, V', i, j)
      {
        moved', merges', wc', V' := TraverseCell(vector, trackWon, Position(x, ys[j]), i, j, T0, B0, score0, won0,
                                                 moved', merges', wc', V0, V');
        j := j + 1;
      }
      NextLine(vector, trackWon, T0, B0, score0, won0, i, moved', merges', wc');
      SlidNext(V0, vector, size, i);
    }

    /** The traversal of move: every cell, in the order buildTraversals gives,
        goes through MoveCell. The score grows by the values of the merged
        tiles, a 2048 made by a merge wins when that is tracked, and `moved`
        says whether the board's cells changed. */
    method Traverse(vector: Position, trackWon: bool, ghost T0: set<Tile>, ghost before: seq<seq<int>>)
      returns (moved: bool, ghost merges: seq<Tile>, ghost after: seq<seq<int>>)
      requires Valid() && UnitVector(vector) && T0 == grid.Tiles() && Holds(before)
      requires forall x, y :: 0 <= x < size && 0 <= y < size && grid.cells[x, y] != null ==>
        grid.cells[x, y].mergedFrom == []
      modifies this`score, this`won, grid.cells, T0
      ensures Valid()
      ensures MergesDone(T0, merges) && Covered(T0, merges)
      ensures score == old(score) + TotalValue(merges)
      ensures won == (old(won) || (trackWon && Made2048(merges)))
      ensures moved <==> exists x, y :: 0 <= x < size && 0 <= y < size && grid.cells[x, y] != old(grid.cells[x, y])
      ensures !moved ==> merges == []
      ensures Holds(after) && after == MovedBoard(before, vector, size)
    {
      ghost var B0, V0 := StartView(vector, T0, before);
      var xs, ys := BuildTraversals(vector);
      StartProgress(vector, trackWon, T0, B0);
      ghost var wc, V;
      moved, merges, wc, V := TraverseLines(vector, trackWon, xs, ys, T0, B0, old(score), old(won), V0);
      if moved {
        assert grid.cells[wc.x, wc.y] != old(grid.cells[wc.x, wc.y]);
      }
      after := FinishedView(vector, T0, before, V0, V);
    }

    /** The columns of the traversal, in the order xs, each through TraverseLine. */
    method TraverseLines(vector: Position, trackWon: bool, xs: seq<int>, ys: seq<int>,
                         ghost T0: set<Tile>, ghost B0: seq<seq<Tile?>>, ghost score0: int, ghost won0: bool,
                         ghost V0: View)
      returns (moved: bool, ghost merges: seq<Tile>, ghost wc: Position, ghost V: View)
      requires UnitVector(vector)
      requires |xs| == size && forall k :: 0 <= k < size ==> xs[k] == (if vector.x == 1 then size - 1 - k else k)
      requires |ys| == size && forall k :: 0 <= k < size ==> ys[k] == (if vector.y == 1 then size - 1 - k else k)
      requires Progress(vector, trackWon, T0, B0, score0, won0, 0, 0, false, [], Position(0, 0))
      requires StartBoard(B0, T0, size)
      requires Sliding(vector, T0, V0, V0, 0, 0)
      modifies this`score, this`won, grid.cells, T0
      ensures Progress(vector, trackWon, T0, B0, score0, won0, size, 0, moved, merges, wc)
      ensures Sliding(vector, T0, V0, V, size, 0)
    {
      moved, merges, wc, V := false, [], Position(0, 0), V0;
      var i := 0;
      while i < size
        invariant 0 <= i <= size
        invariant Progress(vector, trackWon, T0, B0, score0, won0, i, 0, moved, merges, wc)
        invariant Sliding(vector, T0, V0, V, i, 0)
      {
        moved, merges, wc, V := TraverseLine(vector, trackWon, xs[i], ys, i, T0, B0, score0, won0,
                                             moved, merges, wc, V0, V);
        i := i + 1;
      }
    }

    /** A move begins with nothing visited, nothing moved and no merges. */
    lemma StartProgress(vector: Position, trackWon: bool, T0: set<Tile>, B0: seq<seq<Tile?>>)
      requires Valid() && T0 == grid.Tiles() && IsTileBoard(B0, size)
      requires forall x, y :: 0 <= x < size && 0 <= y < size ==> B0[x][y] == grid.cells[x, y]
      requires forall x, y :: 0 <= x < size && 0 <= y < size && grid.cells[x, y] != null ==>
        grid.cells[x, y].mergedFrom == []
      ensures Progress(vector, trackWon, T0, B0, score, won, 0, 0, false, [], Position(0, 0))
    {
    }

    /** The board and its view when a move begins with the tiles T0, all of
        them unmerged, on the values `before`. */
    lemma StartView(vector: Position, T0: set<Tile>, before: seq<seq<int>>) returns (B0: seq<seq<Tile?>>, V0: View)
      requires Valid() && UnitVector(vector) && T0 == grid.Tiles() && Holds(before)
      ensures IsTileBoard(B0, size) && StartBoard(B0, T0, size)
      ensures forall x, y :: 0 <= x < size && 0 <= y < size ==> B0[x][y] == grid.cells[x, y]
      ensures Sliding(vector, T0, V0, V0, 0, 0) && ValuesOf(V0, size) == before
    {
      B0 := Board();
      StartBoardOf(T0);
      V0 := ViewOf(B0, T0, size);
      assert Shows(V0, T0) && Unmerged(V0, size);
      SlidStart(V0, vector, size);
      ShowsValues(V0, T0);
      HoldsUnique(ValuesOf(V0, size), before);
    }

    /** The values on the board once the traversal has visited every cell
        are the moved board. */
    lemma FinishedView(vector: Position, T0: set<Tile>, before: seq<seq<int>>, V0: View, V: View)
      returns (after: seq<seq<int>>)
      requires UnitVector(vector) && Sliding(vector, T0, V0, V, size, 0) && ValuesOf(V0, size) == before
      ensures Holds(after) && after == MovedBoard(before, vector, size)
    {
      SlidFinished(V0, vector, size);
      ShowsValues(V, T0);
      after := ValuesOf(V, size);
    }

    /** The tile values of the board, indexed [x][y]. */
    lemma HeldValues() returns (B: seq<seq<int>>)
      requires grid.cells.Length0 == size && grid.cells.Length1 == size
      ensures Holds(B)
    {
      var V := ViewOf(Board(), {}, size);
      ShowsValues(V, {});
      B := ValuesOf(V, size);
    }

    // -------------------------------------------------------------------------
    // The move, in the two copies of the game

    /** The tiles of a move slide and merge: PrepareTiles, then the
        traversal. The tiles made by the move's merges are `merges`; each is
        new, made of two equal tiles that were on the board when the move
        began, and the score grows by their values. */
    method MoveTiles(direction: int, trackWon: bool)
      returns (moved: bool, ghost merges: seq<Tile>, ghost before: seq<seq<int>>, ghost after: seq<seq<int>>)
      requires Valid() && 0 <= direction <= 3
      modifies this`score, this`won, grid.cells, grid.Tiles()
      ensures Valid()
      ensures forall k :: 0 <= k < |merges| ==> MergedPair(merges[k], old(grid.Tiles()))
      ensures score == old(score) + TotalValue(merges) && score >= old(score)
      ensures won == (old(won) || (trackWon && Made2048(merges)))
      ensures moved <==> exists x, y :: 0 <= x < size && 0 <= y < size && grid.cells[x, y] != old(grid.cells[x, y])
      ensures !moved ==> merges == []
      ensures old(Holds(before)) && Holds(after) && after == MovedBoard(before, Vector(direction), size)
      ensures !moved ==> after == before
      ensures size == N ==> Transposed(after) == Simulation.NextGrid(Transposed(before), direction)
    {
      before := HeldValues();
      var vector := Vector(direction);
      PrepareTiles();
      label Prepared:
      ghost var T0 := grid.Tiles();
      assert T0 == old(grid.Tiles()) && forall t :: t in T0 ==> t.value > 0;
      moved, merges, after := Traverse(vector, trackWon, T0, before);
      assert forall x, y :: 0 <= x < size && 0 <= y < size ==> old@Prepared(grid.cells[x, y]) == old(grid.cells[x, y]);
      if moved {
        ghost var x, y :| 0 <= x < size && 0 <= y < size && grid.cells[x, y] != old@Prepared(grid.cells[x, y]);
        assert grid.cells[x, y] != old(grid.cells[x, y]);
      }
      MergedValues(T0, merges);
      if !moved {
        assert Holds(before);
        HoldsUnique(before, after);
      }
      if size == N {
        MovedBoardIsNextGrid(before, direction);
      }
    }

    /** The game-over assignment of move: the game is over, nothing else changes. */
    method GameOver()
      requires Valid()
      modifies this`over
      ensures Valid() && over
    {
      over := true;
    }

    /** The board values of one move: `before` slides to `slid`, the moved
        board; when a tile moved and a cell of `slid` is empty, one such cell
        `placed` receives a new tile of value 2 or 4 as the draw says, giving
        `after`; otherwise `after` is `slid`. A move that moves no tile leaves
        the values as they were. */
    ghost predicate Played(direction: int, draw: Draw, moved: bool, before: seq<seq<int>>, slid: seq<seq<int>>,
                           placed: Option<Position>, after: seq<seq<int>>)
      requires 0 <= direction <= 3
    {
      IsBoard(before, size) && IsBoard(after, size) && slid == MovedBoard(before, Vector(direction), size) &&
      (!moved ==> slid == before && placed.None?) &&
      (moved ==> (placed.Some? <==> HasEmpty(slid, size))) &&
      (placed.Some? ==> Spawned(slid, after, size, placed.value, if draw.value < 0.9 then 2 else 4)) &&
      (placed.None? ==> after == slid)
    }

    /** The end of a move that moved a tile: the game is over once no move is left. */
    method CheckOver()
      requires Valid()
      modifies this`over
      ensures Valid() && over == (old(over) || !MovesLeft())
    {
      var available := MovesAvailable();
      if !available {
        GameOver();
      }
    }

    /** The body of move once the game goes on: MoveTiles, then, when a tile
        moved, one new tile and the game-over test. */
    method Play(direction: int, trackWon: bool, draw: Draw)
      returns (moved: bool, ghost merges: seq<Tile>, ghost before: seq<seq<int>>, ghost slid: seq<seq<int>>,
               ghost placed: Option<Position>, ghost after: seq<seq<int>>)
      requires Valid() && 0 <= direction <= 3 && draw.InRange()
      modifies this`score, this`won, this`over, grid.cells, grid.Tiles()
      ensures Valid()
      ensures forall k :: 0 <= k < |merges| ==> MergedPair(merges[k], old(grid.Tiles()))
      ensures score == old(score) + TotalValue(merges) && score >= old(score)
      ensures won == (old(won) || (trackWon && Made2048(merges)))
      ensures over == (old(over) || (moved && !MovesLeft()))
      ensures moved <==> exists x, y :: 0 <= x < size && 0 <= y < size && grid.cells[x, y] != old(grid.cells[x, y])
      ensures !moved ==> merges == []
      ensures old(Holds(before)) && Holds(after) && Played(direction, draw, moved, before, slid, placed, after)
      ensures size == N ==> Transposed(slid) == Simulation.NextGrid(Transposed(before), direction)
    {
      moved, merges, before, slid := MoveTiles(direction, trackWon);
      placed, after := None, slid;
      if moved {
        ghost var cx: int, cy: int :| 0 <= cx < size && 0 <= cy < size && grid.cells[cx, cy] != old(grid.cells[cx, cy]);
        placed, after := AddRandomTile(draw, slid);
        CheckOver();
        assert grid.cells[cx, cy] != old(grid.cells[cx, cy]);
      }
    }

    /** Every merge of a move has a positive value, so the score never falls. */
    lemma MergedValues(T0: set<Tile>, merges: seq<Tile>)
      requires forall t :: t in T0 ==> t.value > 0
      requires MergesDone(T0, merges)
      ensures TotalValue(merges) >= 0
    {
      PositiveTotal(merges);
    }

    /** move in the copy that plays to 2048: nothing happens once the game is
        over or won; otherwise Play, with a merge into 2048 winning. */
    method Move(direction: int, draw: Draw)
      returns (moved: bool, ghost merges: seq<Tile>, ghost before: seq<seq<int>>, ghost slid: seq<seq<int>>,
               ghost placed: Option<Position>, ghost after: seq<seq<int>>)
      requires Valid() && 0 <= direction <= 3 && draw.InRange()
      modifies this`score, this`won, this`over, grid.cells, grid.Tiles()
      ensures Valid()
      ensures old(over) || old(won) ==>
        !moved && merges == [] && score == old(score) && over == old(over) && won == old(won) &&
        forall x, y :: 0 <= x < size && 0 <= y < size ==> grid.cells[x, y] == old(grid.cells[x, y])
      ensures forall k :: 0 <= k < |merges| ==> MergedPair(merges[k], old(grid.Tiles()))
      ensures score == old(score) + TotalValue(merges) && score >= old(score)
      ensures won == (old(won) || Made2048(merges))
      ensures over == (old(over) || (moved && !MovesLeft()))
      ensures moved <==> exists x, y :: 0 <= x < size && 0 <= y < size && grid.cells[x, y] != old(grid.cells[x, y])
      ensures old(Holds(before)) && Holds(after)
      ensures !old(over) && !old(won) ==>
        Played(direction, draw, moved, before, slid, placed, after) &&
        (size == N ==> Transposed(slid) == Simulation.NextGrid(Transposed(before), direction))
    {
      if over || won {
        before := HeldValues();
        return false, [], before, before, None, before;
      }
      moved, merges, before, slid, placed, after := Play(direction, true, draw);
    }

    /** move in the copy the autoplayer drives: once the game is over the
        move only emits the restart event (`restart`) and changes nothing;
        otherwise Play, and reaching 2048 does not win. */
    method PlayerMove(direction: int, draw: Draw)
      returns (restart: bool, moved: bool, ghost merges: seq<Tile>, ghost before: seq<seq<int>>,
               ghost slid: seq<seq<int>>, ghost placed: Option<Position>, ghost after: seq<seq<int>>)
      requires Valid() && 0 <= direction <= 3 && draw.InRange()
      modifies this`score, this`won, this`over, grid.cells, grid.Tiles()
      ensures Valid() && restart == old(over) && won == old(won)
      ensures restart ==>
        !moved && merges == [] && score == old(score) && over &&
        forall x, y :: 0 <= x < size && 0 <= y < size ==> grid.cells[x, y] == old(grid.cells[x, y])
      ensures forall k :: 0 <= k < |merges| ==> MergedPair(merges[k], old(grid.Tiles()))
      ensures score == old(score) + TotalValue(merges) && score >= old(score)
      ensures over == (old(over) || (moved && !MovesLeft()))
      ensures moved <==> exists x, y :: 0 <= x < size && 0 <= y < size && grid.cells[x, y] != old(grid.cells[x, y])
      ensures old(Holds(before)) && Holds(after)
      ensures !restart ==>
        Played(direction, draw, moved, before, slid, placed, after) &&
        (size == N ==> Transposed(slid) == Simulation.NextGrid(Transposed(before), direction))
    {
      if over {
        before := HeldValues();
        return true, false, [], before, before, None, before;
      }
      restart := false;
      moved, merges, before, slid, placed, after := Play(direction, false, draw);
    }

    // -------------------------------------------------------------------------
    // The autoplayer on the live board

    /** getNextMove: the board is read into a matrix of values and the
        autoplayer's choice is made on that snapshot. */
    method GetNextMove(rate: Matrix -> real, fallback: int) returns (d: int)
      requires Valid() && size == N && Simulation.Up <= fallback <= Simulation.Left
      ensures 0 <= d <= 3
      ensures d == MoveSelection.NextMove(grid.Snapshot(), rate, fallback)
    {
      var currentArrayGrid := grid.ToArray();
      ghost var g := grid.Snapshot();
      d := MoveSelection.ChooseNextMove(currentArrayGrid, rate, fallback);
      assert g == grid.Snapshot();
    }

    /** The live board read as the autoplayer's matrix: a cell is empty
        exactly when its value is 0, and two tiles are equal neighbours
        exactly when their values are. So the game's test for a possible move
        is the simulation's, and when it fails no simulated move changes the
        board; on a board with a tile the converse holds too. */
    lemma MovesLeftIsSimulated()
      requires Valid() && size == N
      ensures MovesLeft() <==> Simulation.MovesAvailable(grid.Snapshot())
      ensures !MovesLeft() ==> Simulation.Stuck(grid.Snapshot())
      ensures Simulation.Stuck(grid.Snapshot()) && grid.Tiles() != {} ==> !MovesLeft()
    {
      var g := grid.Snapshot();
      assert forall r, c :: 0 <= r < N && 0 <= c < N ==> (g[r][c] == 0 <==> grid.cells[c, r] == null);
      EmptyCellIsSimulated(g);
      MatchesAreSimulated(g);
      if !MovesLeft() {
        assert g[0][0] != 0;
        Simulation.StuckIffNoMovesAvailable(g);
      }
      if grid.Tiles() != {} {
        var t :| t in grid.Tiles();
        var x, y :| 0 <= x < N && 0 <= y < N && grid.cells[x, y] == t;
        assert g[y][x] != 0;
        Simulation.StuckIffNoMovesAvailable(g);
      }
    }

    lemma EmptyCellIsSimulated(g: Matrix)
      requires Valid() && size == N && g == grid.Snapshot()
      requires forall r, c :: 0 <= r < N && 0 <= c < N ==> (g[r][c] == 0 <==> grid.cells[c, r] == null)
      ensures grid.HasEmptyCell() <==> Features.HasEmptyCell(g)
    {
      if grid.HasEmptyCell() {
        var x, y :| 0 <= x < N && 0 <= y < N && grid.cells[x, y] == null;
        assert g[y][x] == 0;
      }
      if Features.HasEmptyCell(g) {
        var r, c :| 0 <= r < |g| && 0 <= c < |g[r]| && g[r][c] == 0;
        assert grid.cells[c, r] == null;
      }
    }

    lemma MatchesAreSimulated(g: Matrix)
      requires Valid() && size == N && g == grid.Snapshot()
      requires forall r, c :: 0 <= r < N && 0 <= c < N ==> (g[r][c] == 0 <==> grid.cells[c, r] == null)
      ensures TileMatches() <==> Simulation.HasEqualNeighbours(g)
    {
      if TileMatches() {
        var x, y, d :| 0 <= x < N && 0 <= y < N && 0 <= d <= 3 && MatchAt(x, y, d);
        LiveMatchIsSimulated(g, x, y, d);
      }
      if Simulation.HasEqualNeighbours(g) {
        var r, c :| 0 <= r < N && 0 <= c < N && Simulation.MatchesNeighbour(g, r, c);
        SimulatedMatchIsLive(g, r, c);
      }
    }

    /** A tile matching its neighbour in any direction is, seen from the
        upper or left one of the two, a match to the right or below. */
    lemma LiveMatchIsSimulated(g: Matrix, x: int, y: int, d: int)
      requires Valid() && size == N && g == grid.Snapshot()
      requires forall r, c :: 0 <= r < N && 0 <= c < N ==> (g[r][c] == 0 <==> grid.cells[c, r] == null)
      requires 0 <= x < N && 0 <= y < N && 0 <= d <= 3 && MatchAt(x, y, d)
      ensures Simulation.HasEqualNeighbours(g)
    {
      var v := Vector(d);
      var x', y' := x + v.x, y + v.y;
      assert 0 <= x' < N && 0 <= y' < N && grid.cells[x', y'] != null;
      assert g[y][x] == g[y'][x'] && g[y][x] != 0;
      if d == 0 || d == 3 {
        assert Simulation.MatchesNeighbour(g, y', x');
      } else {
        assert Simulation.MatchesNeighbour(g, y, x);
      }
    }

    lemma SimulatedMatchIsLive(g: Matrix, r: int, c: int)
      requires Valid() && size == N && g == grid.Snapshot()
      requires forall r, c :: 0 <= r < N && 0 <= c < N ==> (g[r][c] == 0 <==> grid.cells[c, r] == null)
      requires 0 <= r < N && 0 <= c < N && Simulation.MatchesNeighbour(g, r, c)
      ensures TileMatches()
    {
      if c + 1 < N && g[r][c] == g[r][c + 1] {
        assert MatchAt(c, r, 1);
      } else {
        assert MatchAt(c, r, 2);
      }
    }
  }
}
