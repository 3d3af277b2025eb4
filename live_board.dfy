/** The live board as a value, and one move of the live game taken cell by
    cell. Cell (x, y) of a view holds the value of its tile (0 when empty) and
    whether that tile was made by a merge during the current move. A move
    visits every cell, line by line, each line starting from the cell nearest
    the wall the tiles move towards; a visited tile slides as far as it can
    and merges into the tile it runs into when the live rule allows. Over a
    whole traversal these steps leave every line laid out as LiveLine.LiveMerge
    of its tiles, and on a 4x4 board the result is Simulation.NextGrid. */
module LiveBoard {
  import opened Matrices
  import opened RowMerge
  import opened LiveLine
  import opened Board
  import Simulation

  /** One step up, right, down or left. */
  predicate UnitVector(v: Position) {
    (v.x == 0 && (v.y == 1 || v.y == -1)) || (v.y == 0 && (v.x == 1 || v.x == -1))
  }

  /** getVector: directions 0..3 are up, right, down, left; y grows downwards. */
  function Vector(direction: int): (v: Position)
    requires 0 <= direction <= 3
    ensures UnitVector(v)
    ensures direction == Simulation.Up ==> v.y == -1
    ensures direction == Simulation.Right ==> v.x == 1
    ensures direction == Simulation.Down ==> v.y == 1
    ensures direction == Simulation.Left ==> v.x == -1
  {
    if direction == 0 then Position(0, -1)
    else if direction == 1 then Position(1, 0)
    else if direction == 2 then Position(0, 1)
    else Position(-1, 0)
  }

  /** p lies strictly beyond c when walking from c along the unit vector v. */
  predicate Ahead(c: Position, v: Position, p: Position) {
    (v.x == 0 ==> p.x == c.x) && (v.y == 0 ==> p.y == c.y) &&
    (v.x == 1 ==> p.x > c.x) && (v.x == -1 ==> p.x < c.x) &&
    (v.y == 1 ==> p.y > c.y) && (v.y == -1 ==> p.y < c.y)
  }

  /** A positive number of steps along a unit vector leads ahead. */
  lemma ShiftAhead(c: Position, v: Position, k: int)
    requires UnitVector(v) && k > 0
    ensures Ahead(c, v, Shift(c, v, k))
  {
  }

  /** The cell after one ahead of c, or after c itself, is ahead of c. */
  lemma AheadStep(c: Position, v: Position, p: Position)
    requires UnitVector(v) && (p == c || Ahead(c, v, p))
    ensures Ahead(c, v, Position(p.x + v.x, p.y + v.y))
  {
  }

  /** One more step along a unit vector moves by the vector. */
  lemma ShiftStep(c: Position, v: Position, k: int)
    requires UnitVector(v)
    ensures Shift(c, v, k + 1) == Position(Shift(c, v, k).x + v.x, Shift(c, v, k).y + v.y)
  {
  }

  /** Steps along a unit vector that start and end on a board of size n are fewer than n. */
  lemma ShiftBound(c: Position, v: Position, k: int, n: int)
    requires UnitVector(v) && k >= 0
    requires 0 <= c.x < n && 0 <= c.y < n
    requires 0 <= Shift(c, v, k).x < n && 0 <= Shift(c, v, k).y < n
    ensures k < n
  {
  }

  /** k * d for a component d of a unit vector, written without a product. */
  function Times(k: int, d: int): int {
    if d == 1 then k else if d == -1 then -k else 0
  }

  /** The cell k steps from c along v. */
  function Shift(c: Position, v: Position, k: int): Position {
    Position(c.x + Times(k, v.x), c.y + Times(k, v.y))
  }

  // ---------------------------------------------------------------------------
  // Views

  predicate InBoard(p: Position, n: int) {
    0 <= p.x < n && 0 <= p.y < n
  }

  /** The cell one step from p along v. */
  function Neighbour(p: Position, v: Position): Position {
    Position(p.x + v.x, p.y + v.y)
  }

  /** A board of side n indexed [x][y]. */
  type View = seq<seq<Placed>>

  predicate IsView(V: View, n: int) {
    |V| == n && forall x :: 0 <= x < n ==> |V[x]| == n
  }

  const Vacant: Placed := Placed(0, false)

  /** The board when a move starts: no tile carries a merge marker yet. */
  predicate Unmerged(V: View, n: int)
    requires IsView(V, n)
  {
    forall x, y :: 0 <= x < n && 0 <= y < n ==> !V[x][y].merged
  }

  /** The tile values of a view. */
  function ValuesOf(V: View, n: int): (B: seq<seq<int>>)
    requires IsView(V, n)
    ensures IsBoard(B, n)
  {
    seq(n, x requires 0 <= x < n => seq(n, y requires 0 <= y < n => V[x][y].value))
  }

  lemma SameView(A: View, B: View, n: int)
    requires IsView(A, n) && IsView(B, n)
    requires forall x, y :: 0 <= x < n && 0 <= y < n ==> A[x][y] == B[x][y]
    ensures A == B
  {
    forall x | 0 <= x < n
      ensures A[x] == B[x]
    {
    }
  }

  // ---------------------------------------------------------------------------
  // One step of a move

  /** The number of steps from p to the wall along v. */
  function Room(p: Position, v: Position, n: int): int {
    if v.x == 1 then n - 1 - p.x
    else if v.x == -1 then p.x
    else if v.y == 1 then n - 1 - p.y
    else p.y
  }

  /** The last cell reached from c along v before the wall or an occupied cell. */
  function Farthest(V: View, n: int, c: Position, v: Position): (f: Position)
    requires IsView(V, n) && InBoard(c, n) && UnitVector(v)
    ensures InBoard(f, n)
    decreases Room(c, v, n)
  {
    var next := Neighbour(c, v);
    if InBoard(next, n) && V[next.x][next.y].value == 0 then Farthest(V, n, next, v) else c
  }

  /** Cell p after the tile at c has moved along v, given the farthest empty
      cell f ahead of it: the tile merges into the cell after f when that holds
      an equal tile not made by a merge in this move, and otherwise lands on f. */
  function Landing(V: View, n: int, c: Position, v: Position, f: Position, p: Position): Placed
    requires IsView(V, n) && InBoard(c, n) && InBoard(p, n)
  {
    var t := V[c.x][c.y];
    var next := Neighbour(f, v);
    if InBoard(next, n) && V[next.x][next.y].value == t.value && !V[next.x][next.y].merged then
      (if p == next then Placed(2 * t.value, true) else if p == c then Vacant else V[p.x][p.y])
    else
      (if p == f then t else if p == c then Vacant else V[p.x][p.y])
  }

  /** The board after the tile at c has moved along v towards f. */
  function Moved(V: View, n: int, c: Position, v: Position, f: Position): (r: View)
    requires IsView(V, n) && InBoard(c, n)
    ensures IsView(r, n)
  {
    seq(n, x requires 0 <= x < n => seq(n, y requires 0 <= y < n => Landing(V, n, c, v, f, Position(x, y))))
  }

  /** The board after the tile at c, if any, has moved along v. */
  function Step(V: View, n: int, c: Position, v: Position): (r: View)
    requires IsView(V, n) && InBoard(c, n) && UnitVector(v)
    ensures IsView(r, n)
  {
    if V[c.x][c.y].value == 0 then V else Moved(V, n, c, v, Farthest(V, n, c, v))
  }

  /** The board with cell d holding t and cell c, unless it is d, left empty. */
  function Put(V: View, n: int, c: Position, d: Position, t: Placed): (r: View)
    requires IsView(V, n)
    ensures IsView(r, n)
  {
    seq(n, x requires 0 <= x < n => seq(n, y requires 0 <= y < n =>
      if Position(x, y) == d then t else if Position(x, y) == c then Vacant else V[x][y]))
  }

  /** The step of a tile is one Put: the merged tile replaces the tile it ran
      into, or the tile itself lands on the farthest cell. */
  lemma StepIsPut(V: View, n: int, c: Position, v: Position, f: Position)
    requires IsView(V, n) && InBoard(c, n) && UnitVector(v) && V[c.x][c.y].value != 0
    requires Farthest(V, n, c, v) == f
    ensures var t, next := V[c.x][c.y], Neighbour(f, v);
      Step(V, n, c, v) ==
        if InBoard(next, n) && V[next.x][next.y].value == t.value && !V[next.x][next.y].merged
        then Put(V, n, c, next, Placed(2 * t.value, true))
        else Put(V, n, c, f, t)
  {
    var t, next := V[c.x][c.y], Neighbour(f, v);
    var P := if InBoard(next, n) && V[next.x][next.y].value == t.value && !V[next.x][next.y].merged
      then Put(V, n, c, next, Placed(2 * t.value, true))
      else Put(V, n, c, f, t);
    SameView(Step(V, n, c, v), P, n);
  }

  /** Walking over s empty cells and stopping before the wall or a tile ends s steps away. */
  lemma {:induction false} FarthestIs(V: View, n: int, c: Position, v: Position, s: nat)
    requires IsView(V, n) && InBoard(c, n) && UnitVector(v)
    requires forall i :: 1 <= i <= s ==>
      InBoard(Shift(c, v, i), n) && V[Shift(c, v, i).x][Shift(c, v, i).y].value == 0
    requires var last := Neighbour(Shift(c, v, s), v);
      !InBoard(last, n) || V[last.x][last.y].value != 0
    ensures Farthest(V, n, c, v) == Shift(c, v, s)
    decreases s
  {
    var next := Neighbour(c, v);
    if s == 0 {
      assert Shift(c, v, 0) == c;
    } else {
      assert Shift(c, v, 1) == next;
      forall i | 1 <= i <= s - 1
        ensures Shift(next, v, i) == Shift(c, v, i + 1)
      {
      }
      assert Shift(next, v, s - 1) == Shift(c, v, s);
      FarthestIs(V, n, next, v, s - 1);
    }
  }

  // ---------------------------------------------------------------------------
  // Lines

  /** Cell p of line k, counted from the wall the tiles move towards. */
  function At(v: Position, n: int, k: int, p: int): Position {
    if v.x == 1 then Position(n - 1 - p, k)
    else if v.x == -1 then Position(p, k)
    else if v.y == 1 then Position(k, n - 1 - p)
    else Position(k, p)
  }

  /** The line a cell lies on. */
  function LineIndex(v: Position, p: Position): int {
    if v.x != 0 then p.y else p.x
  }

  /** How far from the wall a cell lies on its line. */
  function Place(v: Position, n: int, p: Position): int {
    if v.x == 1 then n - 1 - p.x
    else if v.x == -1 then p.x
    else if v.y == 1 then n - 1 - p.y
    else p.y
  }

  lemma AtPlace(v: Position, n: int, p: Position)
    requires UnitVector(v) && InBoard(p, n)
    ensures 0 <= LineIndex(v, p) < n && 0 <= Place(v, n, p) < n
    ensures At(v, n, LineIndex(v, p), Place(v, n, p)) == p
  {
  }

  /** Line k of a view, from the wall the tiles move towards. */
  function LineOf(V: View, v: Position, n: int, k: int): (L: seq<Placed>)
    requires IsView(V, n) && 0 <= k < n
    ensures |L| == n
  {
    seq(n, p requires 0 <= p < n => V[At(v, n, k, p).x][At(v, n, k, p).y])
  }

  /** Line k of a board of values. */
  function LineValues(B: seq<seq<int>>, v: Position, n: int, k: int): (line: seq<int>)
    requires IsBoard(B, n) && 0 <= k < n
    ensures |line| == n
  {
    seq(n, p requires 0 <= p < n => B[At(v, n, k, p).x][At(v, n, k, p).y])
  }

  /** The tiles of a line in traversal order. */
  function Tiles(s: seq<Placed>): seq<int> {
    NonZeros(Values(s))
  }

  /** A line after its first c cells have been visited: the tiles among them
      are laid out from the wall as the live rule merges them, the rest of
      those c cells are empty, and the cells beyond are untouched. */
  predicate LineState(L: seq<Placed>, L0: seq<Placed>, c: int) {
    |L| == |L0| && 0 <= c <= |L0| &&
    var placed := LiveMerge(Tiles(L0[..c]));
    |placed| <= c &&
    forall p :: 0 <= p < |L| ==>
      L[p] == (if p < |placed| then placed[p] else if p < c then Vacant else L0[p])
  }

  /** The cell visited at step (i, j) of the traversal: the outer loop runs
      over columns and the inner one over rows, each in the order of the move. */
  function Visit(v: Position, n: int, i: int, j: int): (c: Position)
    ensures 0 <= i < n && 0 <= j < n ==> InBoard(c, n)
  {
    if v.x == 0 then At(v, n, i, j) else At(v, n, j, i)
  }

  /** The number of cells of line k visited before step (i, j). */
  function Processed(v: Position, n: int, k: int, i: int, j: int): int {
    if v.x == 0 then (if k < i then n else if k == i then j else 0)
    else i + (if k < j then 1 else 0)
  }

  /** Every line of V is its line of V0 with the cells visited before step (i, j) moved. */
  predicate LinesState(V: View, V0: View, v: Position, n: int, i: int, j: int) {
    IsView(V, n) && IsView(V0, n) &&
    forall k :: 0 <= k < n ==>
      LineState(LineOf(V, v, n, k), LineOf(V0, v, n, k), Processed(v, n, k, i, j))
  }

  // ---------------------------------------------------------------------------
  // The traversal merges every line

  /** The tiles of a line merge one after the other. */
  lemma {:induction false} ArriveAllSnoc(placed: seq<Placed>, tiles: seq<int>, t: int)
    ensures ArriveAll(placed, tiles + [t]) == Arrive(ArriveAll(placed, tiles), t)
    decreases tiles
  {
    if tiles == [] {
      assert [t][1..] == [];
      assert tiles + [t] == [t];
    } else {
      assert (tiles + [t])[0] == tiles[0];
      assert (tiles + [t])[1..] == tiles[1..] + [t];
      ArriveAllSnoc(Arrive(placed, tiles[0]), tiles[1..], t);
    }
  }

  /** Merging never lengthens a line and never leaves an empty tile. */
  lemma {:induction false} ArriveAllShape(placed: seq<Placed>, tiles: seq<int>)
    requires forall p :: 0 <= p < |placed| ==> placed[p].value != 0
    requires ZeroFree(tiles)
    ensures |ArriveAll(placed, tiles)| <= |placed| + |tiles|
    ensures forall p :: 0 <= p < |ArriveAll(placed, tiles)| ==> ArriveAll(placed, tiles)[p].value != 0
    decreases tiles
  {
    if tiles != [] {
      var next := Arrive(placed, tiles[0]);
      assert forall p :: 0 <= p < |next| ==> next[p].value != 0;
      ArriveAllShape(next, tiles[1..]);
    }
  }

  /** The visited prefix of a line grows by one cell, and its tiles by that cell's tile. */
  lemma TilesSnoc(s: seq<Placed>, c: int)
    requires 0 <= c < |s|
    ensures Tiles(s[..c + 1]) == Tiles(s[..c]) + (if s[c].value != 0 then [s[c].value] else [])
  {
    assert s[..c + 1] == s[..c] + [s[c]];
    ValuesConcat(s[..c], [s[c]]);
    NonZerosConcat(Values(s[..c]), Values([s[c]]));
    assert Values([s[c]]) == [s[c].value];
    assert [s[c].value][1..] == [];
  }

  /** Walking along a line towards its wall stops after the empty cells. */
  lemma {:induction false} FarthestOnLine(V: View, v: Position, n: int, k: int, c: int, m: int)
    requires IsView(V, n) && UnitVector(v) && 0 <= k < n && 0 <= m <= c < n
    requires forall q :: m <= q < c ==> LineOf(V, v, n, k)[q].value == 0
    requires m > 0 ==> LineOf(V, v, n, k)[m - 1].value != 0
    ensures Farthest(V, n, At(v, n, k, c), v) == At(v, n, k, m)
    decreases c - m
  {
    assert Neighbour(At(v, n, k, c), v) == At(v, n, k, c - 1);
    if c > m {
      assert LineOf(V, v, n, k)[c - 1].value == 0;
      FarthestOnLine(V, v, n, k, c - 1, m);
    } else if m > 0 {
      assert LineOf(V, v, n, k)[m - 1].value != 0;
    }
  }

  /** In a line whose first c cells have been visited, the cells between the
      placed tiles and the next cell to visit are empty. */
  lemma LineGap(L: seq<Placed>, L0: seq<Placed>, c: int)
    requires LineState(L, L0, c)
    ensures var m := |LiveMerge(Tiles(L0[..c]))|;
      (forall q :: m <= q < c ==> L[q].value == 0) && (m > 0 ==> L[m - 1].value != 0)
  {
    ArriveAllShape([], Tiles(L0[..c]));
  }

  /** Visiting an empty cell of a line leaves the line as it is. */
  lemma LineVacant(L: seq<Placed>, L0: seq<Placed>, c: int)
    requires LineState(L, L0, c) && c < |L0| && L0[c] == Vacant
    ensures LineState(L, L0, c + 1)
  {
    TilesSnoc(L0, c);
    assert Tiles(L0[..c]) + [] == Tiles(L0[..c]);
    assert L0[..c + 1][..c] == L0[..c];
    assert L[c] == L0[c];
  }

  /** Whether the tile at cell c of a line merges into cell m - 1. */
  predicate MergesAt(L: seq<Placed>, c: int, m: int)
    requires 0 <= m <= c < |L|
  {
    m > 0 && L[m - 1].value == L[c].value && !L[m - 1].merged
  }

  /** The line after its tile at cell c has moved: merged into cell m - 1, or
      landed on cell m, the cell it left emptied. */
  predicate Advanced(L: seq<Placed>, L1: seq<Placed>, c: int, m: int)
    requires 0 <= m <= c < |L|
  {
    |L1| == |L| &&
    forall p :: 0 <= p < |L| ==>
      L1[p] == if MergesAt(L, c, m) then
        (if p == m - 1 then Placed(2 * L[c].value, true) else if p == c then Vacant else L[p])
      else
        (if p == m then L[c] else if p == c then Vacant else L[p])
  }

  /** Moving the tile of cell c to where the live rule puts it extends the
      visited part of the line by one cell. */
  lemma LineAdvance(L: seq<Placed>, L0: seq<Placed>, L1: seq<Placed>, c: int)
    requires LineState(L, L0, c) && c < |L0| && L0[c].value != 0 && !L0[c].merged
    requires |LiveMerge(Tiles(L0[..c]))| <= c
    requires Advanced(L, L1, c, |LiveMerge(Tiles(L0[..c]))|)
    ensures LineState(L1, L0, c + 1)
  {
    var tiles := Tiles(L0[..c]);
    var placed := LiveMerge(tiles);
    var m := |placed|;
    var t := L0[c];
    assert L[c] == t;
    TilesSnoc(L0, c);
    assert L0[..c + 1][..c] == L0[..c];
    ArriveAllSnoc([], tiles, t.value);
    var after := LiveMerge(tiles + [t.value]);
    if MergesAt(L, c, m) {
      assert after == placed[..m - 1] + [Placed(2 * t.value, true)];
    } else {
      assert after == placed + [Placed(t.value, false)];
    }
  }

  lemma AtInBoard(v: Position, n: int, k: int, p: int)
    requires 0 <= k < n && 0 <= p < n
    ensures InBoard(At(v, n, k, p), n)
  {
  }

  /** Distinct places on the lines are distinct cells. */
  lemma AtInjective(v: Position, n: int, k: int, p: int, k': int, p': int)
    requires UnitVector(v)
    ensures At(v, n, k, p) == At(v, n, k', p') <==> k == k' && p == p'
  {
  }

  /** A cell of another line is untouched by the visit of a tile of line k. */
  lemma StepCellOff(V: View, v: Position, n: int, k: int, c: int, m: int, k': int, p: int)
    requires IsView(V, n) && UnitVector(v) && 0 <= k < n && 0 <= m <= c < n
    requires 0 <= k' < n && k' != k && 0 <= p < n
    ensures Moved(V, n, At(v, n, k, c), v, At(v, n, k, m))[At(v, n, k', p).x][At(v, n, k', p).y]
      == V[At(v, n, k', p).x][At(v, n, k', p).y]
  {
    var cell, f, next, q := At(v, n, k, c), At(v, n, k, m), At(v, n, k, m - 1), At(v, n, k', p);
    AtInjective(v, n, k', p, k, c);
    AtInjective(v, n, k', p, k, m);
    AtInjective(v, n, k', p, k, m - 1);
    assert Neighbour(f, v) == next;
    assert Moved(V, n, cell, v, f)[q.x][q.y] == Landing(V, n, cell, v, f, q);
  }

  /** A cell of line k after the visit of its tile at cell c, whose walk
      towards the wall stops at cell m of the line. */
  lemma StepCellOn(V: View, v: Position, n: int, k: int, c: int, m: int, p: int)
    requires IsView(V, n) && UnitVector(v) && 0 <= k < n && 0 <= m <= c < n && 0 <= p < n
    ensures var cell, q := At(v, n, k, c), At(v, n, k, p);
      Moved(V, n, cell, v, At(v, n, k, m))[q.x][q.y] ==
        if MergesAt(LineOf(V, v, n, k), c, m) then
          (if p == m - 1 then Placed(2 * V[cell.x][cell.y].value, true) else if p == c then Vacant else V[q.x][q.y])
        else
          (if p == m then V[cell.x][cell.y] else if p == c then Vacant else V[q.x][q.y])
  {
    var cell, f, next, q := At(v, n, k, c), At(v, n, k, m), At(v, n, k, m - 1), At(v, n, k, p);
    AtInBoard(v, n, k, c);
    AtInBoard(v, n, k, p);
    AtInjective(v, n, k, p, k, c);
    AtInjective(v, n, k, p, k, m);
    AtInjective(v, n, k, p, k, m - 1);
    assert Neighbour(f, v) == next;
    assert m == 0 ==> !InBoard(next, n);
    assert Moved(V, n, cell, v, f)[q.x][q.y] == Landing(V, n, cell, v, f, q);
  }

  /** Moving a tile of line k leaves the other lines alone. */
  lemma StepOffLine(V: View, v: Position, n: int, k: int, c: int, m: int, k': int)
    requires IsView(V, n) && UnitVector(v) && 0 <= k < n && 0 <= m <= c < n
    requires 0 <= k' < n && k' != k
    ensures LineOf(Moved(V, n, At(v, n, k, c), v, At(v, n, k, m)), v, n, k') == LineOf(V, v, n, k')
  {
    forall p | 0 <= p < n
      ensures LineOf(Moved(V, n, At(v, n, k, c), v, At(v, n, k, m)), v, n, k')[p] == LineOf(V, v, n, k')[p]
    {
      StepCellOff(V, v, n, k, c, m, k', p);
    }
  }

  /** Visiting cell c of line k moves its tile to where the live rule puts it
      and leaves the other lines alone. */
  lemma StepOnLine(V: View, V0: View, v: Position, n: int, k: int, c: int)
    requires IsView(V, n) && IsView(V0, n) && UnitVector(v) && Unmerged(V0, n)
    requires 0 <= k < n && 0 <= c < n
    requires LineState(LineOf(V, v, n, k), LineOf(V0, v, n, k), c)
    ensures LineState(LineOf(Step(V, n, At(v, n, k, c), v), v, n, k), LineOf(V0, v, n, k), c + 1)
    ensures forall k' :: 0 <= k' < n && k' != k ==>
      LineOf(Step(V, n, At(v, n, k, c), v), v, n, k') == LineOf(V, v, n, k')
  {
    var cell := At(v, n, k, c);
    var L, L0 := LineOf(V, v, n, k), LineOf(V0, v, n, k);
    var t := L0[c];
    assert L[c] == t && V[cell.x][cell.y] == t;
    assert !t.merged;
    if t.value == 0 {
      assert t == Vacant;
      LineVacant(L, L0, c);
    } else {
      var m := |LiveMerge(Tiles(L0[..c]))|;
      LineGap(L, L0, c);
      FarthestOnLine(V, v, n, k, c, m);
      var W := Moved(V, n, cell, v, At(v, n, k, m));
      assert Step(V, n, cell, v) == W;
      forall k' | 0 <= k' < n && k' != k
        ensures LineOf(W, v, n, k') == LineOf(V, v, n, k')
      {
        StepOffLine(V, v, n, k, c, m, k');
      }
      StepTile(V, v, n, k, c, m);
      LineAdvance(L, L0, LineOf(W, v, n, k), c);
    }
  }

  /** Line k after its tile at cell c has moved towards cell m. */
  lemma StepTile(V: View, v: Position, n: int, k: int, c: int, m: int)
    requires IsView(V, n) && UnitVector(v) && 0 <= k < n && 0 <= m <= c < n
    ensures Advanced(LineOf(V, v, n, k), LineOf(Moved(V, n, At(v, n, k, c), v, At(v, n, k, m)), v, n, k), c, m)
  {
    var L := LineOf(V, v, n, k);
    var L1 := LineOf(Moved(V, n, At(v, n, k, c), v, At(v, n, k, m)), v, n, k);
    forall p | 0 <= p < n
      ensures L1[p] == if MergesAt(L, c, m) then
          (if p == m - 1 then Placed(2 * L[c].value, true) else if p == c then Vacant else L[p])
        else
          (if p == m then L[c] else if p == c then Vacant else L[p])
    {
      StepCellOn(V, v, n, k, c, m, p);
    }
  }

  /** Visiting the cell of step (i, j) moves its tile and keeps every line in step. */
  lemma StepLines(V: View, V0: View, v: Position, n: int, i: int, j: int)
    requires IsView(V0, n) && UnitVector(v) && Unmerged(V0, n)
    requires 0 <= i < n && 0 <= j < n
    ensures LinesState(V, V0, v, n, i, j) ==> LinesState(Step(V, n, Visit(v, n, i, j), v), V0, v, n, i, j + 1)
  {
    if !LinesState(V, V0, v, n, i, j) {
      return;
    }
    var k, c := if v.x == 0 then i else j, if v.x == 0 then j else i;
    assert Visit(v, n, i, j) == At(v, n, k, c);
    assert Processed(v, n, k, i, j) == c;
    StepOnLine(V, V0, v, n, k, c);
    var W := Step(V, n, At(v, n, k, c), v);
    forall k' | 0 <= k' < n
      ensures LineState(LineOf(W, v, n, k'), LineOf(V0, v, n, k'), Processed(v, n, k', i, j + 1))
    {
      if k' != k {
        assert Processed(v, n, k', i, j + 1) == Processed(v, n, k', i, j);
      }
    }
  }

  /** Before the first step no cell has been visited. */
  lemma StartLines(V0: View, v: Position, n: int)
    requires IsView(V0, n)
    ensures LinesState(V0, V0, v, n, 0, 0)
  {
    forall k | 0 <= k < n
      ensures LineState(LineOf(V0, v, n, k), LineOf(V0, v, n, k), 0)
    {
      var L0 := LineOf(V0, v, n, k);
      assert L0[..0] == [];
      assert Values([]) == [];
    }
  }

  /** The end of one inner loop is the start of the next. */
  lemma NextLines(V: View, V0: View, v: Position, n: int, i: int)
    requires IsView(V, n) && IsView(V0, n) && 0 <= i < n
    requires LinesState(V, V0, v, n, i, n)
    ensures LinesState(V, V0, v, n, i + 1, 0)
  {
    forall k | 0 <= k < n
      ensures Processed(v, n, k, i, n) == Processed(v, n, k, i + 1, 0)
    {
    }
  }

  /** The view of a traversal begun on V0 once it stands at step (i, j),
      cell by cell: on every line the visited cells hold the tiles among them
      merged by the live rule and laid from the wall, and the cells beyond are
      untouched. */
  function Slid(V0: View, v: Position, n: int, i: int, j: int): (V: View)
    requires IsView(V0, n)
    ensures IsView(V, n)
  {
    seq(n, x requires 0 <= x < n => seq(n, y requires 0 <= y < n => SlidCell(V0, v, n, i, j, Position(x, y))))
  }

  function SlidCell(V0: View, v: Position, n: int, i: int, j: int, p: Position): Placed
    requires IsView(V0, n) && InBoard(p, n)
  {
    var k, q := LineIndex(v, p), Place(v, n, p);
    var c := Processed(v, n, k, i, j);
    if 0 <= c <= n then
      var placed := LiveMerge(Tiles(LineOf(V0, v, n, k)[..c]));
      if 0 <= q < |placed| then placed[q] else if q < c then Vacant else V0[p.x][p.y]
    else V0[p.x][p.y]
  }

  /** A view whose lines are in the state of step (i, j) is the slid view. */
  lemma LinesSlid(V: View, V0: View, v: Position, n: int, i: int, j: int)
    requires IsView(V0, n) && UnitVector(v)
    ensures LinesState(V, V0, v, n, i, j) ==> V == Slid(V0, v, n, i, j)
  {
    var W := Slid(V0, v, n, i, j);
    forall x, y | 0 <= x < n && 0 <= y < n && LinesState(V, V0, v, n, i, j)
      ensures V[x][y] == W[x][y]
    {
      var p := Position(x, y);
      var k, q := LineIndex(v, p), Place(v, n, p);
      AtPlace(v, n, p);
      var L, L0 := LineOf(V, v, n, k), LineOf(V0, v, n, k);
      assert LineState(L, L0, Processed(v, n, k, i, j));
      assert L[q] == V[x][y] && L0[q] == V0[x][y];
    }
    forall x | 0 <= x < n && LinesState(V, V0, v, n, i, j)
      ensures V[x] == W[x]
    {
    }
  }

  /** The slid view of a step of the traversal has its lines in that step's state. */
  lemma SlidLines(V0: View, v: Position, n: int, i: int, j: int)
    requires IsView(V0, n) && UnitVector(v)
    requires (0 <= i < n && 0 <= j <= n) || (i == n && j == 0)
    ensures LinesState(Slid(V0, v, n, i, j), V0, v, n, i, j)
  {
    var W := Slid(V0, v, n, i, j);
    forall k | 0 <= k < n
      ensures LineState(LineOf(W, v, n, k), LineOf(V0, v, n, k), Processed(v, n, k, i, j))
    {
      var L, L0 := LineOf(W, v, n, k), LineOf(V0, v, n, k);
      var c := Processed(v, n, k, i, j);
      assert 0 <= c <= n;
      var placed := LiveMerge(Tiles(L0[..c]));
      ArriveAllShape([], Tiles(L0[..c]));
      forall q | 0 <= q < n
        ensures L[q] == (if q < |placed| then placed[q] else if q < c then Vacant else L0[q])
      {
        var p := At(v, n, k, q);
        AtInBoard(v, n, k, q);
        assert LineIndex(v, p) == k && Place(v, n, p) == q;
      }
    }
  }

  /** Visiting the cell of step (i, j) turns the slid view of (i, j) into that of (i, j + 1). */
  lemma SlidStep(V0: View, v: Position, n: int, i: int, j: int)
    requires IsView(V0, n) && UnitVector(v) && Unmerged(V0, n) && 0 <= i < n && 0 <= j < n
    ensures Step(Slid(V0, v, n, i, j), n, Visit(v, n, i, j), v) == Slid(V0, v, n, i, j + 1)
  {
    SlidStepLines(V0, v, n, i, j);
    LinesSlid(Step(Slid(V0, v, n, i, j), n, Visit(v, n, i, j), v), V0, v, n, i, j + 1);
  }

  /** The lines of the slid view of (i, j), once the cell of (i, j) is visited, are in the state of (i, j + 1). */
  lemma SlidStepLines(V0: View, v: Position, n: int, i: int, j: int)
    requires IsView(V0, n) && UnitVector(v) && Unmerged(V0, n) && 0 <= i < n && 0 <= j < n
    ensures LinesState(Step(Slid(V0, v, n, i, j), n, Visit(v, n, i, j), v), V0, v, n, i, j + 1)
  {
    SlidLines(V0, v, n, i, j);
    StepLines(Slid(V0, v, n, i, j), V0, v, n, i, j);
  }

  /** Before the first step the slid view is the starting one. */
  lemma SlidStart(V0: View, v: Position, n: int)
    requires IsView(V0, n) && UnitVector(v)
    ensures Slid(V0, v, n, 0, 0) == V0
  {
    StartLines(V0, v, n);
    LinesSlid(V0, V0, v, n, 0, 0);
  }

  /** The end of one inner loop is the start of the next. */
  lemma SlidNext(V0: View, v: Position, n: int, i: int)
    requires IsView(V0, n) && UnitVector(v) && 0 <= i < n
    ensures Slid(V0, v, n, i, n) == Slid(V0, v, n, i + 1, 0)
  {
    SlidLines(V0, v, n, i, n);
    NextLines(Slid(V0, v, n, i, n), V0, v, n, i);
    LinesSlid(Slid(V0, v, n, i, n), V0, v, n, i + 1, 0);
  }

  /** Once every cell has been visited, the slid view holds the moved board. */
  lemma SlidFinished(V0: View, v: Position, n: int)
    requires IsView(V0, n) && UnitVector(v)
    ensures ValuesOf(Slid(V0, v, n, n, 0), n) == MovedBoard(ValuesOf(V0, n), v, n)
  {
    SlidLines(V0, v, n, n, 0);
    FinishedBoard(Slid(V0, v, n, n, 0), V0, v, n);
  }

  // ---------------------------------------------------------------------------
  // The board after a move

  predicate IsBoard(B: seq<seq<int>>, n: int) {
    |B| == n && forall x :: 0 <= x < n ==> |B[x]| == n
  }

  /** Some cell of the board is empty. */
  predicate HasEmpty(B: seq<seq<int>>, n: int)
    requires IsBoard(B, n)
  {
    exists x, y :: 0 <= x < n && 0 <= y < n && B[x][y] == 0
  }

  /** B1 is B0 with a new tile of value w on cell p, which was empty. */
  predicate Spawned(B0: seq<seq<int>>, B1: seq<seq<int>>, n: int, p: Position, w: int)
    requires IsBoard(B0, n) && IsBoard(B1, n)
  {
    InBoard(p, n) && B0[p.x][p.y] == 0 && B1[p.x][p.y] == w &&
    forall x, y :: 0 <= x < n && 0 <= y < n && Position(x, y) != p ==> B1[x][y] == B0[x][y]
  }


  /** A line after the move: its tiles merged by the live rule and laid from
      the wall, the remaining cells empty. */
  function MovedLine(line: seq<int>): (r: seq<int>)
    ensures |r| == |line|
  {
    var placed := Values(LiveMerge(NonZeros(line)));
    ArriveAllShape([], NonZeros(line));
    placed + Zeros(|line| - |placed|)
  }

  /** The board of values after a move along v: every line is moved. */
  function MovedBoard(B: seq<seq<int>>, v: Position, n: int): (r: seq<seq<int>>)
    requires IsBoard(B, n)
    ensures IsBoard(r, n)
  {
    seq(n, x requires 0 <= x < n => seq(n, y requires 0 <= y < n =>
      MovedLine(LineValues(B, v, n, LineIndex(v, Position(x, y))))[Place(v, n, Position(x, y))]))
  }

  lemma LineValuesOf(V: View, v: Position, n: int, k: int)
    requires IsView(V, n) && 0 <= k < n
    ensures LineValues(ValuesOf(V, n), v, n, k) == Values(LineOf(V, v, n, k))
  {
  }

  /** Once every cell has been visited, the board is the moved board. */
  lemma FinishedBoard(V: View, V0: View, v: Position, n: int)
    requires IsView(V, n) && IsView(V0, n) && UnitVector(v)
    requires LinesState(V, V0, v, n, n, 0)
    ensures ValuesOf(V, n) == MovedBoard(ValuesOf(V0, n), v, n)
  {
    var B, M := ValuesOf(V, n), MovedBoard(ValuesOf(V0, n), v, n);
    forall x, y | 0 <= x < n && 0 <= y < n
      ensures B[x][y] == M[x][y]
    {
      var p := Position(x, y);
      var k, q := LineIndex(v, p), Place(v, n, p);
      AtPlace(v, n, p);
      var L, L0 := LineOf(V, v, n, k), LineOf(V0, v, n, k);
      assert Processed(v, n, k, n, 0) == n;
      assert L0[..n] == L0;
      LineValuesOf(V0, v, n, k);
      assert L[q] == V[x][y];
    }
    forall x | 0 <= x < n
      ensures B[x] == M[x]
    {
    }
  }

  /** Line k of a [x][y] board is line k of its [row][column] snapshot. */
  lemma LinesOfTransposed(g: Matrix, dir: int, k: int)
    requires IsSquare(g) && 0 <= dir <= 3 && 0 <= k < N
    ensures LineValues(Transposed(g), Vector(dir), N, k) == Simulation.Line(g, dir, k)
  {
    var line := LineValues(Transposed(g), Vector(dir), N, k);
    forall q | 0 <= q < N
      ensures line[q] == Simulation.Line(g, dir, k)[q]
    {
      if q == 0 {
      } else if q == 1 {
      } else if q == 2 {
      } else {
      }
    }
  }

  /** One cell of the moved board, read through the snapshot's lines. */
  lemma MovedCellIsNext(B: Matrix, dir: int, r: int, c: int)
    requires IsSquare(B) && 0 <= dir <= 3 && 0 <= r < N && 0 <= c < N
    ensures MovedBoard(B, Vector(dir), N)[c][r] == Simulation.NextGrid(Transposed(B), dir)[r][c]
  {
    var v := Vector(dir);
    var g := Transposed(B);
    TransposeInvolution(B);
    var p := Position(c, r);
    var k, q := LineIndex(v, p), Place(v, N, p);
    AtPlace(v, N, p);
    var line := LineValues(B, v, N, k);
    LinesOfTransposed(g, dir, k);
    assert line == Simulation.Line(g, dir, k);
    LiveMergeIsMergeLeft(line);
    assert MovedLine(line) == MergeLeft(line);
    NextGridCell(g, dir, r, c);
  }

  /** One cell of the simulated engine's next grid, read along its line. */
  lemma NextGridCell(g: Matrix, dir: int, r: int, c: int)
    requires IsSquare(g) && 0 <= dir <= 3 && 0 <= r < N && 0 <= c < N
    ensures var p := Position(c, r);
      Simulation.NextGrid(g, dir)[r][c] ==
        MergeLeft(Simulation.Line(g, dir, LineIndex(Vector(dir), p)))[Place(Vector(dir), N, p)]
  {
    var v := Vector(dir);
    var G := Simulation.NextGrid(g, dir);
    var p := Position(c, r);
    var k, q := LineIndex(v, p), Place(v, N, p);
    AtPlace(v, N, p);
    Simulation.LineOfNextGrid(g, dir, k);
    LinesOfTransposed(G, dir, k);
    TransposeInvolution(G);
    assert LineValues(Transposed(G), v, N, k)[q] == Transposed(G)[c][r];
  }

  /** On a 4x4 board the moved board is the simulated engine's next grid:
      the board [x][y] seen as the snapshot [row][column] is its transpose. */
  lemma MovedBoardIsNextGrid(B: Matrix, dir: int)
    requires IsSquare(B) && 0 <= dir <= 3
    ensures Transposed(MovedBoard(B, Vector(dir), N)) == Simulation.NextGrid(Transposed(B), dir)
  {
    var M := MovedBoard(B, Vector(dir), N);
    var G := Simulation.NextGrid(Transposed(B), dir);
    forall r, c | 0 <= r < N && 0 <= c < N
      ensures Transposed(M)[r][c] == G[r][c]
    {
      MovedCellIsNext(B, dir, r, c);
    }
    SameCells(Transposed(M), G);
  }
}
