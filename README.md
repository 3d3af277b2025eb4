# 2048 move engine and autoplayer, in Dafny

This project models the part of a 2048 autoplayer that decides and plays moves on
a 4×4 board. It has three parts.

- **The simulated move engine.** It works on a board snapshot, a matrix of tile values
  with 0 for an empty cell.
  - A move in any direction is a rotation, a left merge of every row (`moveTraversable`),
    and the inverse rotation.
  - The helpers belong here too: the quarter, half and three-quarter turns, the transpose,
    the count of empty cells ("holes"), the one-empty-cell test, and the position of the
    largest tile.
  - Modules `Matrices`, `RowMerge`, `Simulation` and `Features`.
- **The move selector** (`getNextMove`), in module `MoveSelection`.
  - It simulates the four directions and gives a sentinel rating to each one that changes
    nothing.
  - It takes 500 off any candidate board left with exactly one empty cell.
  - It returns the best direction. Ties go to up, then right, then down, then left.
  - When all four ratings are the sentinel, it returns a random direction.
  - The genome's rating and the random direction are parameters.
- **The live game**, in modules `Board` and `Game`.
  - A `GameManager` owns a `Grid`: a size×size array of cells, each holding a `Tile`
    object or nothing.
  - A move updates the grid in place: it slides tiles, replaces merged pairs with new
    tiles that record their parents (`mergedFrom`), and updates `score`, `won` and `over`.
  - The program carries two copies of the game: `2048.js` and `public/2048.js`. Both are
    modelled by the one class. They differ in these ways:
    - in `move`, the first copy does nothing once the game is over or won, and counts a 2048 as a win (`GameManager.Move`);
    - in `move`, the second copy, driven by the autoplayer, only signals a restart once the game is over, and never wins (`GameManager.PlayerMove`);
    - in `setup`, only the first copy resets the move counters and the random seed;
    - only the second copy has `Grid.getMaximumValue`, `Grid.toArray` and `getNextMove`, which the autoplayer uses.

The simulated engine is pure. It is written as functions over `seq<seq<int>>`, each
paired with the loop method it specifies, named after the program's own functions
(`MoveTraversable`, `RotateArray90`, `GetNumberOfHoles`, …). Each method is proved equal
to its function.

The live game is imperative. It is modelled by classes whose methods change the grid
array, the tile fields and the game flags, with `modifies` frames and loop invariants.
The traversal of a move keeps two invariants.
- `Progress`:
  - the merges so far are recorded and counted in the score;
  - only cells already visited have changed;
  - `moved` is set exactly when some cell has changed.
- `Sliding`: the board, read as a value (`LiveBoard.View`: each cell's tile value and
  whether a merge of this move made it), is `LiveBoard.Slid` of the board the move began on.
  - That is, on every line the visited cells hold their tiles merged by the live rule and
    laid out from the wall the tiles move towards.
  - The live rule: a tile merges into an equal tile it runs into, unless that tile is
    itself a merge of this move.
  - Each cell's step, `LiveBoard.Step`, is what `MoveCell` does to the board: the tile
    merges into the tile after the farthest empty cell ahead of it, or lands on that cell.

Three results connect the parts:
- `Game.GameManager.MoveTiles`: after a live move the board's values are
  `LiveBoard.MovedBoard` of the values before it. On a 4×4 board these are, read through
  the snapshot `Grid.toArray` produces, exactly `Simulation.NextGrid`.
- `LiveLine.LiveMergeIsMergeLeft`: along one line, the live rule places exactly the tiles
  `moveTraversable` computes. `LiveBoard.MovedBoardIsNextGrid` lifts this to the board.
- `Game.GameManager.MovesLeftIsSimulated`: the live game-over test agrees with the
  simulated one on the snapshot.

Randomness becomes parameters:
- a `Draw` holds the two numbers in [0, 1) that placing a new tile consumes;
- a fallback direction stands in for the random pick in `getNextMove`.

## Model

| member | source | states |
|---|---|---|
| Matrices.RotateFourTimes | public/2048.js:94-104 | four quarter turns give back the original board |
| Matrices.RotateInverse | public/2048.js:94-112 | the three-quarter turn undoes the quarter turn, in both orders |
| Matrices.Rotate180Involution | public/2048.js:106-108 | the half turn is its own inverse |
| Matrices.Rotated90Injective | public/2048.js:94-104 | two boards have the same quarter turn exactly when they are equal |
| Matrices.Rotated180At | public/2048.js:106-108 | the half turn puts cell (i, j) at (3-i, 3-j) |
| Matrices.Rotated270At | public/2048.js:110-112 | the three-quarter turn puts cell (j, 3-i) at (i, j) |
| Matrices.TransposeInvolution | public/2048.js:389-399 | transposing twice gives back the board |
| Matrices.Rotated90Counts | public/2048.js:94-104 | a quarter turn keeps the board's total and its number of empty cells |
| Matrices.Rotated180Counts | public/2048.js:106-108 | a half turn keeps the board's total and its number of empty cells |
| Matrices.Rotated270Counts | public/2048.js:110-112 | a three-quarter turn keeps the board's total and its number of empty cells |
| Matrices.TransposedCounts | public/2048.js:389-399 | transposing keeps the board's total and its number of empty cells |
| RowMerge.NonZeros | public/2048.js:116-120 | the tiles of a row, in order: one per non-zero cell, none zero, same total |
| RowMerge.MergePairs | public/2048.js:121-126 | the merge pass keeps the row's length and total |
| RowMerge.MergeLeft | public/2048.js:114-140 | a row of at most four cells comes out with exactly four |
| RowMerge.MergePairsTiles | public/2048.js:121-126 | the merge pass never adds tiles, and removes one whenever two neighbours are equal |
| RowMerge.MergeLeftZerosTrail | public/2048.js:114-140 | in the merged row every tile comes before every empty cell |
| RowMerge.MergeLeftSum | public/2048.js:114-140 | the merged row has the same total as the input row |
| RowMerge.MergeLeftTiles | public/2048.js:114-140 | the merged row has no more tiles than the input, and strictly fewer when two consecutive tiles are equal |
| RowMerge.MergeLeftEmptyRow | public/2048.js:114-140 | an empty row comes out unchanged |
| RowMerge.MergeLeftFixedPoint | public/2048.js:114-140 | merging changes nothing exactly when the tiles are packed to the left and no two neighbours are equal |
| RowMerge.MergeFourEqual | public/2048.js:121-126 | [2,2,2,2] gives [4,4,0,0]: a doubled cell does not merge again |
| RowMerge.MergeAcrossGaps | public/2048.js:116-126 | [0,2,0,2] gives [4,0,0,0]: tiles separated by empty cells merge |
| RowMerge.MergeKeepsLeader | public/2048.js:114-140 | [4,0,2,2] gives [4,4,0,0] |
| RowMerge.MergedTileStaysPut | public/2048.js:121-126 | [2,2,4,0] gives [4,4,0,0]: a merged 4 does not merge with the next 4 |
| RowMerge.MergeStepDouble | public/2048.js:122-125 | one step of the merge loop on an equal pair (double, then zero the neighbour) keeps the merge pass's result |
| RowMerge.MergeStepKeep | public/2048.js:121-126 | one step of the merge loop on an unequal pair keeps the merge pass's result |
| RowMerge.MoveTraversable | public/2048.js:114-140 | the three loops compute the left merge of the row |
| RowMerge.CollectTiles | public/2048.js:116-120 | the first loop collects the row's tiles in order |
| RowMerge.MergeNeighbours | public/2048.js:121-126 | the in-place merge loop computes the merge pass |
| RowMerge.PackAndPad | public/2048.js:127-138 | the last loops drop the zeros and pad with zeros to four cells |
| LiveLine.LiveMergeAgrees | public/2048.js:556-578 | tiles arriving one by one under the live merge rule leave the same values as the simulated merge pass |
| LiveLine.LiveMergeIsMergeLeft | public/2048.js:556-578 | laid out on a line of four cells, the live rule's result is exactly moveTraversable's |
| Simulation.RotateArray90 | public/2048.js:94-104 | the loop computes the quarter turn |
| Simulation.RotateArray180 | public/2048.js:106-108 | two quarter turns compute the half turn |
| Simulation.RotateArray270 | public/2048.js:110-112 | three quarter turns compute the three-quarter turn |
| Simulation.TransposeArrayGrid | public/2048.js:389-399 | the loop computes the transpose |
| Simulation.CalculateNextLeftFunction | public/2048.js:86-92 | every row merged to the left |
| Simulation.CalculateNextUpFunction | public/2048.js:68-72 | three-quarter turn, left merge, quarter turn |
| Simulation.CalculateNextDownFunction | public/2048.js:74-78 | quarter turn, left merge, three-quarter turn |
| Simulation.CalculateNextRightFunction | public/2048.js:80-84 | half turn, left merge, half turn |
| Simulation.CalculateNextMove | public/2048.js:56-66 | dispatch on 0 up, 1 right, 2 down, anything else left |
| Simulation.NextGridAligned | public/2048.js:56-92 | every direction is the left move seen through its rotation |
| Simulation.MoveKeepsTotal | public/2048.js:56-140 | a simulated move keeps the board's total |
| Simulation.MoveKeepsOrFreesCells | public/2048.js:56-140 | a simulated move never reduces the number of empty cells |
| Simulation.NoOpAligned | public/2048.js:56-92 | a move changes nothing exactly when the left move changes nothing on the rotated board |
| Simulation.MoveIsNoOpIff | public/2048.js:56-140 | a move changes nothing exactly when every line in its direction is packed and has no equal neighbours |
| Simulation.StuckIsFull | public/2048.js:56-140 | a board with a tile on which no direction changes anything has no empty cell |
| Simulation.StuckHasNoMatches | public/2048.js:56-140 | on a board where no direction changes anything, no two orthogonal neighbours are equal |
| Simulation.StuckIffNoMovesAvailable | public/2048.js:643-675 | on a board with a tile, no direction changes anything exactly when there is neither an empty cell nor a pair of equal neighbours |
| Simulation.EmptyBoardStuck | public/2048.js:56-140 | on an empty board no direction changes anything |
| Features.HolesNone | public/2048.js:290-300 | the number of holes is 0 exactly when no cell is empty |
| Features.HolesOne | public/2048.js:290-300 | the number of holes is 1 exactly when exactly one cell is empty |
| Features.ZeroCountOne | public/2048.js:336-349 | a row has exactly one zero exactly when some position is its only zero |
| Features.GetNumberOfHoles | public/2048.js:290-300 | the loop counts the empty cells |
| Features.JustOneTileEmpty | public/2048.js:336-349 | true exactly when the board has exactly one empty cell |
| Features.GetMaximumPosition | public/2048.js:263-275 | the first cell in row-major order holding the largest positive value, (0, 0) when no cell is positive, always in bounds on a non-empty board |
| MoveSelection.PickDirection | public/2048.js:432-462 | a direction in 0..3; the fallback when all four ratings are the sentinel; otherwise one rated at least as high as every direction and strictly higher than every earlier one |
| MoveSelection.NextMove | public/2048.js:401-464 | the choice is always a direction in 0..3 |
| MoveSelection.RatingPenalty | public/2048.js:411-430 | an unchanged candidate is rated the sentinel, and 500 is taken off exactly when the candidate has one empty cell |
| MoveSelection.StuckBoardPlaysFallback | public/2048.js:432-439 | when no direction changes the board, the random direction is played |
| MoveSelection.ChosenMoveChangesBoard | public/2048.js:411-462 | with a rating above sentinel plus penalty, a direction that changes nothing is never chosen while another changes the board |
| MoveSelection.SimulateAllMoves | public/2048.js:406-409 | the four candidates are the simulated moves up, right, down, left |
| MoveSelection.RateCandidates | public/2048.js:411-430 | the four adjusted ratings (sentinel or rating, minus the penalty) |
| MoveSelection.ChooseNextMove | public/2048.js:401-464 | the method's cascade returns the selector's choice |
| Board.Tile.constructor | public/2048.js:1017-1024 | a new tile at the position, value 2 when none is given, no previous position, no merge record |
| Board.Tile.SavePosition | public/2048.js:1026-1028 | the tile records its current cell as its previous position |
| Board.Tile.UpdatePosition | public/2048.js:1030-1033 | the tile takes the given coordinates |
| Board.Grid.constructor | 2048.js:406-424 | a size×size grid of empty cells |
| Board.Grid.ContentKnowsItsCell | 2048.js:469-476 | nothing is found outside the board, and a tile found at a cell names that cell |
| Board.Grid.InsertTile | 2048.js:478-480 | the tile's own cell holds it and no other cell changes |
| Board.Grid.RemoveTile | 2048.js:482-484 | the tile's own cell is emptied and no other cell changes |
| Board.Grid.AvailableCells | 2048.js:434-454 | every empty cell, each once, in scan order, and nothing else |
| Board.Grid.CellsAvailable | 2048.js:456-459 | true exactly when some cell is empty |
| Board.Grid.RandomAvailableCell | 2048.js:426-432 | an empty cell when there is one, none on a full board |
| Board.Grid.GetMaximumValue | public/2048.js:702-713 | the largest tile value, 0 on an empty board |
| Board.Grid.ToArray | public/2048.js:766-784 | row r, column c of the matrix holds the value of the tile at x = c, y = r, and 0 where the cell is empty |
| LiveBoard.Vector | 2048.js:202-213 | up is y-1, right x+1, down y+1, left x-1, always a unit step |
| LiveBoard.StepIsPut | public/2048.js:556-578 | the step of a cell holding a tile puts a doubled, merge-marked tile on the cell after the farthest empty cell when that holds an equal unmerged tile, and otherwise puts the tile on the farthest empty cell; either way the cell it left is emptied |
| LiveBoard.FarthestIs | public/2048.js:627-641 | walking from a cell over s empty cells, then meeting the wall or a tile, ends s steps away |
| LiveBoard.FarthestOnLine | public/2048.js:627-641 | on a line whose first m cells hold the placed tiles and whose next cells up to c are empty, the walk from cell c stops at cell m |
| LiveBoard.LineAdvance | public/2048.js:556-578 | moving the tile of the next cell of a line as the live rule says extends the merged prefix of the line by that tile |
| LiveBoard.StepOnLine | public/2048.js:553-583 | visiting a cell of a line moves its tile as the live rule says and leaves the other lines unchanged |
| LiveBoard.StepLines | public/2048.js:551-585 | one visit, in traversal order, turns the lines of step (i, j) into those of step (i, j + 1) |
| LiveBoard.SlidStart | public/2048.js:550-551 | before the first visit the board is the one the move began on |
| LiveBoard.SlidStep | public/2048.js:552-584 | visiting the cell of step (i, j) turns the slid board of (i, j) into that of (i, j + 1) |
| LiveBoard.SlidNext | public/2048.js:551-585 | the end of one column of the traversal is the start of the next |
| LiveBoard.SlidFinished | public/2048.js:550-585 | once every cell is visited, the values of the board are the moved board of the values the move began on |
| LiveBoard.FinishedBoard | public/2048.js:550-585 | a board whose every line is fully visited holds, line by line, its old tiles merged by the live rule and laid from the wall |
| LiveBoard.MovedCellIsNext | public/2048.js:56-140 | each cell of the moved board, read through the snapshot, is the cell of the simulated next grid |
| LiveBoard.MovedBoardIsNextGrid | public/2048.js:56-140 | on a 4×4 board the live move of any direction, read through the snapshot, is the simulated move of that direction |
| Game.StepOf | public/2048.js:556-578 | the step of a cell in the terms move uses: merge into the next tile exactly when it is on the board, has the same value and is not a merge of this move; otherwise land on the farthest empty cell |
| Game.GameManager.constructor | 2048.js:32-44 | a game of the given size: two start tiles, each a 2 or a 4, on distinct cells that are exactly the occupied ones (fewer only when the board is full), and the counters reset |
| Game.GameManager.Setup | 2048.js:74-92 | score 0, not over, not won, counters reset, and the start tiles on an otherwise empty fresh grid, on distinct cells |
| Game.GameManager.AddStartTiles | 2048.js:95-100 | one new 2 or 4 per start tile on distinct empty cells, until the board is full |
| Game.GameManager.AddRandomTile | 2048.js:102-110 | on a board with an empty cell, one empty cell gets a fresh 2 (draw below 0.9) or 4; no other cell changes; a full board is left alone |
| Game.GameManager.PrepareTiles | 2048.js:121-129 | every tile on the board has no merge record and remembers its current cell |
| Game.GameManager.MoveTile | 2048.js:131-136 | the tile leaves its cell for the target, takes its coordinates, and no other cell changes |
| Game.GameManager.PositionsEqual | 2048.js:400-404 | true exactly when the two positions are equal |
| Game.GameManager.BuildTraversals | 2048.js:215-228 | on each axis 0..size-1, ascending, reversed exactly when the vector's component is 1 |
| Game.GameManager.FindFarthestPosition | 2048.js:230-244 | farthest is on the board and is the start or an empty cell reached through empty cells; next is one step beyond it, off the board or occupied; farthest is the walk of the board's view |
| Game.GameManager.FarthestShown | public/2048.js:627-641 | the loop's walk over empty grid cells ends where the walk over the view's empty cells ends |
| Game.GameManager.TileMatchesAvailable | 2048.js:371-398 | true exactly when some tile has an orthogonal neighbour of the same value |
| Game.GameManager.MovesAvailable | 2048.js:366-369 | true exactly when some cell is empty or two orthogonal neighbours are equal |
| Game.GameManager.PlaceMerged | public/2048.js:561-569 | a fresh tile of twice the value, recording both parents, takes the next tile's cell; the moving tile's cell is emptied; nothing else changes |
| Game.GameManager.MergeTiles | 2048.js:164-178 | the merge branch: the score grows by the merged value and a merged 2048 wins when wins are tracked |
| Game.GameManager.MoveCell | public/2048.js:553-582 | one cell of the traversal: the board's view becomes the Step of the cell (merge into the equal unmerged next tile, or land on the farthest empty cell); only the cell and one cell ahead of it change; a merge makes a new tile from two unmerged start tiles and adds its value to the score; "moved" means the cell's tile left |
| Game.GameManager.SlideFrom | public/2048.js:556-582 | for a cell holding a tile: the tile ends on the target, the cell itself or a cell ahead, and the board's view is the Step of the cell |
| Game.GameManager.SlideTile | public/2048.js:558-578 | it merges exactly when the next cell holds an equal tile that is not a merge of this move; the target is then the next cell and holds a doubled, merge-marked tile, otherwise the tile itself lands on the farthest cell; the cell left is emptied and nothing else changes |
| Game.GameManager.ShowsPut | public/2048.js:561-577 | placing the moved or merged tile on its target and emptying its cell is the Put on the board's view |
| Game.GameManager.TraverseCell | public/2048.js:552-583 | one cell of the traversal keeps both invariants: the merges are counted, only visited cells changed, and the board's view is the slid view one step further |
| Game.GameManager.ProgressStep | public/2048.js:553-582 | the bookkeeping of one visited cell: merges recorded, score and won updated, and "moved" kept exact |
| Game.GameManager.FrameStep | public/2048.js:553-582 | after one more visit, only visited cells differ from the start board, and the cell recorded as changed still differs |
| Game.GameManager.TraverseLine | public/2048.js:552-584 | one column of the traversal keeps both invariants, from the start of the column to the start of the next |
| Game.GameManager.TraverseLines | public/2048.js:551-585 | the columns, in traversal order, take both invariants from the first cell to the end |
| Game.GameManager.StartProgress | public/2048.js:545-548 | a move begins with nothing visited, nothing moved and no merges |
| Game.GameManager.StartView | public/2048.js:548-550 | when a move begins, the board's view holds the values before it, unmerged, and is the slid view of the start |
| Game.GameManager.FinishedView | public/2048.js:585 | after the traversal the board's values are the moved board of the values before it |
| Game.GameManager.Traverse | public/2048.js:550-585 | the whole traversal: every merge counted in the score, merged tiles made of equal unmerged start tiles, "moved" exactly when some cell changed, and the board's values the moved board |
| Game.GameManager.MoveTiles | public/2048.js:543-585 | the tiles slide and merge: the board's values become the moved board of the values before, which on a 4×4 board is the simulated next grid; the score grows by the merged values and never falls; "moved" is exactly "some cell changed" |
| Game.GameManager.GameOver | public/2048.js:590-592 | the game is over |
| Game.GameManager.CheckOver | public/2048.js:590-592 | the game is over exactly when it was already over or no empty cell and no equal neighbours remain |
| Game.GameManager.Play | public/2048.js:543-596 | as MoveTiles; when a tile moved and the slid board has an empty cell, exactly one such cell receives a new 2 or 4 as the draw says and nothing else changes; the game is over exactly when, after that, no moves remain |
| Game.GameManager.Move | 2048.js:138-200 | nothing changes once the game is over or won; otherwise Play, with a merged 2048 winning, and the board after it the simulated next grid plus the new tile |
| Game.GameManager.PlayerMove | public/2048.js:532-596 | once the game is over only a restart is signalled and nothing changes; otherwise Play, the board after it the simulated next grid plus the new tile, and won never changes |
| Game.GameManager.MergedValues | public/2048.js:572 | the merged values of a move add up to a non-negative amount, so the score never falls |
| Game.GameManager.GetNextMove | public/2048.js:401-409 | the autoplayer's direction is the selector's choice on the board's snapshot |
| Game.GameManager.MovesLeftIsSimulated | public/2048.js:643-675 | the live game-over test agrees with the simulated one on the snapshot: no moves left means no simulated direction changes the board, and the converse on a board with a tile |
| Game.GameManager.MatchesAreSimulated | public/2048.js:648-675 | equal live neighbours exist exactly when the snapshot has equal neighbours |

## Left out

- Rendering and input (`HTMLActuator`, `KeyboardInputManager`, `actuate`) are not modelled. They are DOM and event I/O.
- The Firestore listener, `persistGenome` and the interval driver (public/2048.js:1-54) are not modelled. They are network and timer plumbing.
- `public/sw.js` and `ml.js` are not part of this model.
- `getMoveRating`, `calculateRoughness` and `normalizeGrid` are not modelled. They use floating-point logarithms, powers and weights. The rating is the parameter `rate` of the move selector.
- The genetic algorithm (`EvolutionaryGenetics`, genome mutation and breeding) is not modelled. It rests on `Math.random` and floating-point weights.
- `getAllPossibleMoves`, `makeNextMove` and `evaluateNextGenome` in 2048.js (lines 250-362) are not modelled. They refer to names that are never defined.
- `makeNextMove` in public/2048.js is not written out. It is `GetNextMove` followed by `PlayerMove`, dispatched through the input manager's event.
- `Math.random` is not modelled as such: the numbers a new tile consumes are a `Draw` parameter, and `getRandomInt(0,3)` is the `fallback` parameter.
- `clone` (a JSON deep copy) is value semantics on `seq`. `gridArrayEquals` (a JSON string comparison) is `==` on matrices.
- `getState`, the saved round states and the `restart` handler are not modelled. They only copy state or rebuild it with `Setup`.
- `eachCell` is written out inline as the nested loops that use it.
- Board.Grid.RandomAvailableCell: states only that some empty cell is chosen. It does not state which one, though the method does compute the cell at the drawn fraction of the scan-ordered list.
- MoveSelection.Adjusted / MoveSelection.PickDirection: the ratings, the subtraction of 500 and the comparisons are done on exact `real` numbers, not on IEEE doubles (public/2048.js:411-462). Rounding is not modelled: two ratings a double apart can tie in the program once 500 is taken off, where the model still tells them apart.
- The move's board is stated on tile values and merge markers (`LiveBoard.View`). Which `Tile` object ends on which cell is stated cell by cell (`SlideTile`, `MergedPair`), not for the whole board.
- `previousPosition` is saved by `PrepareTiles` but never read by the move logic; only the rendering uses it.
- justOneTileEmpty also compares the whole board with 0 (public/2048.js:340). That comparison is always false, so `Features.JustOneTileEmpty` leaves it out.
- The public copy's `setup` does not reset `movesTaken`, `moveLimit` or `rndSeed`. The model resets them as 2048.js:74-92 does; no move reads them.
- The board size is a parameter of the live game. The simulated engine and the snapshot bridge fix it at 4, as `moveTraversable` pads to 4 (public/2048.js:135).
