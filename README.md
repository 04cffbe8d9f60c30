# TetrECS game-state engine in Dafny

TetrECS is a block-placement puzzle played on a 5 x 5 grid. The player
places 3 x 3 block patterns ("pieces") on the grid. A completely filled
column or row is a line: it scores, and its cells are emptied. A round timer
costs the player a life whenever it runs out before a piece is placed.

This project models the game-state engine, which consists of the two
classes `Grid` and `Game`, and proves properties of it:

- `pieces.dfy` (module `Pieces`): a piece as its integer block pattern
  `blocks[x][y]`, and an `Option` for the still-unset piece slots.
- `boards.dfy` (module `Boards`): a value snapshot of the grid (`Board`)
  with the `-1` off-grid sentinel, and the placement rule `Fits` and its
  effect `Place` as functions.
- `lines.dfy` (module `Lines`): full columns and full rows, the union of
  their cells, the number of lines and blocks, and the board after clearing.
  Counting those cells by inclusion-exclusion is proved here.
- `scoring.dfy` (module `Scoring`): the level a score earns and the round
  length at a level.
- `grid.dfy` (module `GridState`): the `Grid` class over an `array2<int>`
  that is updated in place. Its methods are proved against `Boards`.
- `game.dfy` (module `GameState`): the `Game` class. It holds the score,
  level, lives, multiplier, the current and following piece, line clearing
  after a placement, and the round-timer bookkeeping. Its methods are
  proved against `Lines` and `Scoring`.
- `scenarios.dfy` (module `Scenarios`): whole-session properties stated as
  runs of the engine.

Modelling choices:

- The grid cells live in `array2<int>`, with `cells[x, y]` for column x and
  row y. Each cell is one Java `IntegerProperty`.
- `Grid.Board()` is a ghost snapshot that ties the array to the value-level
  definitions.
- `getCols`/`getRows` are the constant fields `cols`/`rows`.
- A piece is its block pattern only. Pattern cell (px, py) lands on grid
  cell (ax + px - 1, ay + py - 1) for the anchor (ax, ay).
- The pieces `spawnPiece` draws at random are method parameters.
- `rotateCurrentPiece` takes the rotation as a function parameter.
- The round timer is recorded as what the engine asks of it:
  - `armedDelay` is the delay given to the latest scheduling;
  - `arms` counts the schedulings;
  - an expiry is an explicit call of `GameLoop`.
- The game-over event is the counter `gameOverSignals`.

Where the source's comments and its code disagree, the model follows the
code:

- The first scan in `afterPiece` is commented as rows but walks columns. It
  counts every non-empty cell of a column and has no early exit.
- The second scan is commented as columns but walks rows. It stops at the
  first empty cell.
- A game over does not stop `gameLoop`. With no lives left, the expiry only
  raises the event. The multiplier is still reset, the pieces still advance
  and the timer is still re-armed.
- `addLife` does not recompute the level.

## Model

| member | source | states |
|---|---|---|
| Boards.GetAfterSet | src/main/java/uk/ac/soton/comp1206/game/Grid.java:131-150 | after a write, the written cell reads the new value and every other coordinate, on or off the grid, reads as before |
| Boards.FitsIffOnGridAndEmpty | src/main/java/uk/ac/soton/comp1206/game/Grid.java:68-84 | a piece fits exactly when every non-empty pattern cell lands on an on-grid cell holding 0; empty pattern cells may hang off the grid |
| Boards.PlaceWritesPattern | src/main/java/uk/ac/soton/comp1206/game/Grid.java:97-106 | after a fitting placement, each cell under a non-empty pattern cell holds that pattern value and every other cell is unchanged |
| Boards.PlacedPieceNoLongerFits | src/main/java/uk/ac/soton/comp1206/game/Grid.java:74-77 | once a piece with a block has been played, the same piece at the same anchor no longer fits |
| Lines.ClearedCellsMember | src/main/java/uk/ac/soton/comp1206/game/Game.java:256-289 | a cell is collected for clearing exactly when it is on the grid and lies in a full column or a full row |
| Lines.ClearedCellsSize | src/main/java/uk/ac/soton/comp1206/game/Game.java:264-294 | the block count is C * rows + R * cols - C * R for C full columns and R full rows, so a crossing cell counts once |
| Lines.OneFullColumn | src/main/java/uk/ac/soton/comp1206/game/Game.java:256-271 | a single full column and no full row gives one line of `rows` blocks |
| Lines.OneFullRow | src/main/java/uk/ac/soton/comp1206/game/Game.java:274-289 | a single full row and no full column gives one line of `cols` blocks |
| Lines.RowMeetsColumn | src/main/java/uk/ac/soton/comp1206/game/Game.java:250-294 | one full column crossing one full row gives two lines and cols + rows - 1 blocks (9 on the 5 x 5 grid) |
| Lines.ClearLinesCells | src/main/java/uk/ac/soton/comp1206/game/Game.java:303-306 | clearing empties every cell of a full line and leaves every other cell as it was |
| Lines.EmptiedCellsAreClearLines | src/main/java/uk/ac/soton/comp1206/game/Game.java:303-306 | any board that empties exactly the collected cells and keeps the rest is the cleared board |
| Lines.NoLinesNoCells | src/main/java/uk/ac/soton/comp1206/game/Game.java:291-313 | with no full line no cell is collected and clearing changes nothing |
| Lines.NoFullLineAfterClear | src/main/java/uk/ac/soton/comp1206/game/Game.java:256-306 | on a grid with at least one column and one row, no line is full after clearing, so an immediate second scan finds no line |
| Scoring.LevelFor | src/main/java/uk/ac/soton/comp1206/game/Game.java:298 | the level is the floor of score / 1000: 1000 * level <= score < 1000 * (level + 1) |
| Scoring.LevelForMonotone | src/main/java/uk/ac/soton/comp1206/game/Game.java:298 | a non-negative score earns a non-negative level, and a higher score never earns a lower level |
| Scoring.PointsNonNegative | src/main/java/uk/ac/soton/comp1206/game/Game.java:333-338 | the points for a clear are never negative for non-negative lines, blocks and multiplier |
| Scoring.TimerDelay | src/main/java/uk/ac/soton/comp1206/game/Game.java:321-325 | the round length is at least 2500 and at least 12000 - 500 * level, and equals one of the two |
| Scoring.TimerDelayNonIncreasing | src/main/java/uk/ac/soton/comp1206/game/Game.java:321-325 | a higher level never gets a longer round |
| Scoring.TimerDelayFloor | src/main/java/uk/ac/soton/comp1206/game/Game.java:321-325 | from level 19 every round lasts exactly 2500 ms; below it a round lasts 12000 - 500 * level ms |
| GridState.Grid.constructor | src/main/java/uk/ac/soton/comp1206/game/Grid.java:43-56 | a new grid has the requested dimensions and every cell is 0 |
| GridState.Grid.Get | src/main/java/uk/ac/soton/comp1206/game/Grid.java:142-150 | an on-grid read returns the stored value; any other coordinate, negative ones included, reads -1 |
| GridState.Grid.Set | src/main/java/uk/ac/soton/comp1206/game/Grid.java:131-133 | exactly cell (x, y) takes the new value and no other cell changes |
| GridState.Grid.CanPlayPiece | src/main/java/uk/ac/soton/comp1206/game/Grid.java:68-84 | the nested scan with its early exit answers exactly whether the piece fits at the anchor |
| GridState.Grid.PlayPiece | src/main/java/uk/ac/soton/comp1206/game/Grid.java:94-110 | a fitting piece is written exactly as `Place` describes; a piece that does not fit leaves the grid unchanged |
| GameState.Game.constructor | src/main/java/uk/ac/soton/comp1206/game/Game.java:97-125 | a new game has an empty grid of the requested size, score 0, level 0, three lives, multiplier 1, no pieces and no timer armed |
| GameState.Game.ScheduleRound | src/main/java/uk/ac/soton/comp1206/game/Game.java:134 | each scheduling arms the timer with the current level's delay |
| GameState.Game.Start | src/main/java/uk/ac/soton/comp1206/game/Game.java:130-136 | starting sets up the piece pair and arms the timer at the current level's delay; score, level, lives and multiplier are unchanged |
| GameState.Game.InitialiseGame | src/main/java/uk/ac/soton/comp1206/game/Game.java:157-161 | the first spawn becomes the current piece and the second the following one |
| GameState.Game.NextPiece | src/main/java/uk/ac/soton/comp1206/game/Game.java:213-224 | the previous following piece becomes current and the spawned piece follows |
| GameState.Game.SwapCurrentPiece | src/main/java/uk/ac/soton/comp1206/game/Game.java:229-234 | the current and following pieces are exchanged |
| GameState.Game.RotateCurrentPiece | src/main/java/uk/ac/soton/comp1206/game/Game.java:241-244 | the current piece is replaced by its rotation and nothing else changes |
| GameState.Game.Score | src/main/java/uk/ac/soton/comp1206/game/Game.java:333-338 | the score grows by lines * blocks * multiplier * 10 at the multiplier in force |
| GameState.Game.AddLife | src/main/java/uk/ac/soton/comp1206/game/Game.java:343-354 | with at least 500 points one life is bought for 500 points, otherwise nothing changes; the score stays non-negative and the level is not recomputed |
| GameState.Game.UpdateLives | src/main/java/uk/ac/soton/comp1206/game/Game.java:359-370 | with lives left exactly one is lost; with none left lives stay at 0 and game over is raised once |
| GameState.Game.GameLoop | src/main/java/uk/ac/soton/comp1206/game/Game.java:141-152 | an expiry loses a life or raises game over, resets the multiplier to 1, advances the pieces and re-arms the timer, even after game over |
| GameState.Game.CountColumn | src/main/java/uk/ac/soton/comp1206/game/Game.java:257-264 | the count of non-empty cells in a column reaches `rows` exactly when the column is full |
| GameState.Game.CountRow | src/main/java/uk/ac/soton/comp1206/game/Game.java:275-282 | the walk along a row, stopped at the first empty cell, reaches `cols` exactly when the row is full |
| GameState.Game.CollectColumn | src/main/java/uk/ac/soton/comp1206/game/Game.java:266-269 | every cell of the column is added to the collected set |
| GameState.Game.CollectRow | src/main/java/uk/ac/soton/comp1206/game/Game.java:284-287 | every cell of the row is added to the collected set |
| GameState.Game.ScanColumns | src/main/java/uk/ac/soton/comp1206/game/Game.java:256-271 | the first scan counts the full columns and collects exactly their cells |
| GameState.Game.ScanRows | src/main/java/uk/ac/soton/comp1206/game/Game.java:274-289 | the second scan adds the full rows to the count and exactly their cells to the set |
| GameState.Game.ZeroCells | src/main/java/uk/ac/soton/comp1206/game/Game.java:303-306 | emptying the collected cells, in any order, yields the cleared board |
| GameState.Game.AfterPiece | src/main/java/uk/ac/soton/comp1206/game/Game.java:250-314 | lines = full columns + full rows and blocks = size of the union of their cells; with a line, the score grows by lines * blocks * old multiplier * 10, the multiplier grows by one, the level is recomputed from the new score and the cells are emptied; without one, the grid, score and level stay and the multiplier is 1; the invariant (score, level, lives >= 0, multiplier >= 1) is kept |
| GameState.Game.BlockClicked | src/main/java/uk/ac/soton/comp1206/game/Game.java:168-188 | a click places the current piece exactly when it fits. A rejected click changes nothing: grid, score, lives, multiplier, pieces and timer all stay. An accepted one places, clears and scores as `AfterPiece` says, advances the pieces and re-arms the timer at the new level's delay |
| Scenarios.FourthExpiryEndsGame | src/main/java/uk/ac/soton/comp1206/game/Game.java:141-152 | from a fresh game, three expiries take the three lives without game over; the fourth raises game over, and the timer has been armed five times |
| Scenarios.SwapTwiceRestores | src/main/java/uk/ac/soton/comp1206/game/Game.java:229-234 | swapping twice is the identity on the piece pair |
| Scenarios.ClearTwice | src/main/java/uk/ac/soton/comp1206/game/Game.java:250-314 | on a grid with at least one column and one row, a second clearing pass straight after the first finds no line and leaves the multiplier at 1 |
| Scenarios.MiddleColumnFull | src/main/java/uk/ac/soton/comp1206/game/Game.java:256-271 | a 3 x 3 board whose only full line is column 1 clears one line of three blocks |
| Scenarios.BarFillsMiddleColumn | src/main/java/uk/ac/soton/comp1206/game/Grid.java:68-106 | on an empty 3 x 3 board a vertical bar anchored at (1, 1) fits and fills column 1 |
| Scenarios.ClearMiddleColumn | src/main/java/uk/ac/soton/comp1206/game/Game.java:303-306 | clearing the full middle column of a 3 x 3 board empties it |
| Scenarios.FirstColumnClear | src/main/java/uk/ac/soton/comp1206/game/Game.java:168-188 | on a fresh 3 x 3 game the bar played at (1, 1) is accepted and scores 1 * 3 * 1 * 10 = 30; the multiplier becomes 2, the level stays 0 and column 1 is empty again |

## Left out

- Thread-based timing is not modelled: the `ScheduledExecutorService`, `ScheduledFuture.cancel`, and `stopTimer`'s `shutdownNow`. The timer is the recorded `armedDelay` and `arms`, and an expiry is an explicit `GameLoop` call.
- `Platform.runLater` deferral of the game-over callback is not modelled. The event is counted in `gameOverSignals` at once.
- `spawnPiece` is random (`java.util.Random`). The spawned pieces are parameters of `Start`, `InitialiseGame`, `NextPiece`, `GameLoop` and `BlockClicked`.
- `GamePiece` is not part of this model: its catalogue of shapes and colours and its rotation arithmetic. A piece is its block pattern only, and `RotateCurrentPiece` takes the rotation as a parameter.
- GameState.Game.RotateCurrentPiece: the source rotates the piece object in place, so the following slot changes too if it holds the same object. The model replaces the current piece value and does not capture that aliasing.
- Audio cues and listener callbacks are not modelled. These are `Multimedia`, `nextPieceListener`, `lineClearedListener` and `gameLoopListener`. `AddLife` returns which cue would play.
- `getGridProperty` and JavaFX property binding are not modelled. The collected set holds coordinates, and each coordinate stands for one cell property, so the set's size is the same.
- The `scores` list, scenes, UI components, settings and configuration handle layout, file I/O or floating point. None of them is part of this model.
- GameState.Game.Score: the source adds in Java's 32-bit `int`. The model uses unbounded integers, so it does not capture overflow past 2147483647 points.
- GridState.Grid.Set: requires an on-grid coordinate. An off-grid write in the source throws an exception, and its callers never make one.
- GameState.Game.BlockClicked: requires a current piece. Before `start` the source's current piece is `null` and a click would throw.
- Grid dimensions are natural numbers. A negative size given to the source's constructor makes Java's array allocation throw.
- Lines.NoFullLineAfterClear and Scenarios.ClearTwice: require at least one column and one row. On a grid with no rows every column is vacuously full, so a second pass would again report lines. The game always uses a 5 x 5 grid.
