# Conway's Game of Life engine, modelled in Dafny

This project models the engine of `conway.c`, a terminal Game of Life. The
model leaves out the curses front end and keeps the following parts.

- **The board.** A row-major array of tiles with a running count of live
  tiles (`nalive`).
- **The pending-change stack.** A LIFO stack of tile changes.
- **Scanning one tile.** `handleTile` counts a tile's live neighbours over
  the eight offsets, with no wrap-around. It then applies the B3/S23 rule
  and pushes a change only when the tile flips.
- **One tick.** `doTick` is two phases. The first scans every tile in
  row-major order against the unmodified board. The second, `doChanges`,
  pops and applies the pending changes.
- **The simulation loop.** It ticks until a tick changes nothing.
- **Interactive setup.** Arrow keys move a cursor, which is clamped to the
  board. Space toggles the tile under the cursor. Enter confirms and `q`
  cancels.

The board is modelled as a class with an `array` of tiles. The game state is
modelled as a class that owns the board, the cursor, the tick counter and
the stack. The methods that change them in place are proved against pure
specification functions:

- `Rules.NextGen`: the synchronous next generation.
- `Changes.ScanChanges` and `Changes.ApplyPops`: the stack after the scan,
  and what popping it does. The scan is stated for any target board; the
  game uses `Rules.NextGen` as the target.
- `Setup.SetupRun`: the effect of a run of key presses.

The two nested scan loops of `doTick` are the methods `GameState.ScanTiles`
(the loop over rows) and `GameState.ScanRow` (the loop over the columns of
one row). The central result is about the tick. It scans without writing, then
applies the recorded changes. The proof shows the board afterwards is
exactly the synchronous next generation. `DoTick` returns true exactly when
the board was not a fixed point.

Modules:

- `Rules`: tile states, the live count, the row-major layout, the neighbour
  count, the B3/S23 rule, `NextGen` and `Generation`.
- `Changes`: `Point`, `TileChange`, the `TileChangeStack` class, and the
  scan/apply specification with its lemmas.
- `Setup`: keys, cursor movement, toggling, and the meaning of a setup
  session.
- `Game`: the `Board` and `GameState` classes, with the imperative
  operations.
- `Patterns`: patterns defined by a predicate over (row, column); the block
  still life, the period-2 blinker, and a lone live corner.

`DoTick` returns whether any tile changed, as `doTick` does
(conway.c:257-262). `SimulationLoop` returns `halted`, which says whether a
tick changed nothing, and `GameState.tick` counts the ticks done.

## Model

| member | source | states |
|---|---|---|
| Rules.Flip | conway.c:101-109 | a toggle writes the other state: the result always differs from the input |
| Rules.CountAlive | conway.c:15 | the live count of a tile sequence is at most its length |
| Rules.CountAliveIsMultiplicity | conway.c:15 | the live count equals the number of `Alive` entries in the tiles (their multiset multiplicity) |
| Rules.CountAliveUpdate | conway.c:89-97 | overwriting one tile changes the live count by exactly the difference of the new and old tile's liveness (+1, -1 or 0) |
| Rules.NeighborBit | conway.c:203-212 | one offset contributes at most 1, and only when it lands on the board |
| Rules.OnBoardFrom | conway.c:202-207 | at most i of the first i offsets lie on the board |
| Rules.NeighborsFrom | conway.c:200-213 | the live neighbours among the first i offsets never exceed the on-board ones among them |
| Rules.NeighborCount | conway.c:200-213 | the neighbour count is at most the number of on-board neighbours, which is at most 8 |
| Rules.AllAliveCountsOnBoard | conway.c:205-212 | on an all-alive board the count equals the number of on-board neighbours, so exactly the in-bounds cells are counted |
| Rules.AllDeadCountsZero | conway.c:205-212 | on an all-dead board every count is 0 |
| Rules.CornerNeighbors | conway.c:201-207 | no wrap-around: on any board of at least 2 x 2, each of the four corner tiles has exactly 3 on-board neighbours |
| Rules.TopEdgeNeighbors | conway.c:201-207 | no wrap-around: a top-edge tile away from the corners has exactly 5 on-board neighbours |
| Rules.NextState | conway.c:219-229 | B3/S23: the next state is alive exactly when the count is 3, or it is 2 and the tile is alive |
| Rules.NextGen | conway.c:252-256 | the next generation has the same shape, and every tile is the rule applied to the pre-tick board |
| Rules.IsFixedPoint | conway.c:257-262 | a board the tick leaves unchanged; `doTick` returns false exactly on such a board (see `Game.GameState.DoTick`) |
| Rules.FixedPointIffNoFlip | conway.c:252-257 | a board is a fixed point exactly when the rule keeps every tile in its current state, so the scan pushes nothing |
| Rules.Generation | conway.c:269 | every generation keeps the board's shape |
| Rules.FixedPointIsFinal | conway.c:269-273 | once a generation is a fixed point, all later generations equal it |
| Changes.TileChangeStack.constructor | conway.c:312 | a new stack is empty |
| Changes.TileChangeStack.IsEmpty | conway.c:54-56 | empty exactly when no change is held |
| Changes.TileChangeStack.Push | conway.c:47-52 | the change becomes the new top and every other change is kept; the stack is then non-empty |
| Changes.TileChangeStack.Pop | conway.c:58-64 | returns the last pushed change and restores the stack below it |
| Changes.Write | conway.c:236 | applying a change writes its new state at its tile's index and nothing else |
| Changes.ApplyPops | conway.c:233-243 | popping and writing the stack keeps the board's shape |
| Changes.ApplyPopsAt | conway.c:233-243 | with distinct targets, each tile ends with the state its change names, or keeps its old state when none names it |
| Changes.ApplyOrderIrrelevant | conway.c:233-243 | with distinct targets, any reordering of the changes gives the same board |
| Changes.PointAt | conway.c:215-217 | the coordinate recorded for a flat index is on the board and lies at that index |
| Changes.PointAtIndex | conway.c:215-217 | recovering the coordinate of an in-bounds tile's index gives back that tile's row and column |
| Changes.CellChange | conway.c:215-229 | at most one change per tile, and exactly one when the tile's target state differs from its current state; the change names that tile, on the board, with the target state |
| Changes.ScanChanges | conway.c:252-256 | the stack after the two scan loops have visited the first k tiles in row-major order: the changes of tiles 0 to k-1, in visiting order; `Game.GameState.ScanTiles` is proved to leave exactly this on the stack |
| Changes.ScanChangesOnBoard | conway.c:252-256 | every change recorded by the scan names a tile on the board |
| Changes.ScanChangesSound | conway.c:252-256 | every recorded change flips a visited tile to its target state, and the targets strictly increase in row-major order |
| Changes.ScanChangesComplete | conway.c:252-256 | every visited tile whose target state differs is recorded |
| Changes.ScanChangesDistinct | conway.c:252-256 | no tile is recorded twice in one tick |
| Changes.ScanEmptyIffUnchanged | conway.c:257 | a full scan records nothing exactly when the target board equals the current one |
| Changes.ApplyScanIsNext | conway.c:233-243 | popping and writing everything a full scan recorded turns the board into exactly the target board |
| Setup.MoveCursor | conway.c:127-154 | the cursor stays on the board; it stays put exactly at the edge or for a non-arrow key, and otherwise moves one step in the key's direction |
| Setup.ToggleAt | conway.c:99-114 | exactly the tile under the cursor changes |
| Setup.SetupRun | conway.c:119-167 | cursor and tiles stay on the board; the session is still waiting exactly when no Enter or `q` was pressed; without Space the tiles are unchanged |
| Setup.SetupConfirmedIff | conway.c:159-162 | setup confirms exactly when an Enter comes before any `q` |
| Game.Board.constructor | conway.c:301-305 | a new board is all dead with `nalive` 0 and the requested shape |
| Game.Board.GetTileState | conway.c:85-87 | returns the tile at row * ncols + col; a live tile implies a positive live count |
| Game.Board.SetTileState | conway.c:89-97 | writes one tile, changes nothing else, and adjusts `nalive` by +1, -1 or 0 so that it still counts the live tiles |
| Game.Board.CountAliveNeighbors | conway.c:200-213 | the loop's result is the neighbour count over the on-board offsets |
| Game.GameState.constructor | conway.c:300-312 | starts all dead, cursor at (0, 0), tick 0, no pending changes |
| Game.GameState.ToggleTileState | conway.c:99-114 | flips exactly the tile under the cursor; `nalive` moves by one |
| Game.GameState.SetUpBoard | conway.c:119-167 | the outcome, cursor and tiles are those `Setup.SetupRun` gives for the key presses |
| Game.GameState.HandleTile | conway.c:198-230 | pushes exactly the change `Changes.CellChange` records for the tile when the target is `Rules.NextGen`, so a push happens exactly when the rule flips the tile; the board is not written |
| Game.GameState.DoChanges | conway.c:233-243 | empties the stack and leaves the board as `Changes.ApplyPops` of the old board and stack |
| Game.GameState.ScanRow | conway.c:253-255 | the inner scan loop appends the changes of one row's tiles, left to right, to those of the rows before it |
| Game.GameState.ScanTiles | conway.c:252-256 | the two scan loops leave on the stack exactly the changes `Changes.ScanChanges` records against `Rules.NextGen`, without writing the board |
| Game.GameState.DoTick | conway.c:247-263 | the board becomes `Rules.NextGen` of the old board; tick goes up by 1; returns true exactly when the old board was not a fixed point |
| Game.GameState.SimulationLoop | conway.c:265-274 | the board is the generation after the ticks done; on halting, the last tick was the first that changed nothing; otherwise no generation so far was a fixed point |
| Patterns.Pattern | conway.c:10-16 | a pattern board has the tile (row, col) alive exactly where the pattern's predicate holds |
| Patterns.PatternNeighborsFrom | conway.c:200-213 | on a board that depicts a predicate, the first i offsets count the same live neighbours on the board as on the predicate |
| Patterns.PatternNeighbors | conway.c:200-213 | on a board that depicts a predicate, the neighbour count is the number of the eight surrounding positions that are on the board and live |
| Patterns.PatternStepAt | conway.c:247-263 | on boards depicting p and q related by the rule, the tick's next state of each tile of the first is that tile of the second |
| Patterns.PatternStep | conway.c:247-263 | one tick takes pattern p to pattern q when each tile of q is B3/S23 applied to p's tile and its neighbour count in p |
| Patterns.BlockIsStill | conway.c:219-229 | the 2 x 2 block is a fixed point |
| Patterns.BlinkerTurnsVertical | conway.c:247-263 | a horizontal blinker becomes vertical after one tick |
| Patterns.BlinkerTurnsHorizontal | conway.c:247-263 | a vertical blinker becomes horizontal after one tick |
| Patterns.BlinkerPhasesDiffer | conway.c:247-263 | the two blinker phases are different boards |
| Patterns.PeriodTwo | conway.c:269 | a board that returns to itself after two ticks alternates between its two phases forever |
| Patterns.BlinkerOscillates | conway.c:269 | the blinker alternates with period two and is never a fixed point, so the simulation loop never halts on it |
| Patterns.LoneCornerNeighbors | conway.c:205-212 | with only the corner alive, the tiles touching it count 1 and all others count 0 |

## Left out

- Curses rendering (`showCursor`, `waddch`, `mvwaddch`, window refreshes, prompts) and window setup are left out because they are output only. So is the `tick` number shown on the prompt line.
- Key input through `getch` is left out. `SetUpBoard` instead takes the key presses as a sequence parameter. If the sequence ends before Enter or `q`, the outcome is `AwaitingInput`.
- `getTicksPerSecond` is left out: it parses a number from the terminal with `strtoul`, which is I/O.
- The pacing in `simulationLoop` is left out: `usleep` with `1000000 / ticksPerSec` microseconds. It only sets timing. The code also accepts a rate of 0 at the prompt and would then divide by zero at conway.c:267. The model has no rate, so this case is not represented.
- Game.GameState.SimulationLoop: takes a `maxTicks` bound. The code's loop can run forever, for example on the blinker of `Patterns`. When the bound is reached, the method states that no generation so far was a fixed point.
- The board's dimensions come from the terminal size in `main`. In the model they are the constructor's parameters, required to be positive.
- `malloc`, `calloc` and `free` for the stack nodes and the tile array are left out. The stack is a sequence whose last element is the top, so pointer aliasing of nodes is not modelled.
- The `default: exit(1)` branch of `toggleTileState` is left out because a tile state is always dead or alive.
- Integers are unbounded, so the model does not capture any of the code's `unsigned int` wrap-around:
  - The tile index `row * ncols + col` (conway.c:86, 90-91) and the `calloc` size `ncols * nrows` (conway.c:304) are `unsigned int` expressions. The `calloc` size wraps once `nrows * ncols > UINT_MAX`, even with both sides far below `INT_MAX`. On a 65536 x 65536 board it asks for 0 tiles, so every tile access is out of bounds. The largest index is `nrows * ncols - 1`, so the index wraps only once `nrows * ncols > 2^32`. `Rules.Index` is unbounded and the board's array always has `nrows * ncols` tiles, so the model holds only for boards with `nrows * ncols <= UINT_MAX`.
  - The neighbour loop converts the unsigned row and column to `int` (conway.c:203-204), which is faithful only up to `INT_MAX` tiles per side.
  - `tick` and `nalive` would wrap after `UINT_MAX` ticks or live tiles.
- The neighbour-counting loop of `handleTile` is its own method, `Game.Board.CountAliveNeighbors`. `HandleTile` calls it and then follows the code's chain of rule branches.
