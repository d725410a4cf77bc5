# conway-rs in Dafny

A model of the Game of Life grid of conway-rs. It covers the library `Grid<N, M>` in
`src/lib.rs` and its earlier copy in `src/main.rs`, together with the seed that
`main` sets and ticks. Each grid is a fixed buffer of M rows by N columns of
booleans (`[[bool; N]; M]`). Row `i < M`, column `j < N`.

The project has four modules:

- `Life` (Life.dfy) holds the value semantics that both copies share:
  - a board is a `seq<seq<bool>>`;
  - `LiveNeighbors` counts the live cells among the in-bounds neighbours of a cell, and an independent set definition, `NeighborSet`, is proved to give the same count;
  - `Rule` is the survival/birth condition `(cell && n == 2) || n == 3`;
  - `Step` applies the rule to every cell, always reading the previous board;
  - `Marked` turns a list of cells on.
- `Conway` (Conway.dfy) models `src/lib.rs`:
  - the `Stamp` enum and the cell offsets each implemented pattern writes;
  - a `Grid` class whose `array2<bool>` field is the Rust array. Its methods update that field in place (`mark_alive`, `stamp`) or replace it with a freshly filled buffer (`tick`).
  - A ghost field `Cells` holds the buffer's value as a `Life` board. Every mutating method (`Tick`, `MarkAlive`, `Stamp`) states its effect on `Cells` in terms of `Step` and `Marked`.
- `ConwayMain` (ConwayMain.dfy) models `src/main.rs`:
  - the same `Grid`, with the rule written as nested `if`s;
  - the `main` scenario on a 10 by 10 grid, with its three generations computed and proved.
- `Patterns` (Patterns.dfy) proves what the comments of the `Stamp` enum promise about the implemented patterns:
  - the Block, BeeHive and Tub are still lifes, the Blinker oscillates with period 2 and the Glider moves one cell down and right every four ticks;
  - each is proved by describing the pattern as a figure on the unbounded plane, evolving the figure, and showing that the grid's hard edges hide nothing while every generation stays inside the grid.

The seed of `main` does not come back after two ticks. The isolated point at
(9, 0) dies in the first tick, and no live cell near it can revive it. So the
grid after the second tick is the seed without that point
(`ConwayMain.TickTwoIsSeedWithoutPoint`). From then on it alternates with period 2.

Stamping outside the grid has no error result in the code: the Rust indexing
panics. The model therefore makes it a precondition (see "Left out").

## Model

| member | source | states |
|---|---|---|
| Conway.Grid.constructor | src/lib.rs:36-38 | the new grid holds exactly the given matrix, with its dimensions, in a buffer of its own |
| Conway.Grid.Sized | src/lib.rs:31-35 | a fresh grid of `m` rows by `n` columns, in a fresh buffer of its own, whose value is the all-dead board |
| Conway.Grid.LiveNeighborsAround | src/lib.rs:126-161 | the counter equals the number of live in-bounds neighbours of (i, j), at most 8; the grid is read, not changed |
| Conway.Grid.Tick | src/lib.rs:55-70 | the grid is replaced by a fresh buffer of the same dimensions whose value is `Step` of the old value, so every count is taken from the old generation |
| Conway.Grid.FillRow | src/lib.rs:58-67 | row i of the new buffer becomes row i of the next generation; the other rows and the old grid are untouched |
| Conway.Grid.MarkAlive | src/lib.rs:72-76 | for in-bounds positions: every listed cell is alive afterwards, every other cell keeps its value, the buffer is updated in place |
| Conway.Grid.Stamp | src/lib.rs:78-124 | an implemented pattern sets exactly the anchor plus that pattern's offsets and nothing else; a `todo!()` pattern reports unsupported and leaves the grid as it was; no cell ever goes from alive to dead |
| Conway.Shape | src/lib.rs:83-123 | exactly Point, Block, BeeHive, Tub, Blinker and Glider are implemented; each implemented pattern writes a non-empty list of distinct cells |
| Life.Rule | src/lib.rs:63 | a live cell survives iff it has 2 or 3 live neighbours; a dead cell is born iff it has exactly 3 |
| Life.RuleIsConway | src/lib.rs:49-54 | the rule is the four rules of the doc comment of `tick`: underpopulation (fewer than 2) and overpopulation (more than 3) kill a live cell, 2 or 3 keep it alive, and a dead cell is born with exactly 3 |
| Life.Step | src/lib.rs:55-70 | a tick keeps the number of rows and the length of every row |
| Life.Marked | src/lib.rs:72-76 | marking keeps the number of rows and the length of every row |
| Life.MarkedDeadLiveAt | src/lib.rs:72-76 | on an all-dead grid, marking in-bounds cells makes alive exactly the listed cells |
| Patterns.ShowsUnique | src/lib.rs:26-28 | a grid value (`[[bool; N]; M]`) is determined by its live cells: two boards of the same dimensions with the same live cells are equal |
| Patterns.StepShows | src/lib.rs:55-70 | a cell of the next generation is alive iff the rule, applied on the unbounded plane to the figure the board shows, makes it alive; the figure is dead wherever the grid has no cell, so the grid's edges count as dead neighbours |
| Patterns.StepFigure | src/lib.rs:55-70 | a tick of a board showing a figure shows the figure's successor on the plane, whenever the successor stays inside the grid: the hard edges change nothing |
| Patterns.BlockShows | src/lib.rs:86-91 | the Block stamp at (xi, yi) on a dead grid makes alive exactly the 2 by 2 square with corner (xi, yi) |
| Patterns.BlockIsStillLife | src/lib.rs:7-8 | a Block stamped on a dead grid anywhere it fits, edges included, is unchanged by one tick |
| Patterns.BeeHiveShows | src/lib.rs:92-99 | the BeeHive stamp on a dead grid makes alive exactly its six cells |
| Patterns.BeeHiveIsStillLife | src/lib.rs:7-9 | a BeeHive stamped on a dead grid anywhere it fits is unchanged by one tick |
| Patterns.TubShows | src/lib.rs:102-107 | the Tub stamp on a dead grid makes alive exactly its four cells |
| Patterns.TubIsStillLife | src/lib.rs:7-12 | a Tub stamped on a dead grid anywhere it fits is unchanged by one tick |
| Patterns.BlinkerShows | src/lib.rs:108 | the Blinker stamp on a dead grid makes alive exactly the three cells of row xi at columns yi to yi + 2 |
| Patterns.BlinkerOscillates | src/lib.rs:13-14 | with a free row above and below, one tick turns the Blinker into the vertical bar at column yi + 1, rows xi - 1 to xi + 1; the grid changes, and a second tick restores it: period exactly 2 |
| Patterns.GliderShows | src/lib.rs:113-119 | the Glider stamp on a dead grid makes alive exactly its five cells |
| Patterns.GliderHalfway | src/lib.rs:19-20 | with room for the moved Glider, two ticks give the Glider's third phase |
| Patterns.GliderGlides | src/lib.rs:19-20 | with room for the moved Glider, four ticks give the Glider stamped one row down and one column right |
| Patterns.StampedBlockStays | src/lib.rs:31-124 | a Block stamped on a new dead grid and ticked leaves the grid holding exactly the stamped Block |
| Life.LiveNeighbors | src/lib.rs:126-161 | the neighbour count never exceeds 8 |
| Life.LiveNeighborsUnfold | src/lib.rs:129-158 | the count is the sum over the eight offsets of "that neighbour is in bounds and alive" |
| Life.CountLiveIsCardinality | src/lib.rs:126-161 | over distinct offsets, the count is the size of the set of live positions they reach |
| Life.NeighborSetIsLivePositions | src/lib.rs:126-161 | the positions reached by the eight offsets are exactly the in-bounds live cells at row and column distance at most 1, other than the cell itself |
| Life.LiveNeighborsIsNeighborSetSize | src/lib.rs:126-161 | the count equals the size of that set of live neighbours, and that size is at most 8 |
| Life.LiveNeighborsLocal | src/lib.rs:129-158 | no wraparound: two boards that agree on the eight surrounding positions give the same count |
| Life.StepCell | src/lib.rs:49-65 | a cell of the next generation is alive iff it was alive with 2 or 3 live neighbours or was dead with exactly 3 |
| Life.StepShaped | src/lib.rs:56-69 | a tick keeps the dimensions |
| Life.DeadIsFixed | src/lib.rs:56-69 | the all-dead grid ticks to the all-dead grid |
| Life.MarkedCell | src/lib.rs:72-76 | marking keeps live cells alive, makes listed cells alive and leaves unlisted cells unchanged |
| Life.MarkedIdempotent | src/lib.rs:72-76 | marking the same cells twice is marking them once |
| ConwayMain.NestedRuleIsRule | src/main.rs:87-97 | for any cell and any count, the nested-if rule of `src/main.rs` agrees with the single condition of `src/lib.rs` |
| ConwayMain.Grid.constructor | src/main.rs:57-63 | the new grid holds exactly the given matrix |
| ConwayMain.Grid.LiveNeighborsAround | src/main.rs:104-139 | the counter equals the number of live in-bounds neighbours of (i, j), at most 8 |
| ConwayMain.Grid.Tick | src/main.rs:80-102 | a live cell stays alive iff it has 2 or 3 live neighbours in the old grid, a dead cell comes alive iff it has exactly 3, every other cell is dead; the new value is `Step` of the old, in a fresh buffer of the same dimensions |
| ConwayMain.Grid.FillRow | src/main.rs:83-99 | row i of the new buffer becomes row i of the next generation under the nested-if rule; other rows untouched |
| ConwayMain.PlantSeed | src/main.rs:20-32 | the cells `main` sets on an empty 10 by 10 grid form the seed: a block at rows 4-5, columns 4-5, a point at (9, 0) and a blinker at row 8, columns 7-9 |
| ConwayMain.SeedStepsToTickOne | src/main.rs:34-42 | after one tick the point is dead, the block is unchanged and the blinker is vertical at column 8, rows 7-9 |
| ConwayMain.TickOneStepsToTickTwo | src/main.rs:44-47 | after the second tick the blinker is horizontal again and the block is unchanged |
| ConwayMain.TickTwoStepsToTickOne | src/main.rs:44-47 | from the second generation on, the grid alternates between the two generations with period 2 |
| ConwayMain.TickTwoIsSeedWithoutPoint | src/main.rs:20-47 | the second generation is the seed minus the point at (9, 0) |
| ConwayMain.Run | src/main.rs:17-48 | `main` without printing: after building the seed and ticking twice, the grid holds the second generation |

## Left out

- Printing: `Grid::print` in both files and the `println!` calls in `main` are console I/O.
- `Simmetry` and the three-argument `stamp` are left out. They are used only by the Bevy code, and their definitions are not part of this model.
- The Bevy side of the repository is not part of this model:
  - the systems and components (camera, UI, buttons, menu);
  - the timer-driven tick and pause;
  - the floating-point `to_grid` conversion.
- Conway.Grid.Stamp: an anchor whose pattern reaches outside the grid makes Rust's indexing panic part-way through. It is modelled as a precondition (`Fits`) that every cell written is in bounds, so the cells written before the panic are not modelled. There is no out-of-bounds result in the code; the library only panics.
- Conway.Grid.Stamp: a `todo!()` arm (Loaf, Boat, Toad, Beacon, Pulsar, PentaDecathlon and the three larger spaceships) panics before writing anything. It is modelled as the outcome `supported == false` with the grid unchanged, not as a crash of the program.
- Conway.Grid.MarkAlive: an out-of-bounds position panics in Rust. It is modelled as the precondition `InBounds`.
- `usize` arithmetic: the anchor plus an offset, and `N - 1` / `M - 1`, are unbounded integers here. A `usize` overflow at the anchor would make the position out of bounds anyway. `N - 1` is only evaluated when the grid has a column, so it cannot underflow.
- `const` generics: `N` and `M` become the dimensions of the `array2` (`rows`, `cols`). A zero-sized grid is allowed, and `tick` then does nothing.
- Patterns: the oscillation of the Blinker and the motion of the Glider are proved only where the grid leaves them room: a free row above and below the Blinker, and room for the Glider stamped one cell further down and right. At a hard edge they are cut off, and the model says nothing about what they become there.
- Patterns: only the patterns the library implements are covered. Loaf, Boat, Toad, Beacon, Pulsar, PentaDecathlon and the three larger spaceships are `todo!()` in the code.
- Conway.Grid.FillRow and ConwayMain.Grid.FillRow are the inner loop of `tick`, written as a method of their own. Their effect is the inner loop's effect.
