/** src/main.rs: the earlier copy of `Grid<N, M>`, whose `tick` writes the
    survival/birth rule as nested conditionals, and the seed that `main`
    builds on a 10 by 10 grid and ticks twice. */
module ConwayMain {
  import opened Life

  const COL_SIZE: nat := 10
  const ROW_SIZE: nat := 10

  /** The rule as `tick` in src/main.rs writes it: a live cell stays alive
      with two or three live neighbours, a dead cell comes alive with three. */
  function NestedRule(cell: bool, n: nat): bool {
    if cell then n == 2 || n == 3 else n == 3
  }

  /** The nested conditionals agree with the single condition of src/lib.rs
      for every cell state and every possible neighbour count. */
  lemma NestedRuleIsRule(cell: bool, n: nat)
    ensures NestedRule(cell, n) == Rule(cell, n)
  {
  }

  /** `Grid<N, M>` of src/main.rs: `grid` holds M = `rows` rows of N = `cols`
      columns; the ghost field `Cells` is its value. */
  class Grid {
    const rows: nat
    const cols: nat
    var grid: array2<bool>
    ghost var Cells: Board

    ghost predicate Valid()
      reads this, grid
    {
      grid.Length0 == rows && grid.Length1 == cols && Shaped(Cells, rows, cols) &&
      forall i, j :: 0 <= i < rows && 0 <= j < cols ==> grid[i, j] == Cells[i][j]
    }

    /** `Grid::new`: the grid holds the given matrix unchanged, in a buffer of its own. */
    constructor (grid: array2<bool>)
      ensures Valid() && rows == grid.Length0 && cols == grid.Length1
      ensures fresh(this.grid)
      ensures Cells == Contents(grid)
    {
      rows, cols := grid.Length0, grid.Length1;
      this.grid := new bool[grid.Length0, grid.Length1]((i, j)
        requires 0 <= i < grid.Length0 && 0 <= j < grid.Length1 reads grid => grid[i, j]);
      Cells := Contents(grid);
    }

    /** `live_neighbors_around`: the number of live cells among the in-bounds
        neighbours of (i, j). */
    method LiveNeighborsAround(i: nat, j: nat) returns (liveNeighbors: nat)
      requires Valid() && i < rows && j < cols
      ensures liveNeighbors == LiveNeighbors(Cells, i, j)
    {
      LiveNeighborsUnfold(Cells, i, j);
      liveNeighbors := 0;
      if i > 0 {
        if j > 0 && grid[i - 1, j - 1] {
          liveNeighbors := liveNeighbors + 1;
        }
        if grid[i - 1, j] {
          liveNeighbors := liveNeighbors + 1;
        }
        if j < cols - 1 && grid[i - 1, j + 1] {
          liveNeighbors := liveNeighbors + 1;
        }
      }
      if j > 0 && grid[i, j - 1] {
        liveNeighbors := liveNeighbors + 1;
      }
      if j < cols - 1 && grid[i, j + 1] {
        liveNeighbors := liveNeighbors + 1;
      }
      if i < rows - 1 {
        if j > 0 && grid[i + 1, j - 1] {
          liveNeighbors := liveNeighbors + 1;
        }
        if grid[i + 1, j] {
          liveNeighbors := liveNeighbors + 1;
        }
        if j < cols - 1 && grid[i + 1, j + 1] {
          liveNeighbors := liveNeighbors + 1;
        }
      }
    }

    /** `tick`: a fresh buffer is filled from the old generation with the
        nested rule, then replaces the grid; the result is the same next
        generation as the library's. */
    method Tick()
      requires Valid()
      modifies this
      ensures Valid() && fresh(grid)
      ensures forall i, j :: 0 <= i < rows && 0 <= j < cols ==>
                Cells[i][j] == NestedRule(old(Cells)[i][j], LiveNeighbors(old(Cells), i, j))
      ensures Cells == Step(old(Cells))
    {
      ghost var next := Step(Cells);
      StepShaped(Cells, rows, cols);
      var newGrid := new bool[rows, cols]((_, _) => false);
      for i := 0 to rows
        modifies newGrid
        invariant forall r, c :: 0 <= r < i && 0 <= c < cols ==> newGrid[r, c] == next[r][c]
        invariant forall r, c :: i <= r < rows && 0 <= c < cols ==> !newGrid[r, c]
      {
        FillRow(i, newGrid);
      }
      grid := newGrid;
      Cells := next;
      forall i, j | 0 <= i < rows && 0 <= j < cols
        ensures Cells[i][j] == NestedRule(old(Cells)[i][j], LiveNeighbors(old(Cells), i, j))
      {
        StepAt(old(Cells), i, j);
      }
    }

    /** The inner loop of `tick`: fills row `i` of the fresh buffer from the
        old generation, only ever setting cells to true. */
    method FillRow(i: nat, newGrid: array2<bool>)
      requires Valid() && i < rows && newGrid.Length0 == rows && newGrid.Length1 == cols && newGrid != grid
      requires forall c :: 0 <= c < cols ==> !newGrid[i, c]
      modifies newGrid
      ensures forall c :: 0 <= c < cols ==> newGrid[i, c] == Step(Cells)[i][c]
      ensures forall r, c :: 0 <= r < rows && r != i && 0 <= c < cols ==> newGrid[r, c] == old(newGrid[r, c])
    {
      for j := 0 to cols
        invariant forall c :: 0 <= c < j ==> newGrid[i, c] == Step(Cells)[i][c]
        invariant forall c :: j <= c < cols ==> !newGrid[i, c]
        invariant forall r, c :: 0 <= r < rows && r != i && 0 <= c < cols ==> newGrid[r, c] == old(newGrid[r, c])
      {
        var cell := grid[i, j];
        var n := LiveNeighborsAround(i, j);
        StepAt(Cells, i, j);
        NestedRuleIsRule(cell, n);
        if cell {
          // a live cell with two or three live neighbours lives on; otherwise it dies
          if n == 2 || n == 3 {
            newGrid[i, j] := true;
          }
        } else if n == 3 {
          // a dead cell with exactly three live neighbours becomes alive
          newGrid[i, j] := true;
        }
      }
    }
  }

  // -----------------------------------------------------------------------
  // The seed of `main`

  /** The live cells `main` sets: a block, an isolated point and a
      horizontal blinker against the right edge. */
  const SeedCells: seq<(nat, nat)> := [(5, 5), (4, 5), (5, 4), (4, 4), (9, 0), (8, 7), (8, 8), (8, 9)]

  /** After one tick: the same block, the point gone, the blinker vertical. */
  const TickOneCells: seq<(nat, nat)> := [(4, 4), (4, 5), (5, 4), (5, 5), (7, 8), (8, 8), (9, 8)]

  /** After two ticks: the block and the blinker horizontal again. */
  const TickTwoCells: seq<(nat, nat)> := [(4, 4), (4, 5), (5, 4), (5, 5), (8, 7), (8, 8), (8, 9)]

  function Seed(): Board {
    Marked(Dead(ROW_SIZE, COL_SIZE), SeedCells)
  }

  function TickOne(): Board {
    Marked(Dead(ROW_SIZE, COL_SIZE), TickOneCells)
  }

  function TickTwo(): Board {
    Marked(Dead(ROW_SIZE, COL_SIZE), TickTwoCells)
  }

  lemma SeedLiveAt(r: int, c: int)
    ensures LiveAt(Seed(), r, c) ==
      ((4 <= r <= 5 && 4 <= c <= 5) || (r == 9 && c == 0) || (r == 8 && 7 <= c <= 9))
  {
    if 0 <= r < ROW_SIZE && 0 <= c < COL_SIZE {
      assert Seed()[r][c] == ((r, c) in SeedCells);
    }
  }

  lemma TickOneLiveAt(r: int, c: int)
    ensures LiveAt(TickOne(), r, c) == ((4 <= r <= 5 && 4 <= c <= 5) || (7 <= r <= 9 && c == 8))
  {
    if 0 <= r < ROW_SIZE && 0 <= c < COL_SIZE {
      assert TickOne()[r][c] == ((r, c) in TickOneCells);
    }
  }

  lemma TickTwoLiveAt(r: int, c: int)
    ensures LiveAt(TickTwo(), r, c) == ((4 <= r <= 5 && 4 <= c <= 5) || (r == 8 && 7 <= c <= 9))
  {
    if 0 <= r < ROW_SIZE && 0 <= c < COL_SIZE {
      assert TickTwo()[r][c] == ((r, c) in TickTwoCells);
    }
  }

  lemma SeedCellStep(i: nat, j: nat)
    requires i < ROW_SIZE && j < COL_SIZE
    ensures Step(Seed())[i][j] == TickOne()[i][j]
  {
    LiveNeighborsUnfold(Seed(), i, j);
    SeedLiveAt(i - 1, j - 1); SeedLiveAt(i - 1, j); SeedLiveAt(i - 1, j + 1);
    SeedLiveAt(i, j - 1); SeedLiveAt(i, j); SeedLiveAt(i, j + 1);
    SeedLiveAt(i + 1, j - 1); SeedLiveAt(i + 1, j); SeedLiveAt(i + 1, j + 1);
    TickOneLiveAt(i, j);
    StepAt(Seed(), i, j);
  }

  lemma TickOneCellStep(i: nat, j: nat)
    requires i < ROW_SIZE && j < COL_SIZE
    ensures Step(TickOne())[i][j] == TickTwo()[i][j]
  {
    LiveNeighborsUnfold(TickOne(), i, j);
    TickOneLiveAt(i - 1, j - 1); TickOneLiveAt(i - 1, j); TickOneLiveAt(i - 1, j + 1);
    TickOneLiveAt(i, j - 1); TickOneLiveAt(i, j); TickOneLiveAt(i, j + 1);
    TickOneLiveAt(i + 1, j - 1); TickOneLiveAt(i + 1, j); TickOneLiveAt(i + 1, j + 1);
    TickTwoLiveAt(i, j);
    StepAt(TickOne(), i, j);
  }

  lemma TickTwoCellStep(i: nat, j: nat)
    requires i < ROW_SIZE && j < COL_SIZE
    ensures Step(TickTwo())[i][j] == TickOne()[i][j]
  {
    LiveNeighborsUnfold(TickTwo(), i, j);
    TickTwoLiveAt(i - 1, j - 1); TickTwoLiveAt(i - 1, j); TickTwoLiveAt(i - 1, j + 1);
    TickTwoLiveAt(i, j - 1); TickTwoLiveAt(i, j); TickTwoLiveAt(i, j + 1);
    TickTwoLiveAt(i + 1, j - 1); TickTwoLiveAt(i + 1, j); TickTwoLiveAt(i + 1, j + 1);
    TickOneLiveAt(i, j);
    StepAt(TickTwo(), i, j);
  }

  /** The seed of `main` on the 10 by 10 grid: the first tick kills the
      isolated point at (9, 0), keeps the block, and turns the blinker at
      row 8, columns 7-9 into column 8, rows 7-9. */
  lemma SeedStepsToTickOne()
    ensures Step(Seed()) == TickOne()
  {
    forall i | 0 <= i < ROW_SIZE ensures Step(Seed())[i] == TickOne()[i] {
      forall j | 0 <= j < COL_SIZE ensures Step(Seed())[i][j] == TickOne()[i][j] {
        SeedCellStep(i, j);
      }
    }
  }

  /** The second tick turns the blinker back and leaves the block. */
  lemma TickOneStepsToTickTwo()
    ensures Step(TickOne()) == TickTwo()
  {
    forall i | 0 <= i < ROW_SIZE ensures Step(TickOne())[i] == TickTwo()[i] {
      forall j | 0 <= j < COL_SIZE ensures Step(TickOne())[i][j] == TickTwo()[i][j] {
        TickOneCellStep(i, j);
      }
    }
  }

  /** From the second generation on the grid alternates with period 2. */
  lemma TickTwoStepsToTickOne()
    ensures Step(TickTwo()) == TickOne()
  {
    forall i | 0 <= i < ROW_SIZE ensures Step(TickTwo())[i] == TickOne()[i] {
      forall j | 0 <= j < COL_SIZE ensures Step(TickTwo())[i][j] == TickOne()[i][j] {
        TickTwoCellStep(i, j);
      }
    }
  }

  /** The second generation is the seed with the isolated point removed: the
      seed does not come back. */
  lemma TickTwoIsSeedWithoutPoint(i: nat, j: nat)
    requires i < ROW_SIZE && j < COL_SIZE
    ensures TickTwo()[i][j] == (Seed()[i][j] && (i, j) != (9, 0))
  {
    SeedLiveAt(i, j);
    TickTwoLiveAt(i, j);
  }

  /** A 10 by 10 buffer whose live cells are the seed's holds the seed. */
  lemma SeedIs(a: array2<bool>)
    requires a.Length0 == ROW_SIZE && a.Length1 == COL_SIZE
    requires forall r, c :: 0 <= r < ROW_SIZE && 0 <= c < COL_SIZE ==>
      a[r, c] == ((4 <= r <= 5 && 4 <= c <= 5) || (r == 9 && c == 0) || (r == 8 && 7 <= c <= 9))
    ensures Contents(a) == Seed()
  {
    forall r, c | 0 <= r < ROW_SIZE && 0 <= c < COL_SIZE ensures a[r, c] == Seed()[r][c] {
      SeedLiveAt(r, c);
    }
    ContentsIs(a, Seed());
  }

  /** The first lines of `main`: an empty 10 by 10 grid with the seed's
      cells set one by one. */
  method PlantSeed() returns (seed: array2<bool>)
    ensures fresh(seed) && seed.Length0 == ROW_SIZE && seed.Length1 == COL_SIZE
    ensures Contents(seed) == Seed()
  {
    seed := new bool[ROW_SIZE, COL_SIZE]((_, _) => false);
    seed[5, 5] := true;
    seed[4, 5] := true;
    seed[5, 4] := true;
    seed[4, 4] := true;

    seed[9, 0] := true;

    seed[8, 7] := true;
    seed[8, 8] := true;
    seed[8, 9] := true;

    assert forall r, c :: 0 <= r < ROW_SIZE && 0 <= c < COL_SIZE ==>
      seed[r, c] == ((4 <= r <= 5 && 4 <= c <= 5) || (r == 9 && c == 0) || (r == 8 && 7 <= c <= 9));
    SeedIs(seed);
  }

  /** `main` without its printing: it wraps the seed in a grid and ticks
      twice. The grids it prints are the seed, the first and the second
      generation above. */
  method Run() returns (grid: Grid)
    ensures grid.Valid() && grid.rows == ROW_SIZE && grid.cols == COL_SIZE
    ensures grid.Cells == TickTwo()
  {
    var seed := PlantSeed();
    grid := new Grid(seed);

    grid.Tick();
    SeedStepsToTickOne();

    grid.Tick();
    TickOneStepsToTickTwo();
  }
}
