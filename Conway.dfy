/** src/lib.rs: the catalogue of stampable patterns and the library's
    `Grid<N, M>`, a fixed buffer of M rows by N columns that `tick` and
    `stamp` update in place. */
module Conway {
  import opened Life

  /** The named patterns (src/lib.rs:5-24), in the source's order and spelling. */
  datatype Stamp =
    | Point
      // still lifes
    | Block | BeeHive | Loaf | Boat | Tub
      // oscillators
    | Blinker | Toad | Beacon | Pulsar | PentaDecathlon
      // spaceships
    | Glider | LighWeightSpaceship | MiddleWeightSpaceship | HeavyWeightSpaceship

  datatype Option<T> = None | Some(value: T)

  /** The live cells `stamp` writes for each pattern, as (row, column)
      offsets from the anchor and in the order it writes them; None for the
      patterns whose arm is `todo!()`. */
  function Shape(s: Stamp): (shape: Option<seq<(nat, nat)>>)
    ensures shape.Some? <==> s in {Point, Block, BeeHive, Tub, Blinker, Glider}
    ensures shape.Some? ==> |shape.value| > 0 && Distinct(shape.value)
  {
    match s
    case Point => Some([(0, 0)])
    case Block => Some([(0, 0), (0, 1), (1, 0), (1, 1)])
    case BeeHive => Some([(1, 0), (0, 1), (2, 1), (0, 2), (2, 2), (1, 3)])
    case Tub => Some([(1, 0), (0, 1), (1, 2), (2, 1)])
    case Blinker => Some([(0, 0), (0, 1), (0, 2)])
    case Glider => Some([(0, 0), (1, 1), (1, 2), (2, 0), (2, 1)])
    case _ => None
  }

  /** The offsets translated to the anchor (xi, yi). */
  function Place(offsets: seq<(nat, nat)>, xi: nat, yi: nat): (ps: seq<(nat, nat)>)
    ensures |ps| == |offsets|
    ensures forall k :: 0 <= k < |ps| ==> ps[k] == (xi + offsets[k].0, yi + offsets[k].1)
  {
    seq(|offsets|, k requires 0 <= k < |offsets| => (xi + offsets[k].0, yi + offsets[k].1))
  }

  /** Every cell `stamp` writes for `s` at (xi, yi) is a cell of an `m` by
      `n` grid (indexing outside it panics). */
  predicate Fits(s: Stamp, xi: nat, yi: nat, m: nat, n: nat) {
    Shape(s).Some? ==> InBounds(Place(Shape(s).value, xi, yi), m, n)
  }

  /** `Grid<N, M>`: `grid` holds M = `rows` rows of N = `cols` columns;
      the ghost field `Cells` is its value, kept up to date by every method. */
  class Grid {
    const rows: nat
    const cols: nat
    var grid: array2<bool>
    ghost var Cells: Board

    ghost predicate Valid()
      reads this, grid
    {
      grid.Length0 == rows && grid.Length1 == cols && Shaped(Cells, rows, cols) &&
      forall i, j :: 0 <= i < rows && 0 <= j < cols ==> grid[i, j] == Cells[i][j]
    }

    /** `Grid::new`: the grid holds the given matrix unchanged. Rust arrays
        are copied by value, so the grid gets its own buffer. */
    constructor (grid: array2<bool>)
      ensures Valid() && rows == grid.Length0 && cols == grid.Length1
      ensures fresh(this.grid)
      ensures Cells == Contents(grid)
    {
      rows, cols := grid.Length0, grid.Length1;
      this.grid := new bool[grid.Length0, grid.Length1]((i, j)
        requires 0 <= i < grid.Length0 && 0 <= j < grid.Length1 reads grid => grid[i, j]);
      Cells := Contents(grid);
    }

    /** `Grid::sized`: `m` rows of `n` columns, every cell dead. */
    static method Sized(m: nat, n: nat) returns (g: Grid)
      ensures fresh(g) && fresh(g.grid) && g.Valid() && g.rows == m && g.cols == n
      ensures g.Cells == Dead(m, n)
    {
      var grid := new bool[m, n]((_, _) => false);
      ContentsIs(grid, Dead(m, n));
      g := new Grid(grid);
    }

    /** `live_neighbors_around`: the number of live cells among the in-bounds
        neighbours of (i, j). */
    method LiveNeighborsAround(i: nat, j: nat) returns (liveNeighbors: nat)
      requires Valid() && i < rows && j < cols
      ensures liveNeighbors == LiveNeighbors(Cells, i, j)
    {
      LiveNeighborsUnfold(Cells, i, j);
      liveNeighbors := 0;
      if i > 0 {
        if j > 0 && grid[i - 1, j - 1] {
          liveNeighbors := liveNeighbors + 1;
        }
        if grid[i - 1, j] {
          liveNeighbors := liveNeighbors + 1;
        }
        if j < cols - 1 && grid[i - 1, j + 1] {
          liveNeighbors := liveNeighbors + 1;
        }
      }
      if j > 0 && grid[i, j - 1] {
        liveNeighbors := liveNeighbors + 1;
      }
      if j < cols - 1 && grid[i, j + 1] {
        liveNeighbors := liveNeighbors + 1;
      }
      if i < rows - 1 {
        if j > 0 && grid[i + 1, j - 1] {
          liveNeighbors := liveNeighbors + 1;
        }
        if grid[i + 1, j] {
          liveNeighbors := liveNeighbors + 1;
        }
        if j < cols - 1 && grid[i + 1, j + 1] {
          liveNeighbors := liveNeighbors + 1;
        }
      }
    }

    /** `tick`: every cell of a fresh buffer is computed from the old
        generation, then the buffer replaces the grid. */
    method Tick()
      requires Valid()
      modifies this
      ensures Valid() && fresh(grid)
      ensures Cells == Step(old(Cells))
    {
      ghost var next := Step(Cells);
      StepShaped(Cells, rows, cols);
      var newGrid := new bool[rows, cols]((_, _) => false);
      for i := 0 to rows
        modifies newGrid
        invariant forall r, c :: 0 <= r < i && 0 <= c < cols ==> newGrid[r, c] == next[r][c]
        invariant forall r, c :: i <= r < rows && 0 <= c < cols ==> !newGrid[r, c]
      {
        FillRow(i, newGrid);
      }
      grid := newGrid;
      Cells := next;
    }

    /** The inner loop of `tick`: fills row `i` of the fresh buffer from the
        old generation, only ever setting cells to true. */
    method FillRow(i: nat, newGrid: array2<bool>)
      requires Valid() && i < rows && newGrid.Length0 == rows && newGrid.Length1 == cols && newGrid != grid
      requires forall c :: 0 <= c < cols ==> !newGrid[i, c]
      modifies newGrid
      ensures forall c :: 0 <= c < cols ==> newGrid[i, c] == Step(Cells)[i][c]
      ensures forall r, c :: 0 <= r < rows && r != i && 0 <= c < cols ==> newGrid[r, c] == old(newGrid[r, c])
    {
      for j := 0 to cols
        invariant forall c :: 0 <= c < j ==> newGrid[i, c] == Step(Cells)[i][c]
        invariant forall c :: j <= c < cols ==> !newGrid[i, c]
        invariant forall r, c :: 0 <= r < rows && r != i && 0 <= c < cols ==> newGrid[r, c] == old(newGrid[r, c])
      {
        var cell := grid[i, j];
        var n := LiveNeighborsAround(i, j);
        StepAt(Cells, i, j);
        // only set to true when the conditions for life to appear or persist are met
        if (cell && n == 2) || n == 3 {
          newGrid[i, j] := true;
        }
      }
    }

    /** `mark_alive`: sets every listed cell alive and leaves every other cell as it was. */
    method MarkAlive(positions: seq<(nat, nat)>)
      requires Valid() && InBounds(positions, rows, cols)
      modifies this, grid
      ensures Valid() && grid == old(grid)
      ensures Cells == Marked(old(Cells), positions)
      ensures forall k :: 0 <= k < |positions| ==> Cells[positions[k].0][positions[k].1]
      ensures forall r, c :: 0 <= r < rows && 0 <= c < cols && (r, c) !in positions ==>
                Cells[r][c] == old(Cells[r][c])
    {
      for k := 0 to |positions|
        modifies grid
        invariant forall r, c :: 0 <= r < rows && 0 <= c < cols ==>
                    grid[r, c] == (old(Cells[r][c]) || (r, c) in positions[..k])
      {
        var (x, y) := positions[k];
        grid[x, y] := true;
      }
      assert positions[..|positions|] == positions;
      Cells := Marked(Cells, positions);
    }

    /** `stamp`: writes the pattern's cells at the anchor, additively; the
        patterns whose arm is `todo!()` write nothing. */
    method Stamp(stamp: Stamp, initialPosition: (nat, nat)) returns (supported: bool)
      requires Valid() && Fits(stamp, initialPosition.0, initialPosition.1, rows, cols)
      modifies this, grid
      ensures Valid() && grid == old(grid)
      ensures supported == Shape(stamp).Some?
      ensures supported ==> Cells == Marked(old(Cells), Place(Shape(stamp).value, initialPosition.0, initialPosition.1))
      ensures !supported ==> Cells == old(Cells)
      ensures forall r, c :: 0 <= r < rows && 0 <= c < cols && old(Cells[r][c]) ==> Cells[r][c]
    {
      var (xi, yi) := initialPosition;
      match stamp
      case Point =>
        var ps := [initialPosition];
        assert ps == Place(Shape(Point).value, xi, yi);
        MarkAlive(ps);
        supported := true;
      case Block =>
        var ps := [initialPosition, (xi, yi + 1), (xi + 1, yi), (xi + 1, yi + 1)];
        assert ps == Place(Shape(Block).value, xi, yi);
        MarkAlive(ps);
        supported := true;
      case BeeHive =>
        var ps := [(xi + 1, yi), (xi, yi + 1), (xi + 2, yi + 1), (xi, yi + 2), (xi + 2, yi + 2), (xi + 1, yi + 3)];
        assert ps == Place(Shape(BeeHive).value, xi, yi);
        MarkAlive(ps);
        supported := true;
      case Loaf => supported := false;
      case Boat => supported := false;
      case Tub =>
        var ps := [(xi + 1, yi), (xi, yi + 1), (xi + 1, yi + 2), (xi + 2, yi + 1)];
        assert ps == Place(Shape(Tub).value, xi, yi);
        MarkAlive(ps);
        supported := true;
      case Blinker =>
        var ps := [initialPosition, (xi, yi + 1), (xi, yi + 2)];
        assert ps == Place(Shape(Blinker).value, xi, yi);
        MarkAlive(ps);
        supported := true;
      case Toad => supported := false;
      case Beacon => supported := false;
      case Pulsar => supported := false;
      case PentaDecathlon => supported := false;
      case Glider =>
        var ps := [initialPosition, (xi + 1, yi + 1), (xi + 1, yi + 2), (xi + 2, yi), (xi + 2, yi + 1)];
        assert ps == Place(Shape(Glider).value, xi, yi);
        MarkAlive(ps);
        supported := true;
      case LighWeightSpaceship => supported := false;
      case MiddleWeightSpaceship => supported := false;
      case HeavyWeightSpaceship => supported := false;
    }
  }
}
