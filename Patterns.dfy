/** What the grouping comments of the `Stamp` enum (src/lib.rs:7, 13, 19)
    say about the implemented patterns, proved for the bounded grid: the
    still lifes do not change, the Blinker oscillates with period 2, and the
    Glider moves one row down and one column right every four ticks. */
module Patterns {
  import opened Life
  import opened Conway

  /** The pattern `s` stamped at (xi, yi) on an otherwise dead `m` by `n` grid. */
  function PatternAt(s: Stamp, m: nat, n: nat, xi: nat, yi: nat): Board
    requires Shape(s).Some?
  {
    Marked(Dead(m, n), Place(Shape(s).value, xi, yi))
  }

  // ---------------------------------------------------------------------
  // Figures: boards described by their live cells relative to an anchor

  /** The live cells of `b` are exactly the positions whose offset from the
      anchor (xi, yi) satisfies `cells`. */
  ghost predicate Shows(b: Board, cells: (int, int) -> bool, xi: int, yi: int) {
    forall r, c :: LiveAt(b, r, c) == cells(r - xi, c - yi)
  }

  /** Whether the cell at offset (dr, dc) is alive one tick after the figure
      `cells`, on an unbounded plane. */
  function NextOf(cells: (int, int) -> bool, dr: int, dc: int): bool {
    Rule(cells(dr, dc),
      Ind(cells(dr - 1, dc - 1)) + Ind(cells(dr - 1, dc)) + Ind(cells(dr - 1, dc + 1)) +
      Ind(cells(dr, dc - 1)) + Ind(cells(dr, dc + 1)) +
      Ind(cells(dr + 1, dc - 1)) + Ind(cells(dr + 1, dc)) + Ind(cells(dr + 1, dc + 1)))
  }

  /** Two boards of the same shape showing the same figure are equal. */
  lemma ShowsUnique(b1: Board, b2: Board, cells: (int, int) -> bool, xi: int, yi: int, m: nat, n: nat)
    requires Shaped(b1, m, n) && Shaped(b2, m, n)
    requires Shows(b1, cells, xi, yi) && Shows(b2, cells, xi, yi)
    ensures b1 == b2
  {
    forall i | 0 <= i < m ensures b1[i] == b2[i] {
      forall j | 0 <= j < n ensures b1[i][j] == b2[i][j] {
        assert LiveAt(b1, i, j) == LiveAt(b2, i, j);
      }
    }
  }

  /** A cell of the next generation of a board showing a figure is the
      unbounded plane's next state of that cell. */
  lemma StepShows(b: Board, cells: (int, int) -> bool, xi: int, yi: int, i: nat, j: nat)
    requires Shows(b, cells, xi, yi) && i < |b| && j < |b[i]|
    ensures Step(b)[i][j] == NextOf(cells, i - xi, j - yi)
  {
    LiveNeighborsUnfold(b, i, j);
    StepAt(b, i, j);
    assert LiveAt(b, i, j) == b[i][j];
  }

  /** On the unbounded plane, one tick turns the figure `cells` into `next`. */
  ghost predicate Evolves(cells: (int, int) -> bool, next: (int, int) -> bool) {
    forall dr, dc {:trigger NextOf(cells, dr, dc)} :: NextOf(cells, dr, dc) == next(dr, dc)
  }

  /** Every cell of the figure, anchored at (xi, yi), lies in the `m` by `n` grid. */
  ghost predicate Inside(cells: (int, int) -> bool, xi: int, yi: int, m: nat, n: nat) {
    forall dr, dc :: cells(dr, dc) ==> 0 <= xi + dr < m && 0 <= yi + dc < n
  }

  /** A figure shown on a grid lies inside it. */
  lemma ShowsInside(b: Board, cells: (int, int) -> bool, xi: int, yi: int, m: nat, n: nat)
    requires Shaped(b, m, n) && Shows(b, cells, xi, yi)
    ensures Inside(cells, xi, yi, m, n)
  {
    forall dr, dc | cells(dr, dc) ensures 0 <= xi + dr < m && 0 <= yi + dc < n {
      assert LiveAt(b, xi + dr, yi + dc);
    }
  }

  /** When the figure's successor on the unbounded plane stays inside the
      grid, the hard edges hide nothing: one tick of the grid shows it. */
  lemma StepFigure(b: Board, cells: (int, int) -> bool, next: (int, int) -> bool, xi: int, yi: int, m: nat, n: nat)
    requires Shaped(b, m, n) && Shows(b, cells, xi, yi)
    requires Evolves(cells, next) && Inside(next, xi, yi, m, n)
    ensures Shaped(Step(b), m, n) && Shows(Step(b), next, xi, yi)
  {
    StepShaped(b, m, n);
    forall r, c ensures LiveAt(Step(b), r, c) == next(r - xi, c - yi) {
      if 0 <= r < m && 0 <= c < n {
        StepShows(b, cells, xi, yi, r, c);
      } else {
        assert xi + (r - xi) == r && yi + (c - yi) == c;
      }
    }
  }

  // ---------------------------------------------------------------------
  // Still lifes

  /** The Block's cells (src/lib.rs:86-91), relative to its anchor. */
  function BlockCells(dr: int, dc: int): bool {
    0 <= dr <= 1 && 0 <= dc <= 1
  }

  lemma BlockShows(m: nat, n: nat, xi: nat, yi: nat)
    requires Fits(Block, xi, yi, m, n)
    ensures Shaped(PatternAt(Block, m, n, xi, yi), m, n)
    ensures Shows(PatternAt(Block, m, n, xi, yi), BlockCells, xi, yi)
  {
    var ps := Place(Shape(Block).value, xi, yi);
    assert ps == [(xi, yi), (xi, yi + 1), (xi + 1, yi), (xi + 1, yi + 1)];
    forall r, c ensures LiveAt(PatternAt(Block, m, n, xi, yi), r, c) == BlockCells(r - xi, c - yi) {
      MarkedDeadLiveAt(m, n, ps, r, c);
    }
  }

  /** On the unbounded plane the Block does not change. */
  lemma BlockStaysCell(dr: int, dc: int)
    ensures NextOf(BlockCells, dr, dc) == BlockCells(dr, dc)
  {
  }

  lemma BlockStays()
    ensures Evolves(BlockCells, BlockCells)
  {
    forall dr, dc {:trigger NextOf(BlockCells, dr, dc)} ensures NextOf(BlockCells, dr, dc) == BlockCells(dr, dc) {
      BlockStaysCell(dr, dc);
    }
  }

  /** A Block stamped on a dead grid is unchanged by `tick`. Edges are hard,
      so this holds wherever the Block fits, even against an edge. */
  lemma BlockIsStillLife(m: nat, n: nat, xi: nat, yi: nat)
    requires Fits(Block, xi, yi, m, n)
    ensures Step(PatternAt(Block, m, n, xi, yi)) == PatternAt(Block, m, n, xi, yi)
  {
    var b := PatternAt(Block, m, n, xi, yi);
    BlockShows(m, n, xi, yi);
    BlockStays();
    ShowsInside(b, BlockCells, xi, yi, m, n);
    StepFigure(b, BlockCells, BlockCells, xi, yi, m, n);
    ShowsUnique(Step(b), b, BlockCells, xi, yi, m, n);
  }

  /** The BeeHive's cells (src/lib.rs:92-99), relative to its anchor. */
  function BeeHiveCells(dr: int, dc: int): bool {
    (dr == 1 && dc == 0) || (dr == 0 && dc == 1) || (dr == 2 && dc == 1) ||
    (dr == 0 && dc == 2) || (dr == 2 && dc == 2) || (dr == 1 && dc == 3)
  }

  lemma BeeHiveShows(m: nat, n: nat, xi: nat, yi: nat)
    requires Fits(BeeHive, xi, yi, m, n)
    ensures Shaped(PatternAt(BeeHive, m, n, xi, yi), m, n)
    ensures Shows(PatternAt(BeeHive, m, n, xi, yi), BeeHiveCells, xi, yi)
  {
    var ps := Place(Shape(BeeHive).value, xi, yi);
    assert ps == [(xi + 1, yi), (xi, yi + 1), (xi + 2, yi + 1), (xi, yi + 2), (xi + 2, yi + 2), (xi + 1, yi + 3)];
    forall r, c ensures LiveAt(PatternAt(BeeHive, m, n, xi, yi), r, c) == BeeHiveCells(r - xi, c - yi) {
      MarkedDeadLiveAt(m, n, ps, r, c);
    }
  }

  /** On the unbounded plane the BeeHive does not change. */
  lemma BeeHiveStaysCell(dr: int, dc: int)
    ensures NextOf(BeeHiveCells, dr, dc) == BeeHiveCells(dr, dc)
  {
  }

  lemma BeeHiveStays()
    ensures Evolves(BeeHiveCells, BeeHiveCells)
  {
    forall dr, dc {:trigger NextOf(BeeHiveCells, dr, dc)} ensures NextOf(BeeHiveCells, dr, dc) == BeeHiveCells(dr, dc) {
      BeeHiveStaysCell(dr, dc);
    }
  }

  /** A BeeHive stamped on a dead grid is unchanged by `tick`, wherever it fits. */
  lemma BeeHiveIsStillLife(m: nat, n: nat, xi: nat, yi: nat)
    requires Fits(BeeHive, xi, yi, m, n)
    ensures Step(PatternAt(BeeHive, m, n, xi, yi)) == PatternAt(BeeHive, m, n, xi, yi)
  {
    var b := PatternAt(BeeHive, m, n, xi, yi);
    BeeHiveShows(m, n, xi, yi);
    BeeHiveStays();
    ShowsInside(b, BeeHiveCells, xi, yi, m, n);
    StepFigure(b, BeeHiveCells, BeeHiveCells, xi, yi, m, n);
    ShowsUnique(Step(b), b, BeeHiveCells, xi, yi, m, n);
  }

  /** The Tub's cells (src/lib.rs:102-107), relative to its anchor. */
  function TubCells(dr: int, dc: int): bool {
    (dr == 1 && dc == 0) || (dr == 0 && dc == 1) || (dr == 1 && dc == 2) || (dr == 2 && dc == 1)
  }

  lemma TubShows(m: nat, n: nat, xi: nat, yi: nat)
    requires Fits(Tub, xi, yi, m, n)
    ensures Shaped(PatternAt(Tub, m, n, xi, yi), m, n)
    ensures Shows(PatternAt(Tub, m, n, xi, yi), TubCells, xi, yi)
  {
    var ps := Place(Shape(Tub).value, xi, yi);
    assert ps == [(xi + 1, yi), (xi, yi + 1), (xi + 1, yi + 2), (xi + 2, yi + 1)];
    forall r, c ensures LiveAt(PatternAt(Tub, m, n, xi, yi), r, c) == TubCells(r - xi, c - yi) {
      MarkedDeadLiveAt(m, n, ps, r, c);
    }
  }

  /** On the unbounded plane the Tub does not change. */
  lemma TubStaysCell(dr: int, dc: int)
    ensures NextOf(TubCells, dr, dc) == TubCells(dr, dc)
  {
  }

  lemma TubStays()
    ensures Evolves(TubCells, TubCells)
  {
    forall dr, dc {:trigger NextOf(TubCells, dr, dc)} ensures NextOf(TubCells, dr, dc) == TubCells(dr, dc) {
      TubStaysCell(dr, dc);
    }
  }

  /** A Tub stamped on a dead grid is unchanged by `tick`, wherever it fits. */
  lemma TubIsStillLife(m: nat, n: nat, xi: nat, yi: nat)
    requires Fits(Tub, xi, yi, m, n)
    ensures Step(PatternAt(Tub, m, n, xi, yi)) == PatternAt(Tub, m, n, xi, yi)
  {
    var b := PatternAt(Tub, m, n, xi, yi);
    TubShows(m, n, xi, yi);
    TubStays();
    ShowsInside(b, TubCells, xi, yi, m, n);
    StepFigure(b, TubCells, TubCells, xi, yi, m, n);
    ShowsUnique(Step(b), b, TubCells, xi, yi, m, n);
  }

  // ---------------------------------------------------------------------
  // The Blinker

  /** The Blinker as stamped (src/lib.rs:108): one row of three cells. */
  function BlinkerFlat(dr: int, dc: int): bool {
    dr == 0 && 0 <= dc <= 2
  }

  /** The Blinker turned upright: one column of three cells through its middle. */
  function BlinkerUpright(dr: int, dc: int): bool {
    -1 <= dr <= 1 && dc == 1
  }

  lemma BlinkerShows(m: nat, n: nat, xi: nat, yi: nat)
    requires Fits(Blinker, xi, yi, m, n)
    ensures Shaped(PatternAt(Blinker, m, n, xi, yi), m, n)
    ensures Shows(PatternAt(Blinker, m, n, xi, yi), BlinkerFlat, xi, yi)
  {
    var ps := Place(Shape(Blinker).value, xi, yi);
    assert ps == [(xi, yi), (xi, yi + 1), (xi, yi + 2)];
    forall r, c ensures LiveAt(PatternAt(Blinker, m, n, xi, yi), r, c) == BlinkerFlat(r - xi, c - yi) {
      MarkedDeadLiveAt(m, n, ps, r, c);
    }
  }

  /** On the unbounded plane the lying Blinker stands up. */
  lemma BlinkerRisesCell(dr: int, dc: int)
    ensures NextOf(BlinkerFlat, dr, dc) == BlinkerUpright(dr, dc)
  {
  }

  lemma BlinkerRises()
    ensures Evolves(BlinkerFlat, BlinkerUpright)
  {
    forall dr, dc {:trigger NextOf(BlinkerFlat, dr, dc)} ensures NextOf(BlinkerFlat, dr, dc) == BlinkerUpright(dr, dc) {
      BlinkerRisesCell(dr, dc);
    }
  }

  /** On the unbounded plane the standing Blinker lies down. */
  lemma BlinkerFallsCell(dr: int, dc: int)
    ensures NextOf(BlinkerUpright, dr, dc) == BlinkerFlat(dr, dc)
  {
  }

  lemma BlinkerFalls()
    ensures Evolves(BlinkerUpright, BlinkerFlat)
  {
    forall dr, dc {:trigger NextOf(BlinkerUpright, dr, dc)} ensures NextOf(BlinkerUpright, dr, dc) == BlinkerFlat(dr, dc) {
      BlinkerFallsCell(dr, dc);
    }
  }

  /** A Blinker stamped on a dead grid with a free row above and below it is
      an oscillator of period 2: one tick stands it upright through its middle
      cell, which changes the grid, and the next tick lays it back down. */
  lemma BlinkerOscillates(m: nat, n: nat, xi: nat, yi: nat)
    requires Fits(Blinker, xi, yi, m, n) && 1 <= xi && xi + 2 <= m
    ensures forall r, c :: LiveAt(Step(PatternAt(Blinker, m, n, xi, yi)), r, c) <==>
              xi - 1 <= r <= xi + 1 && c == yi + 1
    ensures Step(PatternAt(Blinker, m, n, xi, yi)) != PatternAt(Blinker, m, n, xi, yi)
    ensures Step(Step(PatternAt(Blinker, m, n, xi, yi))) == PatternAt(Blinker, m, n, xi, yi)
  {
    var b := PatternAt(Blinker, m, n, xi, yi);
    BlinkerShows(m, n, xi, yi);
    ShowsInside(b, BlinkerFlat, xi, yi, m, n);
    assert BlinkerFlat(0, 2);
    assert Inside(BlinkerUpright, xi, yi, m, n);
    BlinkerRises();
    StepFigure(b, BlinkerFlat, BlinkerUpright, xi, yi, m, n);
    BlinkerFalls();
    StepFigure(Step(b), BlinkerUpright, BlinkerFlat, xi, yi, m, n);
    ShowsUnique(Step(Step(b)), b, BlinkerFlat, xi, yi, m, n);
    assert LiveAt(Step(b), xi - 1, yi + 1) != LiveAt(b, xi - 1, yi + 1);
  }

  // ---------------------------------------------------------------------
  // The Glider

  /** The Glider as stamped (src/lib.rs:113-119). */
  function Glider0(dr: int, dc: int): bool {
    (dr == 0 && dc == 0) || (dr == 1 && dc == 1) || (dr == 1 && dc == 2) || (dr == 2 && dc == 0) || (dr == 2 && dc == 1)
  }

  /** The Glider one tick later. */
  function Glider1(dr: int, dc: int): bool {
    (dr == 0 && dc == 1) || (dr == 1 && dc == 2) || (dr == 2 && dc == 0) || (dr == 2 && dc == 1) || (dr == 2 && dc == 2)
  }

  /** The Glider two ticks later. */
  function Glider2(dr: int, dc: int): bool {
    (dr == 1 && dc == 0) || (dr == 1 && dc == 2) || (dr == 2 && dc == 1) || (dr == 2 && dc == 2) || (dr == 3 && dc == 1)
  }

  /** The Glider three ticks later. */
  function Glider3(dr: int, dc: int): bool {
    (dr == 1 && dc == 2) || (dr == 2 && dc == 0) || (dr == 2 && dc == 2) || (dr == 3 && dc == 1) || (dr == 3 && dc == 2)
  }

  /** The stamped Glider moved one row down and one column right. */
  function Glider4(dr: int, dc: int): bool {
    Glider0(dr - 1, dc - 1)
  }

  lemma GliderShows(m: nat, n: nat, xi: nat, yi: nat)
    requires Fits(Glider, xi, yi, m, n)
    ensures Shaped(PatternAt(Glider, m, n, xi, yi), m, n)
    ensures Shows(PatternAt(Glider, m, n, xi, yi), Glider0, xi, yi)
  {
    var ps := Place(Shape(Glider).value, xi, yi);
    assert ps == [(xi, yi), (xi + 1, yi + 1), (xi + 1, yi + 2), (xi + 2, yi), (xi + 2, yi + 1)];
    forall r, c ensures LiveAt(PatternAt(Glider, m, n, xi, yi), r, c) == Glider0(r - xi, c - yi) {
      MarkedDeadLiveAt(m, n, ps, r, c);
    }
  }

  /** The Glider's first tick on the unbounded plane. */
  lemma GliderPhase1Cell(dr: int, dc: int)
    ensures NextOf(Glider0, dr, dc) == Glider1(dr, dc)
  {
  }

  lemma GliderPhase1()
    ensures Evolves(Glider0, Glider1)
  {
    forall dr, dc {:trigger NextOf(Glider0, dr, dc)} ensures NextOf(Glider0, dr, dc) == Glider1(dr, dc) {
      GliderPhase1Cell(dr, dc);
    }
  }

  /** The Glider's second tick on the unbounded plane. */
  lemma GliderPhase2Cell(dr: int, dc: int)
    ensures NextOf(Glider1, dr, dc) == Glider2(dr, dc)
  {
  }

  lemma GliderPhase2()
    ensures Evolves(Glider1, Glider2)
  {
    forall dr, dc {:trigger NextOf(Glider1, dr, dc)} ensures NextOf(Glider1, dr, dc) == Glider2(dr, dc) {
      GliderPhase2Cell(dr, dc);
    }
  }

  /** The Glider's third tick on the unbounded plane. */
  lemma GliderPhase3Cell(dr: int, dc: int)
    ensures NextOf(Glider2, dr, dc) == Glider3(dr, dc)
  {
  }

  lemma GliderPhase3()
    ensures Evolves(Glider2, Glider3)
  {
    forall dr, dc {:trigger NextOf(Glider2, dr, dc)} ensures NextOf(Glider2, dr, dc) == Glider3(dr, dc) {
      GliderPhase3Cell(dr, dc);
    }
  }

  /** The Glider's fourth tick on the unbounded plane. */
  lemma GliderPhase4Cell(dr: int, dc: int)
    ensures NextOf(Glider3, dr, dc) == Glider4(dr, dc)
  {
  }

  lemma GliderPhase4()
    ensures Evolves(Glider3, Glider4)
  {
    forall dr, dc {:trigger NextOf(Glider3, dr, dc)} ensures NextOf(Glider3, dr, dc) == Glider4(dr, dc) {
      GliderPhase4Cell(dr, dc);
    }
  }

  /** The stamped Glider moved one row down and one column right is the Glider
      stamped there. */
  lemma GliderMoved(m: nat, n: nat, xi: nat, yi: nat)
    requires Fits(Glider, xi + 1, yi + 1, m, n)
    ensures Shaped(PatternAt(Glider, m, n, xi + 1, yi + 1), m, n)
    ensures Shows(PatternAt(Glider, m, n, xi + 1, yi + 1), Glider4, xi, yi)
  {
    GliderShows(m, n, xi + 1, yi + 1);
    var b := PatternAt(Glider, m, n, xi + 1, yi + 1);
    forall r, c ensures LiveAt(b, r, c) == Glider4(r - xi, c - yi) {
      assert LiveAt(b, r, c) == Glider0(r - (xi + 1), c - (yi + 1));
    }
  }

  /** Room for the moved Glider is room for the Glider and all its phases. */
  lemma GliderRoom(m: nat, n: nat, xi: nat, yi: nat)
    requires Fits(Glider, xi + 1, yi + 1, m, n)
    ensures Fits(Glider, xi, yi, m, n)
    ensures Inside(Glider1, xi, yi, m, n) && Inside(Glider2, xi, yi, m, n)
    ensures Inside(Glider3, xi, yi, m, n) && Inside(Glider4, xi, yi, m, n)
  {
    var moved := Place(Shape(Glider).value, xi + 1, yi + 1);
    assert moved[3] == (xi + 3, yi + 1) && moved[2] == (xi + 2, yi + 3);
    assert xi + 4 <= m && yi + 4 <= n;
    assert Place(Shape(Glider).value, xi, yi) ==
      [(xi, yi), (xi + 1, yi + 1), (xi + 1, yi + 2), (xi + 2, yi), (xi + 2, yi + 1)];
  }

  /** Two ticks after stamping, the Glider is in its third phase. */
  lemma GliderHalfway(m: nat, n: nat, xi: nat, yi: nat)
    requires Fits(Glider, xi + 1, yi + 1, m, n)
    ensures Shaped(Step(Step(PatternAt(Glider, m, n, xi, yi))), m, n)
    ensures Shows(Step(Step(PatternAt(Glider, m, n, xi, yi))), Glider2, xi, yi)
  {
    GliderRoom(m, n, xi, yi);
    var b0 := PatternAt(Glider, m, n, xi, yi);
    GliderShows(m, n, xi, yi);
    GliderPhase1();
    StepFigure(b0, Glider0, Glider1, xi, yi, m, n);
    GliderPhase2();
    StepFigure(Step(b0), Glider1, Glider2, xi, yi, m, n);
  }

  /** A Glider stamped on a dead grid, with room for it one row down and one
      column right, is after four ticks the same Glider stamped there. */
  lemma GliderGlides(m: nat, n: nat, xi: nat, yi: nat)
    requires Fits(Glider, xi + 1, yi + 1, m, n)
    ensures Step(Step(Step(Step(PatternAt(Glider, m, n, xi, yi))))) == PatternAt(Glider, m, n, xi + 1, yi + 1)
  {
    GliderRoom(m, n, xi, yi);
    GliderHalfway(m, n, xi, yi);
    var b2 := Step(Step(PatternAt(Glider, m, n, xi, yi)));
    GliderPhase3();
    StepFigure(b2, Glider2, Glider3, xi, yi, m, n);
    GliderPhase4();
    StepFigure(Step(b2), Glider3, Glider4, xi, yi, m, n);
    GliderMoved(m, n, xi, yi);
    ShowsUnique(Step(Step(b2)), PatternAt(Glider, m, n, xi + 1, yi + 1), Glider4, xi, yi, m, n);
  }

  // ---------------------------------------------------------------------
  // Through the library's grid

  /** A Block stamped on a fresh grid from `Grid::sized` is still there, cell
      for cell, after a `tick`. */
  method StampedBlockStays(m: nat, n: nat, xi: nat, yi: nat) returns (g: Grid)
    requires Fits(Block, xi, yi, m, n)
    ensures g.Valid() && g.rows == m && g.cols == n
    ensures g.Cells == PatternAt(Block, m, n, xi, yi)
  {
    g := Grid.Sized(m, n);
    var supported := g.Stamp(Block, (xi, yi));
    g.Tick();
    BlockIsStillLife(m, n, xi, yi);
  }
}
