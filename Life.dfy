/** The value-level meaning of a bounded Game of Life grid: its cells, the
    neighbourhood of a cell (hard edges, no wraparound), the survival/birth
    rule and one generation step. Both grid implementations (src/lib.rs and
    the earlier copy in src/main.rs) are proved against these definitions. */
module Life {

  /** A grid's cells row by row: `b[i][j]` is the cell in row `i`, column `j`. */
  type Board = seq<seq<bool>>

  /** `b` has `m` rows of `n` columns each. */
  predicate Shaped(b: Board, m: nat, n: nat) {
    |b| == m && forall i :: 0 <= i < m ==> |b[i]| == n
  }

  /** The grid of `m` rows and `n` columns whose cells are all dead. */
  function Dead(m: nat, n: nat): (b: Board)
    ensures Shaped(b, m, n)
    ensures forall i, j :: 0 <= i < m && 0 <= j < n ==> !b[i][j]
  {
    seq(m, _ => seq(n, _ => false))
  }

  /** Whether (r, c) is a cell of `b` and is alive. Positions beyond an edge
      are not cells: they are never alive and are never wrapped around. */
  function LiveAt(b: Board, r: int, c: int): bool {
    0 <= r < |b| && 0 <= c < |b[r]| && b[r][c]
  }

  function Ind(x: bool): nat {
    if x then 1 else 0
  }

  /** The eight directions of the neighbourhood, as (row, column) offsets. */
  const NeighborOffsets: seq<(int, int)> :=
    [(-1, -1), (-1, 0), (-1, 1), (0, -1), (0, 1), (1, -1), (1, 0), (1, 1)]

  /** How many of the positions (i, j) + offsets are live cells of `b`. */
  function CountLive(b: Board, i: int, j: int, offsets: seq<(int, int)>): (k: nat)
    ensures k <= |offsets|
  {
    if offsets == [] then 0
    else Ind(LiveAt(b, i + offsets[0].0, j + offsets[0].1)) + CountLive(b, i, j, offsets[1..])
  }

  /** The number of live neighbours of (i, j): what live_neighbors_around returns. */
  function LiveNeighbors(b: Board, i: int, j: int): (k: nat)
    ensures k <= 8
  {
    CountLive(b, i, j, NeighborOffsets)
  }

  /** Independent description of the neighbourhood: the live cells of `b`
      at row distance and column distance at most one from (i, j), other
      than (i, j) itself. */
  function NeighborSet(b: Board, i: int, j: int): set<(int, int)> {
    set r, c | i - 1 <= r <= i + 1 && j - 1 <= c <= j + 1 && (r, c) != (i, j) && LiveAt(b, r, c) :: (r, c)
  }

  /** The survival/birth rule of src/lib.rs: a cell is alive in the next
      generation when it is alive with two live neighbours, or when it has
      three live neighbours. */
  function Rule(alive: bool, n: nat): (next: bool)
    ensures next <==> if alive then n == 2 || n == 3 else n == 3
  {
    (alive && n == 2) || n == 3
  }

  /** The next generation of `b`: every cell's new state is computed from
      the cells of `b` alone, never from partly updated cells. */
  function Step(b: Board): (next: Board)
    ensures |next| == |b|
    ensures forall i :: 0 <= i < |b| ==> |next[i]| == |b[i]|
  {
    seq(|b|, i requires 0 <= i < |b| =>
      seq(|b[i]|, j requires 0 <= j < |b[i]| => Rule(b[i][j], LiveNeighbors(b, i, j))))
  }

  /** `b` with every in-bounds position of `ps` set alive; other cells as in `b`. */
  function Marked(b: Board, ps: seq<(nat, nat)>): (r: Board)
    ensures |r| == |b|
    ensures forall i :: 0 <= i < |b| ==> |r[i]| == |b[i]|
  {
    seq(|b|, i requires 0 <= i < |b| =>
      seq(|b[i]|, j requires 0 <= j < |b[i]| => b[i][j] || (i, j) in ps))
  }

  /** The cells of a two-dimensional buffer, row by row. */
  function Contents(a: array2<bool>): (b: Board)
    reads a
    ensures Shaped(b, a.Length0, a.Length1)
    ensures forall i, j :: 0 <= i < a.Length0 && 0 <= j < a.Length1 ==> b[i][j] == a[i, j]
  {
    seq(a.Length0, i requires 0 <= i < a.Length0 reads a =>
      seq(a.Length1, j requires 0 <= j < a.Length1 reads a => a[i, j]))
  }

  /** A buffer holds a board when they agree cell by cell. */
  lemma ContentsIs(a: array2<bool>, b: Board)
    requires Shaped(b, a.Length0, a.Length1)
    requires forall i, j :: 0 <= i < a.Length0 && 0 <= j < a.Length1 ==> a[i, j] == b[i][j]
    ensures Contents(a) == b
  {
    assert forall i | 0 <= i < a.Length0 :: Contents(a)[i] == b[i];
  }

  /** Every position of `ps` is a cell of an `m` by `n` grid. */
  predicate InBounds(ps: seq<(nat, nat)>, m: nat, n: nat) {
    forall k :: 0 <= k < |ps| ==> ps[k].0 < m && ps[k].1 < n
  }

  // ---------------------------------------------------------------------
  // The neighbour count

  /** The neighbour count written out as the eight cells it looks at. */
  lemma LiveNeighborsUnfold(b: Board, i: int, j: int)
    ensures LiveNeighbors(b, i, j) ==
      Ind(LiveAt(b, i - 1, j - 1)) + Ind(LiveAt(b, i - 1, j)) + Ind(LiveAt(b, i - 1, j + 1)) +
      Ind(LiveAt(b, i, j - 1)) + Ind(LiveAt(b, i, j + 1)) +
      Ind(LiveAt(b, i + 1, j - 1)) + Ind(LiveAt(b, i + 1, j)) + Ind(LiveAt(b, i + 1, j + 1))
  {
    var o := NeighborOffsets;
    var o1 := o[1..]; var o2 := o1[1..]; var o3 := o2[1..]; var o4 := o3[1..];
    var o5 := o4[1..]; var o6 := o5[1..]; var o7 := o6[1..]; var o8 := o7[1..];
    assert CountLive(b, i, j, o) == Ind(LiveAt(b, i - 1, j - 1)) + CountLive(b, i, j, o1);
    assert CountLive(b, i, j, o1) == Ind(LiveAt(b, i - 1, j)) + CountLive(b, i, j, o2);
    assert CountLive(b, i, j, o2) == Ind(LiveAt(b, i - 1, j + 1)) + CountLive(b, i, j, o3);
    assert CountLive(b, i, j, o3) == Ind(LiveAt(b, i, j - 1)) + CountLive(b, i, j, o4);
    assert CountLive(b, i, j, o4) == Ind(LiveAt(b, i, j + 1)) + CountLive(b, i, j, o5);
    assert CountLive(b, i, j, o5) == Ind(LiveAt(b, i + 1, j - 1)) + CountLive(b, i, j, o6);
    assert CountLive(b, i, j, o6) == Ind(LiveAt(b, i + 1, j)) + CountLive(b, i, j, o7);
    assert CountLive(b, i, j, o7) == Ind(LiveAt(b, i + 1, j + 1)) + CountLive(b, i, j, o8);
    assert o8 == [];
  }

  /** The positions (i, j) + offsets that are live cells of `b`. */
  function LivePositions(b: Board, i: int, j: int, offsets: seq<(int, int)>): set<(int, int)> {
    if offsets == [] then {}
    else
      var p := (i + offsets[0].0, j + offsets[0].1);
      (if LiveAt(b, p.0, p.1) then {p} else {}) + LivePositions(b, i, j, offsets[1..])
  }

  predicate Distinct<T(==)>(s: seq<T>) {
    forall p, q :: 0 <= p < q < |s| ==> s[p] != s[q]
  }

  /** Only live positions reached by one of the offsets are collected. */
  lemma {:induction false} LivePositionsWithin(b: Board, i: int, j: int, offsets: seq<(int, int)>, p: (int, int))
    ensures p in LivePositions(b, i, j, offsets) ==> (p.0 - i, p.1 - j) in offsets && LiveAt(b, p.0, p.1)
  {
    if offsets != [] {
      LivePositionsWithin(b, i, j, offsets[1..], p);
    }
  }

  /** Every live position reached by an offset is collected. */
  lemma {:induction false} LivePositionsMember(b: Board, i: int, j: int, offsets: seq<(int, int)>, k: nat)
    requires k < |offsets| && LiveAt(b, i + offsets[k].0, j + offsets[k].1)
    ensures (i + offsets[k].0, j + offsets[k].1) in LivePositions(b, i, j, offsets)
  {
    if k > 0 {
      LivePositionsMember(b, i, j, offsets[1..], k - 1);
    }
  }

  /** Over distinct offsets, the count is the size of the set of live positions. */
  lemma {:induction false} CountLiveIsCardinality(b: Board, i: int, j: int, offsets: seq<(int, int)>)
    requires Distinct(offsets)
    ensures CountLive(b, i, j, offsets) == |LivePositions(b, i, j, offsets)|
  {
    if offsets != [] {
      var p := (i + offsets[0].0, j + offsets[0].1);
      var rest := LivePositions(b, i, j, offsets[1..]);
      CountLiveIsCardinality(b, i, j, offsets[1..]);
      assert offsets[0] !in offsets[1..];
      LivePositionsWithin(b, i, j, offsets[1..], p);
      assert p !in rest;
    }
  }

  lemma NeighborSetIsLivePositions(b: Board, i: int, j: int)
    ensures NeighborSet(b, i, j) == LivePositions(b, i, j, NeighborOffsets)
  {
    var o := NeighborOffsets;
    var s := NeighborSet(b, i, j);
    forall p | p in LivePositions(b, i, j, o) ensures p in s {
      LivePositionsWithin(b, i, j, o, p);
    }
    forall p | p in s ensures p in LivePositions(b, i, j, o) {
      var dr, dc := p.0 - i, p.1 - j;
      var k := if dr == -1 then dc + 1 else if dr == 0 then (if dc == -1 then 3 else 4) else dc + 6;
      assert o[k] == (dr, dc);
      LivePositionsMember(b, i, j, o, k);
    }
  }

  /** live_neighbors_around counts exactly the live cells of the (up to
      eight) in-bounds neighbours, so never more than eight. */
  lemma LiveNeighborsIsNeighborSetSize(b: Board, i: int, j: int)
    ensures LiveNeighbors(b, i, j) == |NeighborSet(b, i, j)| <= 8
  {
    CountLiveIsCardinality(b, i, j, NeighborOffsets);
    NeighborSetIsLivePositions(b, i, j);
  }

  /** No wraparound: the count depends only on the cells at distance at most
      one, so a cell on one edge never sees the opposite edge. */
  lemma LiveNeighborsLocal(b1: Board, b2: Board, i: int, j: int)
    requires forall r, c :: i - 1 <= r <= i + 1 && j - 1 <= c <= j + 1 && (r, c) != (i, j) ==>
               LiveAt(b1, r, c) == LiveAt(b2, r, c)
    ensures LiveNeighbors(b1, i, j) == LiveNeighbors(b2, i, j)
  {
    LiveNeighborsUnfold(b1, i, j);
    LiveNeighborsUnfold(b2, i, j);
  }

  // ---------------------------------------------------------------------
  // The rule and the step

  /** The rule is the four rules of the doc comment at src/lib.rs:49-54. */
  lemma RuleIsConway(alive: bool, n: nat)
    ensures alive && n < 2 ==> !Rule(alive, n)
    ensures alive && (n == 2 || n == 3) ==> Rule(alive, n)
    ensures alive && n > 3 ==> !Rule(alive, n)
    ensures !alive ==> (Rule(alive, n) <==> n == 3)
  {
  }

  /** A cell of the next generation, in terms of the previous generation's
      cell and its set of live neighbours. */
  lemma StepCell(b: Board, i: nat, j: nat)
    requires i < |b| && j < |b[i]|
    ensures Step(b)[i][j] <==>
      var n := |NeighborSet(b, i, j)|;
      (b[i][j] && (n == 2 || n == 3)) || (!b[i][j] && n == 3)
  {
    LiveNeighborsIsNeighborSetSize(b, i, j);
  }

  /** tick keeps the dimensions. */
  lemma StepShaped(b: Board, m: nat, n: nat)
    requires Shaped(b, m, n)
    ensures Shaped(Step(b), m, n)
  {
  }

  lemma StepAt(b: Board, i: nat, j: nat)
    requires i < |b| && j < |b[i]|
    ensures Step(b)[i][j] == Rule(b[i][j], LiveNeighbors(b, i, j))
  {
  }

  /** The all-dead grid is a fixed point of the step. */
  lemma DeadIsFixed(m: nat, n: nat)
    ensures Step(Dead(m, n)) == Dead(m, n)
  {
    var d := Dead(m, n);
    forall i | 0 <= i < m ensures Step(d)[i] == d[i] {
      forall j | 0 <= j < n ensures Step(d)[i][j] == d[i][j] {
        LiveNeighborsUnfold(d, i, j);
      }
    }
  }

  /** Marking is additive: it sets the listed cells and changes no other. */
  lemma MarkedCell(b: Board, ps: seq<(nat, nat)>, i: nat, j: nat)
    requires i < |b| && j < |b[i]|
    ensures b[i][j] ==> Marked(b, ps)[i][j]
    ensures (i, j) in ps ==> Marked(b, ps)[i][j]
    ensures (i, j) !in ps ==> Marked(b, ps)[i][j] == b[i][j]
  {
  }

  /** Marking twice with the same positions is marking once. */
  lemma MarkedIdempotent(b: Board, ps: seq<(nat, nat)>)
    ensures Marked(Marked(b, ps), ps) == Marked(b, ps)
  {
    var once := Marked(b, ps);
    forall i | 0 <= i < |b| ensures Marked(once, ps)[i] == once[i] {
      assert |Marked(once, ps)[i]| == |once[i]|;
    }
  }

  // ---------------------------------------------------------------------
  // Patterns drawn on a dead grid

  /** On a dead grid, the live cells after marking in-bounds positions are
      exactly those positions, whatever (r, c) is. */
  lemma MarkedDeadLiveAt(m: nat, n: nat, ps: seq<(nat, nat)>, r: int, c: int)
    requires InBounds(ps, m, n)
    ensures LiveAt(Marked(Dead(m, n), ps), r, c) == ((r, c) in ps)
  {
    if (r, c) in ps {
      var k :| 0 <= k < |ps| && ps[k] == (r, c);
      assert ps[k].0 < m && ps[k].1 < n;
    }
  }
}
