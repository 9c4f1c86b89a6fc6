/**
 The rule of Conway's Game of Life (B3/S23) on a finite, clipped square grid,
 stated as pure functions. A grid is addressed `g[y][x]`: `y` is the row,
 `x` the column. Positions off the grid are permanently dead; nothing wraps.
 */
module Life {

  type Grid = seq<seq<bool>>

  /** `g` is an `n × n` grid. */
  predicate IsSquare(g: Grid, n: int) {
    |g| == n && forall y :: 0 <= y < n ==> |g[y]| == n
  }

  predicate InGrid(n: int, x: int, y: int) {
    0 <= x < n && 0 <= y < n
  }

  /** 1 when `(x, y)` is on the grid and live, 0 otherwise: off-grid positions
      contribute nothing. */
  function Live(g: Grid, x: int, y: int): nat
    requires IsSquare(g, |g|)
  {
    if InGrid(|g|, x, y) && g[y][x] then 1 else 0
  }

  /** The number of live cells among the eight positions adjacent to `(x, y)`,
      written out neighbour by neighbour (NW, N, NE, W, E, SW, S, SE). */
  function CountNeighbours(g: Grid, x: int, y: int): (r: nat)
    requires IsSquare(g, |g|)
    ensures r <= 8
  {
    Live(g, x - 1, y - 1) + Live(g, x, y - 1) + Live(g, x + 1, y - 1) +
    Live(g, x - 1, y)                         + Live(g, x + 1, y) +
    Live(g, x - 1, y + 1) + Live(g, x, y + 1) + Live(g, x + 1, y + 1)
  }

  /** The next state of one cell from its current state and its live-neighbour
      count, with the branches taken in the order of the board's update. */
  function Rule(alive: bool, neighbours: int): (r: bool)
    ensures r <==> neighbours == 3 || (alive && neighbours == 2)
  {
    if alive then
      if neighbours < 2 || neighbours > 3 then false else true
    else
      if neighbours == 3 then true else false
  }

  /** One generation: every cell's next state from the same, old grid. */
  function LifeStep(g: Grid): (r: Grid)
    requires IsSquare(g, |g|)
    ensures IsSquare(r, |g|)
    ensures forall y, x :: 0 <= y < |g| && 0 <= x < |g| ==>
              r[y][x] == Rule(g[y][x], CountNeighbours(g, x, y))
  {
    seq(|g|, y requires 0 <= y < |g| =>
      seq(|g|, x requires 0 <= x < |g| => Rule(g[y][x], CountNeighbours(g, x, y))))
  }

  /** `(i, j)` is one of the eight positions around `(x, y)`. */
  predicate Adjacent(x: int, y: int, i: int, j: int) {
    -1 <= i - x <= 1 && -1 <= j - y <= 1 && (i, j) != (x, y)
  }

  /** `k` generations. */
  function Generations(g: Grid, k: nat): (r: Grid)
    requires IsSquare(g, |g|)
    ensures IsSquare(r, |g|)
    decreases k
  {
    if k == 0 then g else Generations(LifeStep(g), k - 1)
  }

  /** The number of indices in `{c - 1, c, c + 1}` that lie in `[0, n)`. */
  function Span(n: int, c: int): nat {
    (if 0 <= c - 1 < n then 1 else 0) +
    (if 0 <= c < n then 1 else 0) +
    (if 0 <= c + 1 < n then 1 else 0)
  }

  predicate AllLive(g: Grid) {
    forall y, x :: 0 <= y < |g| && 0 <= x < |g[y]| ==> g[y][x]
  }

  predicate AllDead(g: Grid) {
    forall y, x :: 0 <= y < |g| && 0 <= x < |g[y]| ==> !g[y][x]
  }

  /** The count never includes the cell itself: changing `(x, y)` leaves its
      own count alone. */
  lemma CountIgnoresSelf(g: Grid, x: int, y: int, v: bool)
    requires IsSquare(g, |g|)
    requires InGrid(|g|, x, y)
    ensures IsSquare(g[y := g[y][x := v]], |g|)
    ensures CountNeighbours(g[y := g[y][x := v]], x, y) == CountNeighbours(g, x, y)
  {
    var h := g[y := g[y][x := v]];
    forall j | 0 <= j < |g|
      ensures |h[j]| == |g|
    {
    }
    CountIsLocal(g, h, x, y);
  }

  /** The count only reads the in-bounds neighbours: two grids of the same
      size that agree there have the same count, whatever lies elsewhere
      (in particular, on the opposite edge). */
  lemma CountIsLocal(g: Grid, h: Grid, x: int, y: int)
    requires IsSquare(g, |g|) && IsSquare(h, |g|)
    requires forall i, j :: Adjacent(x, y, i, j) && InGrid(|g|, i, j) ==> g[j][i] == h[j][i]
    ensures CountNeighbours(g, x, y) == CountNeighbours(h, x, y)
  {
  }

  /** On an all-live grid the count is the number of in-bounds neighbour
      positions: the 3 × 3 window clipped to the grid, less the cell itself. */
  lemma CountAllLive(g: Grid, x: int, y: int)
    requires IsSquare(g, |g|) && AllLive(g)
    requires InGrid(|g|, x, y)
    ensures CountNeighbours(g, x, y) == Span(|g|, x) * Span(|g|, y) - 1
  {
    var n := |g|;
    var sx0, sx1, sx2 := (if 0 <= x - 1 < n then 1 else 0), 1, (if 0 <= x + 1 < n then 1 else 0);
    var sy0, sy1, sy2 := (if 0 <= y - 1 < n then 1 else 0), 1, (if 0 <= y + 1 < n then 1 else 0);
    assert Span(n, x) == sx0 + sx1 + sx2;
    assert Span(n, y) == sy0 + sy1 + sy2;
    assert (sx0 + sx1 + sx2) * (sy0 + sy1 + sy2) ==
      sx0 * sy0 + sx1 * sy0 + sx2 * sy0 + sx0 * sy1 + sx1 * sy1 + sx2 * sy1 + sx0 * sy2 + sx1 * sy2 + sx2 * sy2;
  }

  /** Clipping, not wrapping: the corner of an all-live grid of side at least 2
      sees exactly 3 live neighbours, not 8. */
  lemma CornerCountIsClipped(g: Grid)
    requires IsSquare(g, |g|) && AllLive(g)
    requires |g| >= 2
    ensures CountNeighbours(g, 0, 0) == 3
    ensures CountNeighbours(g, |g| - 1, |g| - 1) == 3
  {
    CountAllLive(g, 0, 0);
    CountAllLive(g, |g| - 1, |g| - 1);
  }

  /** An empty grid stays empty. */
  lemma DeadGridStaysDead(g: Grid)
    requires IsSquare(g, |g|) && AllDead(g)
    ensures AllDead(LifeStep(g))
  {
  }

  /** A live cell with no live neighbour dies of under-population. */
  lemma LoneCellDies(g: Grid, x: int, y: int)
    requires IsSquare(g, |g|) && InGrid(|g|, x, y)
    requires CountNeighbours(g, x, y) == 0
    ensures !LifeStep(g)[y][x]
  {
  }

  /** `k` generations are `k` single steps: taking `a` steps and then `b` more
      is the same as taking `a + b`. No state is carried beyond the grid. */
  lemma {:induction false} GenerationsCompose(g: Grid, a: nat, b: nat)
    requires IsSquare(g, |g|)
    ensures Generations(g, a + b) == Generations(Generations(g, a), b)
    decreases a
  {
    if a > 0 {
      GenerationsCompose(LifeStep(g), a - 1, b);
    }
  }

  /** One more generation is one more step applied to the result. */
  lemma {:induction false} GenerationsSucc(g: Grid, k: nat)
    requires IsSquare(g, |g|)
    ensures Generations(g, k + 1) == LifeStep(Generations(g, k))
  {
    GenerationsCompose(g, k, 1);
    assert Generations(Generations(g, k), 1) == Generations(LifeStep(Generations(g, k)), 0);
  }

  /** A fixed point of a step is a fixed point of every number of steps. */
  lemma {:induction false} StillLifeForever(g: Grid, k: nat)
    requires IsSquare(g, |g|)
    requires LifeStep(g) == g
    ensures Generations(g, k) == g
    decreases k
  {
    if k > 0 {
      StillLifeForever(g, k - 1);
    }
  }

  /** A pattern of period 2 returns after every even number of steps. */
  lemma {:induction false} PeriodTwoForever(g: Grid, k: nat)
    requires IsSquare(g, |g|)
    requires LifeStep(LifeStep(g)) == g
    ensures Generations(g, 2 * k) == g
    decreases k
  {
    if k > 0 {
      assert Generations(g, 2) == g;
      GenerationsCompose(g, 2, 2 * (k - 1));
      PeriodTwoForever(g, k - 1);
    }
  }
}
