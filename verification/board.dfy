/**
 The Game of Life board: a `dimension × dimension` grid of squares addressed
 `squares[y][x]`, its clipped neighbour count, and the two-phase generation
 update (stage every square's next state from the current states, then commit
 every square). The board is an immutable value; each mutating operation of
 the Java class returns the updated board.
 */
module Board {
  import opened Square
  import opened Life

  datatype GameOfLife = GameOfLife(squares: seq<seq<GameSquare>>, dimension: int)

  /** The grid is fully populated and square with side `dimension`. */
  predicate Valid(b: GameOfLife) {
    b.dimension >= 0 &&
    |b.squares| == b.dimension &&
    forall y :: 0 <= y < b.dimension ==> |b.squares[y]| == b.dimension
  }

  /** The current states of all squares, as a grid of the rule's specification. */
  function States(b: GameOfLife): (g: Grid)
    requires Valid(b)
    ensures IsSquare(g, b.dimension)
    ensures forall y, x :: 0 <= y < b.dimension && 0 <= x < b.dimension ==>
              g[y][x] == b.squares[y][x].state
  {
    seq(b.dimension, y requires 0 <= y < b.dimension =>
      seq(b.dimension, x requires 0 <= x < b.dimension => b.squares[y][x].state))
  }

  /** Every square's staged value agrees with its current state. */
  predicate AllCommitted(b: GameOfLife)
    requires Valid(b)
  {
    forall y, x :: 0 <= y < b.dimension && 0 <= x < b.dimension ==> Committed(b.squares[y][x])
  }

  /** A fresh board: every square dead, with a dead staged value too. A
      dimension of 0 gives the empty board. */
  function New(dimension: int): (b: GameOfLife)
    requires dimension >= 0
    ensures Valid(b) && b.dimension == dimension
    ensures forall y, x :: 0 <= y < dimension && 0 <= x < dimension ==>
              !b.squares[y][x].state && !b.squares[y][x].nextState
  {
    GameOfLife(seq(dimension, _ => seq(dimension, _ => MakeDead())), dimension)
  }

  function GetDimension(b: GameOfLife): (n: int)
    ensures Valid(b) ==> n == |b.squares| && n >= 0
  {
    b.dimension
  }

  /** Whether `(x, y)` addresses a square of the board. */
  function CheckBounds(b: GameOfLife, x: int, y: int): (r: bool)
    ensures Valid(b) ==> (r <==> 0 <= y < |b.squares| && 0 <= x < |b.squares[y]|)
    ensures r <==> InGrid(b.dimension, x, y)
  {
    0 <= x < b.dimension && 0 <= y < b.dimension
  }

  /** The square at column `x` of row `y`. */
  function GetSquareAt(b: GameOfLife, x: int, y: int): (q: GameSquare)
    requires Valid(b) && CheckBounds(b, x, y)
    ensures q == b.squares[y][x]
  {
    b.squares[y][x]
  }

  /** Overwrites the current state of the square at `(x, y)`; its staged value
      and every other square are untouched. */
  function SetSquareAt(b: GameOfLife, x: int, y: int, s: bool): (r: GameOfLife)
    requires Valid(b) && CheckBounds(b, x, y)
    ensures Valid(r) && r.dimension == b.dimension
    ensures r.squares[y][x].state == s
    ensures r.squares[y][x].nextState == b.squares[y][x].nextState
    ensures forall j, i :: 0 <= j < b.dimension && 0 <= i < b.dimension && (i, j) != (x, y) ==>
              r.squares[j][i] == b.squares[j][i]
  {
    b.(squares := b.squares[y := b.squares[y][x := SetState(b.squares[y][x], s)]])
  }

  /** The number of live squares around `(x, y)`, scanning the 3 × 3 window
      column by column, skipping the centre and every position off the board.
      Any `(x, y)` may be asked about, on the board or off it. */
  method SumNeighbours(b: GameOfLife, x: int, y: int) returns (sum: int)
    requires Valid(b)
    ensures sum == CountNeighbours(States(b), x, y)
    ensures 0 <= sum <= 8
  {
    ghost var g := States(b);
    sum := 0;
    var x' := x - 1;
    while x' <= x + 1
      invariant x - 1 <= x' <= x + 2
      invariant sum == ColumnsBefore(g, x, y, x')
    {
      var y' := y - 1;
      while y' <= y + 1
        invariant y - 1 <= y' <= y + 2
        invariant sum == ColumnsBefore(g, x, y, x') + ColumnPrefix(g, x, y, x', y')
      {
        if x' == x && y' == y {
          y' := y' + 1;
          continue;
        }
        if CheckBounds(b, x', y') {
          if GetState(GetSquareAt(b, x', y')) {
            sum := sum + 1;
          }
        }
        y' := y' + 1;
      }
      x' := x' + 1;
    }
    ColumnsBeforeIsCount(g, x, y);
  }

  /** What the scan adds for position `(i, j)` of the window around `(x, y)`. */
  ghost function WindowCell(g: Grid, x: int, y: int, i: int, j: int): nat
    requires IsSquare(g, |g|)
  {
    if i == x && j == y then 0 else Live(g, i, j)
  }

  /** The scan's total over rows `y - 1 .. j - 1` of column `i`. */
  ghost function ColumnPrefix(g: Grid, x: int, y: int, i: int, j: int): nat
    requires IsSquare(g, |g|)
    requires y - 1 <= j
    decreases j - y
  {
    if j == y - 1 then 0 else ColumnPrefix(g, x, y, i, j - 1) + WindowCell(g, x, y, i, j - 1)
  }

  /** The scan's total over whole columns `x - 1 .. i - 1`. */
  ghost function ColumnsBefore(g: Grid, x: int, y: int, i: int): nat
    requires IsSquare(g, |g|)
    requires x - 1 <= i
    decreases i - x
  {
    if i == x - 1 then 0 else ColumnsBefore(g, x, y, i - 1) + ColumnPrefix(g, x, y, i - 1, y + 2)
  }

  /** A whole column of the window is the sum of its three positions. */
  lemma ColumnTotal(g: Grid, x: int, y: int, i: int)
    requires IsSquare(g, |g|)
    ensures ColumnPrefix(g, x, y, i, y + 2) ==
              WindowCell(g, x, y, i, y - 1) + WindowCell(g, x, y, i, y) + WindowCell(g, x, y, i, y + 1)
  {
    assert ColumnPrefix(g, x, y, i, y) == WindowCell(g, x, y, i, y - 1);
    assert ColumnPrefix(g, x, y, i, y + 1) == ColumnPrefix(g, x, y, i, y) + WindowCell(g, x, y, i, y);
  }

  /** The column-by-column scan counts the same eight neighbours as the
      neighbour-by-neighbour definition. */
  lemma ColumnsBeforeIsCount(g: Grid, x: int, y: int)
    requires IsSquare(g, |g|)
    ensures ColumnsBefore(g, x, y, x + 2) == CountNeighbours(g, x, y)
  {
    ColumnTotal(g, x, y, x - 1);
    ColumnTotal(g, x, y, x);
    ColumnTotal(g, x, y, x + 1);
    assert ColumnsBefore(g, x, y, x) == ColumnPrefix(g, x, y, x - 1, y + 2);
    assert ColumnsBefore(g, x, y, x + 1) == ColumnsBefore(g, x, y, x) + ColumnPrefix(g, x, y, x, y + 2);
  }

  /** The compute phase: stage every square's next state by the rule, from the
      current states. Current states are never written, so every count is
      taken from the grid as it was before the phase. */
  method ComputeNextStates(b: GameOfLife) returns (c: GameOfLife)
    requires Valid(b)
    ensures Valid(c) && c.dimension == b.dimension
    ensures States(c) == States(b)
    ensures forall y, x :: 0 <= y < b.dimension && 0 <= x < b.dimension ==>
              c.squares[y][x].nextState == Rule(b.squares[y][x].state, CountNeighbours(States(b), x, y))
  {
    ghost var g := States(b);
    var n := b.dimension;
    c := b;
    var y := 0;
    while y < n
      invariant 0 <= y <= n
      invariant Valid(c) && c.dimension == n
      invariant States(c) == g
      invariant StagedBefore(c, g, y, 0)
    {
      var x := 0;
      while x < n
        invariant 0 <= x <= n
        invariant Valid(c) && c.dimension == n
        invariant States(c) == g
        invariant StagedBefore(c, g, y, x)
      {
        var curr := GetSquareAt(c, x, y);
        var neighbours := SumNeighbours(c, x, y);
        var next: bool;
        if GetState(curr) {
          if neighbours < 2 || neighbours > 3 {
            next := false;
          } else {
            next := true;
          }
        } else {
          if neighbours == 3 {
            next := true;
          } else {
            next := false;
          }
        }
        assert next == Rule(g[y][x], CountNeighbours(g, x, y));
        c := StageOne(c, g, x, y, next);
        x := x + 1;
      }
      assert StagedBefore(c, g, y + 1, 0);
      y := y + 1;
    }
  }

  /** Every square before row `y`, and the squares of row `y` before column
      `x`, hold the rule's verdict on `g` as their staged value. */
  ghost predicate StagedBefore(c: GameOfLife, g: Grid, y: int, x: int)
    requires Valid(c) && IsSquare(g, c.dimension)
  {
    forall j, i :: 0 <= j < c.dimension && 0 <= i < c.dimension && (j < y || (j == y && i < x)) ==>
      c.squares[j][i].nextState == Rule(g[j][i], CountNeighbours(g, i, j))
  }

  /** Stages `next` at `(x, y)`, keeping the current states. */
  function StageOne(c: GameOfLife, ghost g: Grid, x: int, y: int, next: bool): (c': GameOfLife)
    requires Valid(c) && States(c) == g && InGrid(c.dimension, x, y)
    requires StagedBefore(c, g, y, x)
    requires next == Rule(g[y][x], CountNeighbours(g, x, y))
    ensures Valid(c') && c'.dimension == c.dimension
    ensures States(c') == g
    ensures StagedBefore(c', g, y, x + 1)
  {
    var c' := c.(squares := c.squares[y := c.squares[y][x := SetNextState(c.squares[y][x], next)]]);
    StatesAfterStaging(c', g);
    c'
  }

  /** Staging a value leaves the grid of current states as it was. */
  lemma StatesAfterStaging(c: GameOfLife, g: Grid)
    requires Valid(c) && IsSquare(g, c.dimension)
    requires forall j, i :: 0 <= j < c.dimension && 0 <= i < c.dimension ==> c.squares[j][i].state == g[j][i]
    ensures States(c) == g
  {
    var s := States(c);
    forall j | 0 <= j < c.dimension
      ensures s[j] == g[j]
    {
    }
  }

  /** The commit phase: every square's current state becomes its staged one. */
  method CommitAll(c: GameOfLife) returns (r: GameOfLife)
    requires Valid(c)
    ensures Valid(r) && r.dimension == c.dimension
    ensures forall y, x :: 0 <= y < c.dimension && 0 <= x < c.dimension ==>
              r.squares[y][x].state == c.squares[y][x].nextState &&
              r.squares[y][x].nextState == c.squares[y][x].nextState
  {
    var n := c.dimension;
    r := c;
    var y := 0;
    while y < n
      invariant 0 <= y <= n
      invariant Valid(r) && r.dimension == n
      invariant forall j, i :: 0 <= j < n && 0 <= i < n ==>
                  r.squares[j][i] == if j < y then UpdateState(c.squares[j][i]) else c.squares[j][i]
    {
      var x := 0;
      while x < n
        invariant 0 <= x <= n
        invariant Valid(r) && r.dimension == n
        invariant forall j, i :: 0 <= j < n && 0 <= i < n ==>
                    r.squares[j][i] ==
                      if j < y || (j == y && i < x) then UpdateState(c.squares[j][i]) else c.squares[j][i]
      {
        r := r.(squares := r.squares[y := r.squares[y][x := UpdateState(r.squares[y][x])]]);
        x := x + 1;
      }
      y := y + 1;
    }
  }

  /** One generation: stage all, then commit all. The new current states are
      exactly one step of the rule applied to the old ones, every square ends
      committed, and the dimension is unchanged. */
  method UpdateBoard(b: GameOfLife) returns (r: GameOfLife)
    requires Valid(b)
    ensures Valid(r) && r.dimension == b.dimension
    ensures States(r) == LifeStep(States(b))
    ensures AllCommitted(r)
  {
    var c := ComputeNextStates(b);
    r := CommitAll(c);
    StatesAfterStaging(r, LifeStep(States(b)));
  }

  /** A committed board is determined by its dimension and its current states,
      so the result of an update carries no trace of the staged values it
      started from. */
  lemma CommittedBoardsAgree(a: GameOfLife, b: GameOfLife)
    requires Valid(a) && Valid(b) && a.dimension == b.dimension
    requires AllCommitted(a) && AllCommitted(b)
    requires States(a) == States(b)
    ensures a == b
  {
    forall y | 0 <= y < a.dimension
      ensures a.squares[y] == b.squares[y]
    {
      forall x | 0 <= x < a.dimension
        ensures a.squares[y][x] == b.squares[y][x]
      {
        assert States(a)[y][x] == States(b)[y][x];
      }
    }
  }

  /** `k` successive updates give `k` generations of the rule. */
  method Run(b: GameOfLife, k: nat) returns (r: GameOfLife)
    requires Valid(b)
    ensures Valid(r) && r.dimension == b.dimension
    ensures States(r) == Generations(States(b), k)
  {
    r := b;
    var i := 0;
    while i < k
      invariant 0 <= i <= k
      invariant Valid(r) && r.dimension == b.dimension
      invariant States(r) == Generations(States(b), i)
    {
      GenerationsSucc(States(b), i);
      r := UpdateBoard(r);
      i := i + 1;
    }
  }

  /** Reading back a written square gives the written state; every other
      square reads as before. */
  lemma SetThenGet(b: GameOfLife, x: int, y: int, s: bool, i: int, j: int)
    requires Valid(b) && CheckBounds(b, x, y) && CheckBounds(b, i, j)
    ensures GetState(GetSquareAt(SetSquareAt(b, x, y, s), x, y)) == s
    ensures GetNextState(GetSquareAt(SetSquareAt(b, x, y, s), x, y)) == GetNextState(GetSquareAt(b, x, y))
    ensures (i, j) != (x, y) ==> GetSquareAt(SetSquareAt(b, x, y, s), i, j) == GetSquareAt(b, i, j)
  {
  }

  /** A second write to the same square overrides the first. */
  lemma SetSquareAtOverwrites(b: GameOfLife, x: int, y: int, s: bool, t: bool)
    requires Valid(b) && CheckBounds(b, x, y)
    ensures SetSquareAt(SetSquareAt(b, x, y, s), x, y, t) == SetSquareAt(b, x, y, t)
  {
    var r1 := SetSquareAt(SetSquareAt(b, x, y, s), x, y, t);
    var r2 := SetSquareAt(b, x, y, t);
    assert r1.squares[y] == r2.squares[y];
    assert r1.squares == r2.squares;
  }

  /** A fresh board reads dead everywhere and stays dead under the rule. */
  lemma NewBoardIsDead(n: int)
    requires n >= 0
    ensures AllDead(States(New(n)))
    ensures AllCommitted(New(n))
    ensures AllDead(LifeStep(States(New(n))))
  {
    DeadGridStaysDead(States(New(n)));
  }
}
