# Conway's Game of Life on a finite board — a Dafny model

This project models the state-transition engine of a finite, non-wrapping
Game of Life board with the B3/S23 rule. A `GameSquare` holds a committed
`state` and a staged `nextState`. A `GameOfLife` board is a
`dimension × dimension` grid of squares addressed `squares[y][x]`. It counts
neighbours with clipping at the edges and advances a generation in two
phases: first it stages every square's next state from the current states
only, then it commits every square.

The Java classes mutate objects in place. Here both are immutable datatypes,
and every mutating operation returns the updated value. The loops of
`sumNeighbours` and `updateBoard` are kept as Dafny methods. Their contracts
tie them to a pure specification, `Life.LifeStep`: one step of the rule on a
`seq<seq<bool>>` grid. `Life.CountNeighbours` writes the clipped neighbour
count out neighbour by neighbour, so it is independent of the
column-by-column scan that `Board.SumNeighbours` performs.

Files:
- `square.dfy` (module `Square`): the square and its operations.
- `life.dfy` (module `Life`): the rule, the count, one step, `k` steps, and lemmas about them.
- `board.dfy` (module `Board`): the board, its accessors, the neighbour scan, the two phases and `UpdateBoard`.
- `patterns.dfy` (module `Patterns`): block, blinker and the 3 × 3 ring, on boards of any large enough side.

The model follows the code in these points:
- The code defines no error values of its own. A negative dimension or an
  out-of-range index only trips Java's array checks, so these become
  preconditions (`dimension >= 0`, `CheckBounds(b, x, y)`). Dimension 0 is
  accepted and gives the empty board.
- `setSquareAt` overwrites only the current state. It leaves the square's
  `nextState` stale instead of resetting it.
- On a 3 × 3 board whose eight outer cells are live and whose centre is dead,
  the centre has 8 live neighbours and stays dead. `Patterns.RingOfEight`
  proves each cell's fate.

## Model

| member | source | states |
|---|---|---|
| Square.Make | GameSquare.java:35-38 | the one-argument constructor sets the current state to its argument and leaves the square committed (`nextState` equals `state`) |
| Square.MakeDead | GameSquare.java:43-45 | the no-argument constructor yields a dead square whose staged value is also dead |
| Square.ShiftState | GameSquare.java:51-54 | stages and returns the negation of the current state, leaves the current state alone, so the square is left uncommitted |
| Square.UpdateState | GameSquare.java:59-62 | the current state becomes the staged value, the staged value is kept, and the square ends committed |
| Square.UpdateStateIdempotent | GameSquare.java:59-62 | committing twice in a row has the same effect as committing once |
| Square.ShiftThenUpdateFlips | GameSquare.java:51-62 | staging the flip and committing it negates the state; doing that twice restores the original state |
| Square.GetState | GameSquare.java:67-69 | returns the current state, without changing the square |
| Square.GetNextState | GameSquare.java:86-88 | returns the staged value, without changing the square |
| Square.SetState | GameSquare.java:77-79 | the current state reads back as the argument and the staged value is unchanged |
| Square.SetNextState | GameSquare.java:96-98 | the staged value reads back as the argument and the current state is unchanged |
| Square.AccessorLaws | GameSquare.java:67-98 | each getter reads back what its setter wrote, a setter leaves the other field alone, writing back a read value changes nothing, and setting both fields to `s` gives the constructor's square |
| Square.ToString | GameSquare.java:104-109 | the glyph is one character: "X" exactly when the square is live, a blank exactly when it is dead |
| Square.ToStringDistinguishes | GameSquare.java:104-109 | two squares draw the same glyph exactly when their current states agree |
| Life.CountNeighbours | GameOfLife.java:143-157 | the clipped count of live cells among the eight adjacent positions never exceeds 8 |
| Life.Rule | GameOfLife.java:110-125 | the rule's branches compute B3/S23: the next state is live exactly when the count is 3, or the cell is live and the count is 2 |
| Life.CountIgnoresSelf | GameOfLife.java:148-150 | changing the cell itself never changes its own count |
| Life.CountIsLocal | GameOfLife.java:146-155 | the count depends only on the in-bounds adjacent cells, so cells elsewhere, including those on the opposite edge, do not affect it |
| Life.CountAllLive | GameOfLife.java:146-155 | on an all-live board the count is the number of in-bounds positions of the 3 × 3 window, minus the cell itself |
| Life.CornerCountIsClipped | GameOfLife.java:220-227 | a corner of an all-live board of side at least 2 counts 3 neighbours, not 8; nothing wraps |
| Life.DeadGridStaysDead | GameOfLife.java:101-141 | an all-dead grid stays all dead after a step |
| Life.LoneCellDies | GameOfLife.java:110-116 | a cell with no live neighbour is dead after a step |
| Life.GenerationsCompose | GameOfLife.java:101-141 | `a` steps followed by `b` steps equal `a + b` steps; a step depends on nothing but the grid |
| Life.GenerationsSucc | GameOfLife.java:101-141 | `k + 1` steps are one step applied after `k` steps |
| Life.StillLifeForever | GameOfLife.java:101-141 | a grid fixed by one step is fixed by any number of steps |
| Life.PeriodTwoForever | GameOfLife.java:101-141 | a grid that returns after two steps returns after every even number of steps |
| Board.New | GameOfLife.java:19-27 | a fresh board is `dimension × dimension` and every square is dead with a dead staged value; dimension 0 gives the empty board |
| Board.NewBoardIsDead | GameOfLife.java:19-27 | a fresh board reads dead everywhere, is committed, and stays dead after a step |
| Board.GetDimension | GameOfLife.java:33-35 | on a well-formed board the dimension is the number of rows and is not negative |
| Board.CheckBounds | GameOfLife.java:220-227 | true exactly when `0 <= x < dimension` and `0 <= y < dimension`, which on a well-formed board is exactly when `squares[y][x]` exists |
| Board.GetSquareAt | GameOfLife.java:37-39 | returns the square stored at row `y`, column `x` |
| Board.SetSquareAt | GameOfLife.java:41-43 | the square at `(x, y)` takes the new current state and keeps its staged value; every other square and the dimension are unchanged |
| Board.SetThenGet | GameOfLife.java:37-43 | after a write, `getSquareAt` at that position reads the written state and the old staged value, and reads every other position as before |
| Board.SetSquareAtOverwrites | GameOfLife.java:41-43 | a second write to the same square overrides the first |
| Board.SumNeighbours | GameOfLife.java:143-157 | the column-by-column scan, which skips the centre and off-board positions, returns the clipped neighbour count of the current states, a value in [0, 8], for any `(x, y)` on or off the board |
| Board.ColumnsBeforeIsCount | GameOfLife.java:146-157 | the scan's three column totals add up to the neighbour-by-neighbour count |
| Board.ComputeNextStates | GameOfLife.java:104-133 | the compute phase writes only staged values: the current-state grid is unchanged, and each square's staged value is the rule applied to its old state and its count on the old grid |
| Board.CommitAll | GameOfLife.java:136-140 | the commit phase sets every square's current state to its staged value and keeps the staged value |
| Board.UpdateBoard | GameOfLife.java:101-141 | after an update the current states equal one step of the rule on the old states, every square is committed, and the dimension is unchanged |
| Board.CommittedBoardsAgree | GameOfLife.java:136-140 | committed boards with the same dimension and the same current states are equal, so an update's result does not depend on the staged values it started from |
| Board.Run | GameOfLife.java:101-141 | `k` successive updates give the states of `k` generations of the rule |
| Patterns.BlockIsStill | GameOfLife.java:101-141 | the 2 × 2 block at (1,1)–(2,2) is a still life on any board of side at least 4 |
| Patterns.BlinkerTurns | GameOfLife.java:101-141 | on any board of side at least 5, the horizontal blinker (1,2),(2,2),(3,2) becomes the vertical (2,1),(2,2),(2,3) |
| Patterns.BlinkerReturns | GameOfLife.java:101-141 | the vertical blinker becomes horizontal again |
| Patterns.OscillatorsForever | GameOfLife.java:101-141 | the blinker returns after every even number of generations, and the block never changes |
| Patterns.RingOfEight | GameOfLife.java:104-140 | on a 3 × 3 board with the eight outer cells live, each cell's fate comes from the old grid: the centre (8 neighbours) stays dead, the corners (2) survive, and the edge cells (4) die |

## Left out

- `drawBoard` and `drawGridBoard`: console printing only. The glyph each square prints is modelled by `Square.ToString`.
- `getSquares`: it returns the mutable internal array, which exposes aliasing but has no behaviour of its own. `Board.States` is the read-only view of the current states.
- Main.java: argument parsing with defaults 20 and 500, the interactive menu, `System.exit`, and the endless run loop with `Thread.sleep`. These are I/O and timing, not part of this model. `Board.Run` states what repeated updates compute.
- Board.SumNeighbours: coordinates are unbounded integers, and the model returns a count for every `(x, y)`. Java's 32-bit `int` behaves differently at the ends of its range, in the order the loops run. If `x` is `Integer.MAX_VALUE` or `Integer.MIN_VALUE`, `x+1` or `x-1` overflows, the outer loop is skipped, and the call returns 0. Otherwise, if `x` or `y` is `Integer.MAX_VALUE - 1`, a loop guard compares against `Integer.MAX_VALUE`, is always true, and the call never returns. Otherwise, if `y` is `Integer.MAX_VALUE` or `Integer.MIN_VALUE`, every inner loop is skipped and the call returns 0. None of this is modelled. `updateBoard` never passes such values, because it only passes positions on the board.
- Java's `NegativeArraySizeException` and `ArrayIndexOutOfBoundsException` become preconditions (`dimension >= 0`, in-bounds indices) rather than modelled errors, because the code defines no errors of its own.
- Object identity and in-place mutation: each mutating method returns a new value instead, so the live reference that `getSquareAt` hands out (GameOfLife.java:37-39) is not modelled. `updateBoard`'s own write through that reference (`curr.setNextState`) is modelled by writing the staged square back into the board (`Board.StageOne`). Main.java calls only `setSquareAt`, `updateBoard` and the draw methods, so no other caller writes through the reference.
