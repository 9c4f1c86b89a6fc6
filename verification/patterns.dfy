/**
 Well-known patterns on a clipped board of any large enough side: the block
 is a still life, the blinker has period 2, and on a 3 × 3 board a ring of
 eight live cells around a dead centre leaves only the four corners live.
 */
module Patterns {
  import opened Life

  /** The `n × n` grid whose live cells are exactly `live`, as `(x, y)` pairs. */
  function Pattern(n: nat, live: set<(int, int)>): (g: Grid)
    ensures IsSquare(g, n)
    ensures forall y, x :: 0 <= y < n && 0 <= x < n ==> (g[y][x] <==> (x, y) in live)
  {
    seq(n, y => seq(n, x => (x, y) in live))
  }

  const Block: set<(int, int)> := {(1, 1), (2, 1), (1, 2), (2, 2)}
  const BlinkerHorizontal: set<(int, int)> := {(1, 2), (2, 2), (3, 2)}
  const BlinkerVertical: set<(int, int)> := {(2, 1), (2, 2), (2, 3)}
  const Ring: set<(int, int)> := {(0, 0), (1, 0), (2, 0), (0, 1), (2, 1), (0, 2), (1, 2), (2, 2)}
  const Corners: set<(int, int)> := {(0, 0), (2, 0), (0, 2), (2, 2)}

  /** Whether `(x, y)` is a live cell of the pattern on the `n × n` board. */
  function LiveIn(n: nat, live: set<(int, int)>, x: int, y: int): nat {
    if InGrid(n, x, y) && (x, y) in live then 1 else 0
  }

  /** The neighbour count of a pattern, read off its set of live cells. */
  lemma PatternCount(n: nat, live: set<(int, int)>, x: int, y: int)
    ensures CountNeighbours(Pattern(n, live), x, y) ==
              LiveIn(n, live, x - 1, y - 1) + LiveIn(n, live, x, y - 1) + LiveIn(n, live, x + 1, y - 1) +
              LiveIn(n, live, x - 1, y) + LiveIn(n, live, x + 1, y) +
              LiveIn(n, live, x - 1, y + 1) + LiveIn(n, live, x, y + 1) + LiveIn(n, live, x + 1, y + 1)
  {
    var g := Pattern(n, live);
    forall i, j ensures Live(g, i, j) == LiveIn(n, live, i, j) {
    }
  }

  /** The step maps pattern `a` to pattern `b` as soon as it does so cell by cell. */
  lemma StepByCells(n: nat, a: set<(int, int)>, b: set<(int, int)>)
    requires forall y, x :: 0 <= y < n && 0 <= x < n ==>
               Rule((x, y) in a, CountNeighbours(Pattern(n, a), x, y)) == ((x, y) in b)
    ensures LifeStep(Pattern(n, a)) == Pattern(n, b)
  {
    var h := LifeStep(Pattern(n, a));
    forall y | 0 <= y < n
      ensures h[y] == Pattern(n, b)[y]
    {
    }
  }

  /** The 2 × 2 block is left unchanged by a step, on any board of side at least 4. */
  lemma BlockIsStill(n: nat)
    requires n >= 4
    ensures LifeStep(Pattern(n, Block)) == Pattern(n, Block)
  {
    forall y, x | 0 <= y < n && 0 <= x < n
      ensures Rule((x, y) in Block, CountNeighbours(Pattern(n, Block), x, y)) == ((x, y) in Block)
    {
      PatternCount(n, Block, x, y);
    }
    StepByCells(n, Block, Block);
  }

  /** The horizontal blinker turns vertical, on any board of side at least 5. */
  lemma BlinkerTurns(n: nat)
    requires n >= 5
    ensures LifeStep(Pattern(n, BlinkerHorizontal)) == Pattern(n, BlinkerVertical)
  {
    forall y, x | 0 <= y < n && 0 <= x < n
      ensures Rule((x, y) in BlinkerHorizontal, CountNeighbours(Pattern(n, BlinkerHorizontal), x, y)) ==
              ((x, y) in BlinkerVertical)
    {
      PatternCount(n, BlinkerHorizontal, x, y);
    }
    StepByCells(n, BlinkerHorizontal, BlinkerVertical);
  }

  /** The vertical blinker turns back horizontal. */
  lemma BlinkerReturns(n: nat)
    requires n >= 5
    ensures LifeStep(Pattern(n, BlinkerVertical)) == Pattern(n, BlinkerHorizontal)
  {
    forall y, x | 0 <= y < n && 0 <= x < n
      ensures Rule((x, y) in BlinkerVertical, CountNeighbours(Pattern(n, BlinkerVertical), x, y)) ==
              ((x, y) in BlinkerHorizontal)
    {
      PatternCount(n, BlinkerVertical, x, y);
    }
    StepByCells(n, BlinkerVertical, BlinkerHorizontal);
  }

  /** The blinker has period 2, and so returns after every even number of
      generations; the block never changes. */
  lemma OscillatorsForever(n: nat, k: nat)
    requires n >= 5
    ensures Generations(Pattern(n, BlinkerHorizontal), 2 * k) == Pattern(n, BlinkerHorizontal)
    ensures Generations(Pattern(n, Block), k) == Pattern(n, Block)
  {
    BlinkerTurns(n);
    BlinkerReturns(n);
    PeriodTwoForever(Pattern(n, BlinkerHorizontal), k);
    BlockIsStill(n);
    StillLifeForever(Pattern(n, Block), k);
  }

  /** On a 3 × 3 board whose eight outer cells are live and whose centre is
      dead, every cell's fate comes from the old grid: the centre sees 8 live
      neighbours and stays dead, each corner sees 2 and survives, and each
      edge cell sees 4 and dies. */
  lemma RingOfEight()
    ensures LifeStep(Pattern(3, Ring)) == Pattern(3, Corners)
  {
    forall y, x | 0 <= y < 3 && 0 <= x < 3
      ensures Rule((x, y) in Ring, CountNeighbours(Pattern(3, Ring), x, y)) ==
              ((x, y) in Corners)
    {
      PatternCount(3, Ring, x, y);
      assert x == 0 || x == 1 || x == 2;
      // The empty branches only split the proof into one case per row.
      if y == 0 {
      } else if y == 1 {
      } else {
      }
    }
    StepByCells(3, Ring, Corners);
  }

}
