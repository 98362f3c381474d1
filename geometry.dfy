/**
 * Grid geometry of a height-by-width minesweeper board: cells are (row, column)
 * pairs, and a cell's neighbours are the in-bounds cells of its 8-neighbourhood.
 */
module Geometry {

  type Cell = (int, int)

  predicate InGrid(p: Cell, height: int, width: int) {
    0 <= p.0 < height && 0 <= p.1 < width
  }

  function Abs(x: int): nat {
    if x < 0 then -x else x
  }

  /** Chebyshev (king-move) distance between two cells. */
  function Distance(p: Cell, q: Cell): nat {
    var dr, dc := Abs(p.0 - q.0), Abs(p.1 - q.1);
    if dr < dc then dc else dr
  }

  /** Row-major order of the board scan: p is visited before q. */
  predicate RowMajorBefore(p: Cell, q: Cell) {
    p.0 < q.0 || (p.0 == q.0 && p.1 < q.1)
  }

  /**
   * The 3-by-3 window around c without c itself, clipped to the grid.
   * Its members are exactly the in-bounds cells at king-move distance 1.
   */
  function Neighbors(c: Cell, height: int, width: int): (r: set<Cell>)
    ensures forall p :: p in r <==> InGrid(p, height, width) && Distance(p, c) == 1
  {
    set i, j | c.0 - 1 <= i <= c.0 + 1 && c.1 - 1 <= j <= c.1 + 1
               && (i, j) != c && 0 <= i < height && 0 <= j < width :: (i, j)
  }

  /** Neighbours with their own rows and columns already visited by the scan that reaches (i, j). */
  ghost function Scanned(c: Cell, height: int, width: int, i: int, j: int): set<Cell> {
    set p | p in Neighbors(c, height, width) && RowMajorBefore(p, (i, j))
  }

  /** The nested loop building the neighbour set, row by row over the 3-by-3 window. */
  method NeighborCells(c: Cell, height: int, width: int) returns (neighbors: set<Cell>)
    ensures neighbors == Neighbors(c, height, width)
    ensures c !in neighbors
    ensures forall p :: p in neighbors ==> InGrid(p, height, width)
  {
    neighbors := {};
    for i := c.0 - 1 to c.0 + 2
      invariant neighbors == Scanned(c, height, width, i, c.1 - 1)
    {
      for j := c.1 - 1 to c.1 + 2
        invariant neighbors == Scanned(c, height, width, i, j)
      {
        if (i, j) == c {
          continue;
        }
        if 0 <= i < height && 0 <= j < width {
          neighbors := neighbors + {(i, j)};
        }
      }
      assert Scanned(c, height, width, i, c.1 + 2) == Scanned(c, height, width, i + 1, c.1 - 1);
    }
    assert Scanned(c, height, width, c.0 + 2, c.1 - 1) == Neighbors(c, height, width);
  }

  /** The full 8-neighbourhood of c, unclipped. */
  function Ring(c: Cell): set<Cell> {
    var (r, k) := c;
    {(r - 1, k - 1), (r - 1, k), (r - 1, k + 1), (r, k - 1), (r, k + 1), (r + 1, k - 1), (r + 1, k), (r + 1, k + 1)}
  }

  lemma RingHasEight(c: Cell)
    ensures |Ring(c)| == 8
  {
    var (r, k) := c;
    assert |{(r - 1, k - 1), (r - 1, k), (r - 1, k + 1), (r, k - 1)}| == 4;
  }

  lemma NeighborsInRing(c: Cell, height: int, width: int)
    ensures Neighbors(c, height, width) == set p | p in Ring(c) && InGrid(p, height, width)
  {
  }

  /** No cell has more than 8 neighbours. */
  lemma AtMostEightNeighbors(c: Cell, height: int, width: int)
    ensures |Neighbors(c, height, width)| <= 8
  {
    NeighborsInRing(c, height, width);
    RingHasEight(c);
    SubsetCard(Neighbors(c, height, width), Ring(c));
  }

  /** A cell at least one step away from every border has all 8 neighbours. */
  lemma InteriorHasEightNeighbors(c: Cell, height: int, width: int)
    requires 1 <= c.0 < height - 1 && 1 <= c.1 < width - 1
    ensures |Neighbors(c, height, width)| == 8
  {
    NeighborsInRing(c, height, width);
    assert Neighbors(c, height, width) == Ring(c);
    RingHasEight(c);
  }

  /** The top-left corner of a grid of at least 2 by 2 has exactly 3 neighbours. */
  lemma CornerHasThreeNeighbors(height: int, width: int)
    requires height >= 2 && width >= 2
    ensures Neighbors((0, 0), height, width) == {(0, 1), (1, 0), (1, 1)}
    ensures |Neighbors((0, 0), height, width)| == 3
  {
    var expected: set<Cell> := {(0, 1), (1, 0), (1, 1)};
    forall p | p in Neighbors((0, 0), height, width) ensures p in expected {
      assert 0 <= p.0 <= 1 && 0 <= p.1 <= 1;
    }
    assert Neighbors((0, 0), height, width) == expected;
  }

  /** An interior cell of the default 8-by-8 board, e.g. (3, 3), has 8 neighbours. */
  lemma DefaultBoardInteriorExample()
    ensures |Neighbors((3, 3), 8, 8)| == 8
  {
    InteriorHasEightNeighbors((3, 3), 8, 8);
  }

  lemma SubsetCard<T>(a: set<T>, b: set<T>)
    requires a <= b
    ensures |a| <= |b|
  {
    assert b == a + (b - a);
  }
}
