/**
 * The game side that the AI is checked against: a board of mine booleans, the set
 * of mine cells it encodes, and the cells the player has flagged. Mine placement
 * is not modelled; a board and its mine set are given.
 */
module Board {
  import opened Geometry

  datatype Game = Game(height: nat, width: nat, board: seq<seq<bool>>, mines: set<Cell>, minesFound: set<Cell>)

  /** `board` has `height` rows of `width` booleans. */
  ghost predicate Shaped(g: Game) {
    |g.board| == g.height && forall i :: 0 <= i < g.height ==> |g.board[i]| == g.width
  }

  /** The board's booleans and the mine set describe the same layout. */
  ghost predicate Valid(g: Game) {
    && Shaped(g)
    && (forall i, j :: 0 <= i < g.height && 0 <= j < g.width ==> (g.board[i][j] <==> (i, j) in g.mines))
    && (forall p :: p in g.mines ==> InGrid(p, g.height, g.width))
  }

  /** Neighbours of c that the board marks as mines. */
  ghost function MinesNear(g: Game, c: Cell): set<Cell>
    requires Shaped(g)
  {
    set p | p in Neighbors(c, g.height, g.width) && g.board[p.0][p.1]
  }

  /** Board-marked neighbours already visited by the scan that reaches (i, j). */
  ghost function MinesScanned(g: Game, c: Cell, i: int, j: int): set<Cell>
    requires Shaped(g)
  {
    set p | p in MinesNear(g, c) && RowMajorBefore(p, (i, j))
  }

  /**
   * The number of mines within one row and column of c, not counting c, scanning
   * the 3-by-3 window and skipping out-of-bounds cells.
   */
  method NearbyMines(g: Game, c: Cell) returns (count: nat)
    requires Shaped(g)
    ensures count == |MinesNear(g, c)|
    ensures Valid(g) ==> count == |Neighbors(c, g.height, g.width) * g.mines|
  {
    count := 0;
    for i := c.0 - 1 to c.0 + 2
      invariant count == |MinesScanned(g, c, i, c.1 - 1)|
    {
      for j := c.1 - 1 to c.1 + 2
        invariant count == |MinesScanned(g, c, i, j)|
      {
        ScanStep(g, c, i, j);
        if (i, j) == c {
          continue;
        }
        if 0 <= i < g.height && 0 <= j < g.width {
          if g.board[i][j] {
            count := count + 1;
          }
        }
      }
      RowDone(g, c, i);
    }
    ScanDone(g, c);
    if Valid(g) {
      BoardMinesNear(g, c);
    }
  }

  /** One cell of the window: the count of scanned board-marked neighbours grows by one exactly when it is a board-marked neighbour. */
  lemma ScanStep(g: Game, c: Cell, i: int, j: int)
    requires Shaped(g)
    requires c.0 - 1 <= i <= c.0 + 1 && c.1 - 1 <= j <= c.1 + 1
    ensures (i, j) != c && InGrid((i, j), g.height, g.width) && g.board[i][j] ==>
      |MinesScanned(g, c, i, j + 1)| == |MinesScanned(g, c, i, j)| + 1
    ensures !((i, j) != c && InGrid((i, j), g.height, g.width) && g.board[i][j]) ==>
      |MinesScanned(g, c, i, j + 1)| == |MinesScanned(g, c, i, j)|
  {
    ScanSet(g, c, i, j);
  }

  /** The scanned set grows by the cell (i, j) exactly when it is a board-marked neighbour. */
  lemma ScanSet(g: Game, c: Cell, i: int, j: int)
    requires Shaped(g)
    requires c.0 - 1 <= i <= c.0 + 1 && c.1 - 1 <= j <= c.1 + 1
    ensures (i, j) !in MinesScanned(g, c, i, j)
    ensures (i, j) != c && InGrid((i, j), g.height, g.width) && g.board[i][j] ==>
      MinesScanned(g, c, i, j + 1) == MinesScanned(g, c, i, j) + {(i, j)}
    ensures !((i, j) != c && InGrid((i, j), g.height, g.width) && g.board[i][j]) ==>
      MinesScanned(g, c, i, j + 1) == MinesScanned(g, c, i, j)
  {
  }

  /** The end of one window row is the start of the next. */
  lemma RowDone(g: Game, c: Cell, i: int)
    requires Shaped(g)
    ensures MinesScanned(g, c, i, c.1 + 2) == MinesScanned(g, c, i + 1, c.1 - 1)
  {
  }

  /** Past the last window row every board-marked neighbour has been scanned. */
  lemma ScanDone(g: Game, c: Cell)
    requires Shaped(g)
    ensures MinesScanned(g, c, c.0 + 2, c.1 - 1) == MinesNear(g, c)
  {
  }

  /** On a valid game the board-marked neighbours are the neighbours in the mine set. */
  lemma BoardMinesNear(g: Game, c: Cell)
    requires Valid(g)
    ensures MinesNear(g, c) == Neighbors(c, g.height, g.width) * g.mines
  {
  }

  /** The player has won when the flagged cells are exactly the mines. */
  predicate Won(g: Game) {
    g.minesFound == g.mines
  }

  /**
   * With flags placed on the grid, winning means flagging exactly the cells the
   * board marks as mines.
   */
  lemma WonIffFlagsMatchBoard(g: Game)
    requires Valid(g)
    requires forall p :: p in g.minesFound ==> InGrid(p, g.height, g.width)
    ensures Won(g) <==> forall i, j :: 0 <= i < g.height && 0 <= j < g.width ==> ((i, j) in g.minesFound <==> g.board[i][j])
  {
    if forall i, j :: 0 <= i < g.height && 0 <= j < g.width ==> ((i, j) in g.minesFound <==> g.board[i][j]) {
      forall p | p in g.minesFound ensures p in g.mines {
        assert g.board[p.0][p.1];
      }
      forall p | p in g.mines ensures p in g.minesFound {
        assert g.board[p.0][p.1];
      }
    }
  }
}
