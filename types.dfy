/** Shared vocabulary of the Network game engine: board constants, coordinates,
    moves, the 8x8 grid value and the abstract state of a `GameBoard`. */
module Types {

  const DIMENSION: int := 8
  const EMPTY: int := 0
  const BLACK: int := 1
  const WHITE: int := 2
  const MAXBOARDSCORE: int := 110
  const MINBOARDSCORE: int := -110

  /** A square (x, y); the grid is indexed `grid[x][y]`. */
  type Coord = (int, int)

  datatype Option<T> = None | Some(value: T)

  /** The move record. In a `Step`, (x1, y1) is the destination and (x2, y2)
      the square the chip leaves. `Quit` carries no coordinates; where the
      rules read them they are the record's defaults, all zero. */
  datatype Move = Add(x1: int, y1: int) | Step(x1: int, y1: int, x2: int, y2: int) | Quit

  /** The square a move writes to: (x1, y1). */
  function Dest(m: Move): Coord
  {
    match m
    case Add(x, y) => (x, y)
    case Step(x, y, _, _) => (x, y)
    case Quit => (0, 0)
  }

  /** The square a non-Add move reads its chip from: (x2, y2). */
  function Src(m: Move): Coord
  {
    match m
    case Step(_, _, x, y) => (x, y)
    case _ => (0, 0)
  }

  predicate IsColor(p: int)
  {
    p == BLACK || p == WHITE
  }

  predicate InBound(x: int, y: int)
  {
    x >= 0 && x < DIMENSION && y >= 0 && y < DIMENSION
  }

  predicate OnBoard(c: Coord)
  {
    InBound(c.0, c.1)
  }

  /** An 8x8 grid of cell values (0 empty, 1 black, 2 white). */
  type Grid = g: seq<seq<int>> | |g| == DIMENSION && forall i | 0 <= i < DIMENSION :: |g[i]| == DIMENSION
    witness seq(8, i => seq(8, j => 0))

  function EmptyGrid(): Grid
  {
    seq(8, i => seq(8, j => EMPTY))
  }

  function At(g: Grid, c: Coord): int
    requires OnBoard(c)
  {
    g[c.0][c.1]
  }

  /** The grid with square `c` set to `v`. */
  function Put(g: Grid, c: Coord, v: int): (r: Grid)
    requires OnBoard(c)
    ensures forall i, j | InBound(i, j) :: r[i][j] == if (i, j) == c then v else g[i][j]
  {
    g[c.0 := g[c.0][c.1 := v]]
  }

  /** Two grids that agree on every square are equal. */
  lemma GridExt(g1: Grid, g2: Grid)
    requires forall i, j | InBound(i, j) :: g1[i][j] == g2[i][j]
    ensures g1 == g2
  {
    forall i | 0 <= i < DIMENSION
      ensures g1[i] == g2[i]
    {
      assert forall j | 0 <= j < DIMENSION :: g1[i][j] == g2[i][j];
    }
  }

  /** The whole state of a `GameBoard`: the grid and the two
      [colour, chips placed] pairs of the machine player and its opponent. */
  datatype BoardState = BoardState(grid: Grid, myColor: int, myCount: int, oppColor: int, oppCount: int)
}
