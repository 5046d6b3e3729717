/** The legality rules of `GameBoard` as functions of a `BoardState`:
    isValidMove, checkMoveRequirements and isClustered, the effect of
    makeMove and undoMove, and the invariant every legal game keeps. */
module Rules {
  import opened Types

  predicate IsCorner(x: int, y: int)
  {
    (x == 0 && (y == 0 || y == DIMENSION - 1)) || (x == DIMENSION - 1 && (y == 0 || y == DIMENSION - 1))
  }

  /** The Add guard of isValidMove: the mover has placed ten chips already. */
  predicate AddBlocked(s: BoardState, p: int)
  {
    (p == s.myColor && s.myCount == 10) || (p == s.oppColor && s.oppCount == 10)
  }

  /** The Step guard of isValidMove (also the test listMoves uses to offer
      Add moves): the mover has placed fewer than ten chips. */
  predicate StepBlocked(s: BoardState, p: int)
  {
    (p == s.myColor && s.myCount < 10) || (p == s.oppColor && s.oppCount < 10)
  }

  /** The chips-placed counter that belongs to colour p. */
  function Placed(s: BoardState, p: int): int
  {
    if p == s.myColor then s.myCount else s.oppCount
  }

  // ---------------------------------------------------------------------
  // Counting a colour in the 3x3 box around a square (isClustered, Add case)

  function Hit(g: Grid, i: int, j: int, c: int): nat
  {
    if InBound(i, j) && g[i][j] == c then 1 else 0
  }

  /** Squares (i, y-1) .. (i, j-1) that are on the board and hold c. */
  function RowHits(g: Grid, i: int, y: int, c: int, j: int): nat
    decreases j - y + 1
  {
    if j <= y - 1 then 0 else RowHits(g, i, y, c, j - 1) + Hit(g, i, j - 1, c)
  }

  /** Rows x-1 .. i-1 of the 3x3 box around (x, y). */
  function BoxHits(g: Grid, x: int, y: int, c: int, i: int): nat
    decreases i - x + 1
  {
    if i <= x - 1 then 0 else BoxHits(g, x, y, c, i - 1) + RowHits(g, i - 1, y, c, y + 2)
  }

  /** On-board squares of the 3x3 box centred on (x, y), centre included, holding c. */
  function CountAround(g: Grid, x: int, y: int, c: int): nat
  {
    BoxHits(g, x, y, c, x + 2)
  }

  predicate InBox(x: int, y: int, i: int, j: int)
  {
    x - 1 <= i <= x + 1 && y - 1 <= j <= y + 1
  }

  /** isClustered for an Add move: more than one chip of c in the box. */
  predicate Clustered(g: Grid, x: int, y: int, c: int)
  {
    CountAround(g, x, y, c) > 1
  }

  /** isClustered: a Step is judged with its source square lifted off the
      board; any other kind of move is never clustered. */
  predicate IsClustered(s: BoardState, x: int, y: int, p: int, m: Move)
    requires m.Step? ==> OnBoard(Src(m))
  {
    match m
    case Add(_, _) => Clustered(s.grid, x, y, p)
    case Step(_, _, _, _) => Clustered(Put(s.grid, Src(m), EMPTY), x, y, p)
    case Quit => false
  }

  /** checkMoveRequirements: the destination is no corner, not on the
      mover's forbidden edge, empty, and neither it nor any chip of the
      mover next to it is clustered. */
  predicate MoveRequirements(s: BoardState, m: Move, p: int)
    requires OnBoard(Dest(m)) && (m.Step? ==> OnBoard(Src(m)))
  {
    var d := Dest(m);
    !IsCorner(d.0, d.1) &&
    !(p == BLACK && (d.0 == DIMENSION - 1 || d.0 == 0)) &&
    !(p == WHITE && (d.1 == 0 || d.1 == DIMENSION - 1)) &&
    At(s.grid, d) == EMPTY &&
    forall i, j | d.0 - 1 <= i <= d.0 + 1 && d.1 - 1 <= j <= d.1 + 1 :: BoxSquareOk(s, m, p, i, j)
  }

  /** The cluster test checkMoveRequirements makes at square (i, j) of the
      box around the destination: it applies to the destination itself and
      to the mover's chips, and it must fail. */
  predicate BoxSquareOk(s: BoardState, m: Move, p: int, i: int, j: int)
    requires OnBoard(Dest(m)) && (m.Step? ==> OnBoard(Src(m)))
  {
    InBound(i, j) && (s.grid[i][j] == p || (i, j) == Dest(m)) ==> !IsClustered(s, i, j, p, m)
  }

  /** isValidMove. Every move that is not an Add, Quit included, is checked
      as a Step. */
  predicate ValidMove(s: BoardState, m: Move, p: int)
  {
    if m.Add? then
      !AddBlocked(s, p) && OnBoard(Dest(m)) && MoveRequirements(s, m, p)
    else
      !StepBlocked(s, p) && OnBoard(Dest(m)) && OnBoard(Src(m)) &&
      At(s.grid, Src(m)) == p && Dest(m) != Src(m) && MoveRequirements(s, m, p)
  }

  // ---------------------------------------------------------------------
  // makeMove and undoMove

  /** What makeMove writes once the move is accepted. */
  function Place(s: BoardState, m: Move, p: int): BoardState
    requires OnBoard(Dest(m)) && (m.Step? ==> OnBoard(Src(m)))
  {
    var g := Put(s.grid, Dest(m), p);
    if m.Step? then s.(grid := Put(g, Src(m), EMPTY))
    else if s.myColor == p then s.(grid := g, myCount := s.myCount + 1)
    else s.(grid := g, oppCount := s.oppCount + 1)
  }

  /** makeMove: apply the move if it is valid, otherwise change nothing. */
  function Make(s: BoardState, m: Move, p: int): BoardState
  {
    if ValidMove(s, m, p) then Place(s, m, p) else s
  }

  /** The squares undoMove indexes are on the board. */
  predicate CanUndo(m: Move)
  {
    (m.Add? ==> OnBoard(Dest(m))) && (m.Step? ==> OnBoard(Dest(m)) && OnBoard(Src(m)))
  }

  /** undoMove: an Add clears its square and decrements the counter of the
      colour found there; a Step moves the chip back; Quit does nothing. */
  function Undo(s: BoardState, m: Move): BoardState
    requires CanUndo(m)
  {
    match m
    case Add(_, _) =>
      var s1 := if At(s.grid, Dest(m)) == s.myColor then s.(myCount := s.myCount - 1)
                else s.(oppCount := s.oppCount - 1);
      s1.(grid := Put(s.grid, Dest(m), EMPTY))
    case Step(_, _, _, _) =>
      var g := Put(s.grid, Src(m), At(s.grid, Dest(m)));
      s.(grid := Put(g, Dest(m), EMPTY))
    case Quit => s
  }

  // ---------------------------------------------------------------------
  // The invariant of boards reached by legal moves

  /** Chips of colour c in squares (i, 0) .. (i, j-1). */
  function RowChips(g: Grid, i: int, c: int, j: nat): nat
  {
    if j == 0 then 0 else RowChips(g, i, c, j - 1) + Hit(g, i, j - 1, c)
  }

  /** Chips of colour c in rows 0 .. i-1. */
  function GridChips(g: Grid, c: int, i: nat): nat
  {
    if i == 0 then 0 else GridChips(g, c, i - 1) + RowChips(g, i - 1, c, DIMENSION)
  }

  function Chips(g: Grid, c: int): nat
  {
    GridChips(g, c, DIMENSION)
  }

  predicate CellsOk(g: Grid)
  {
    forall i, j | 0 <= i < DIMENSION && 0 <= j < DIMENSION :: EMPTY <= g[i][j] <= WHITE
  }

  /** Black never stands on x = 0 or x = 7, White never on y = 0 or y = 7. */
  predicate EdgesOk(g: Grid)
  {
    forall i, j | 0 <= i < DIMENSION && 0 <= j < DIMENSION ::
      (g[i][j] == BLACK ==> i != 0 && i != DIMENSION - 1) &&
      (g[i][j] == WHITE ==> j != 0 && j != DIMENSION - 1)
  }

  /** A chip of colour c on (i, j) has at most one chip of c among its 8 neighbours. */
  predicate Uncrowded(g: Grid, c: int, i: int, j: int)
    requires 0 <= i < DIMENSION && 0 <= j < DIMENSION
  {
    g[i][j] == c ==> CountAround(g, i, j, c) <= 2
  }

  /** No chip of colour c has two or more chips of c among its 8 neighbours. */
  predicate NoCluster(g: Grid, c: int)
  {
    forall i, j | 0 <= i < DIMENSION && 0 <= j < DIMENSION :: Uncrowded(g, c, i, j)
  }

  predicate ValidState(s: BoardState)
  {
    IsColor(s.myColor) && s.oppColor == 3 - s.myColor &&
    0 <= s.myCount <= 10 && 0 <= s.oppCount <= 10 &&
    CellsOk(s.grid) && EdgesOk(s.grid) &&
    NoCluster(s.grid, BLACK) && NoCluster(s.grid, WHITE) &&
    Chips(s.grid, s.myColor) == s.myCount && Chips(s.grid, s.oppColor) == s.oppCount
  }

  /** The state the GameBoard constructor builds. */
  function Initial(playerColor: int): BoardState
  {
    BoardState(EmptyGrid(), playerColor, 0, 3 - playerColor, 0)
  }
}
