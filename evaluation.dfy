/** evalBoard of `GameBoard` as a function of the board state, with its
    range and the preference it expresses for early wins and late losses. */
module Evaluation {
  import opened Types
  import opened Rules
  import opened Rays
  import opened Networks

  /** What one goal line adds: +3 when it holds a chip of the colour the
      line is for and the machine plays that colour, -3 when the machine
      plays the other colour. */
  function GoalMark(hit: bool, mine: bool): int
  {
    if !hit then 0 else if mine then 3 else -3
  }

  /** The first loop of evalBoard over i < n: Black chips in (i, 0) or (i, 7). */
  function BlackGoalScore(g: Grid, myColor: int, n: nat): int
    requires n <= DIMENSION
  {
    if n == 0 then 0
    else BlackGoalScore(g, myColor, n - 1) +
         GoalMark(g[n - 1][0] == BLACK || g[n - 1][DIMENSION - 1] == BLACK, myColor == BLACK)
  }

  /** The second loop of evalBoard over i < n: White chips in (0, i) or (7, i). */
  function WhiteGoalScore(g: Grid, myColor: int, n: nat): int
    requires n <= DIMENSION
  {
    if n == 0 then 0
    else WhiteGoalScore(g, myColor, n - 1) +
         GoalMark(g[0][n - 1] == WHITE || g[DIMENSION - 1][n - 1] == WHITE, myColor == WHITE)
  }

  /** The score of a board on which nobody has a network. */
  function Heuristic(s: BoardState): int
  {
    BlackGoalScore(s.grid, s.myColor, DIMENSION) + WhiteGoalScore(s.grid, s.myColor, DIMENSION) +
    ConnectionCount(s.grid, s.myColor) - ConnectionCount(s.grid, s.oppColor)
  }

  /** evalBoard(movesMade). */
  function EvalBoard(s: BoardState, movesMade: int): int
  {
    if HasValidNetwork(s.grid, s.myColor) then MAXBOARDSCORE - movesMade
    else if HasValidNetwork(s.grid, s.oppColor) then MINBOARDSCORE + movesMade
    else Heuristic(s)
  }

  /** The same board seen from the other player. */
  function Swap(s: BoardState): BoardState
  {
    BoardState(s.grid, s.oppColor, s.oppCount, s.myColor, s.myCount)
  }

  // ---------------------------------------------------------------------
  // Range

  /** Goal lines that can hold a chip of their colour among the first n: the corners cannot. */
  function Lines(n: nat): nat
  {
    if n <= 1 then 0 else if n >= DIMENSION then DIMENSION - 2 else n - 1
  }

  lemma {:induction false} BlackGoalRange(g: Grid, myColor: int, n: nat)
    requires n <= DIMENSION && EdgesOk(g)
    ensures myColor == BLACK ==> 0 <= BlackGoalScore(g, myColor, n) <= 3 * Lines(n)
    ensures myColor != BLACK ==> -3 * Lines(n) <= BlackGoalScore(g, myColor, n) <= 0
  {
    if n > 0 {
      BlackGoalRange(g, myColor, n - 1);
      var i := n - 1;
      if i == 0 || i == DIMENSION - 1 {
        assert g[i][0] != BLACK && g[i][DIMENSION - 1] != BLACK;
      }
    }
  }

  lemma {:induction false} WhiteGoalRange(g: Grid, myColor: int, n: nat)
    requires n <= DIMENSION && EdgesOk(g)
    ensures myColor == WHITE ==> 0 <= WhiteGoalScore(g, myColor, n) <= 3 * Lines(n)
    ensures myColor != WHITE ==> -3 * Lines(n) <= WhiteGoalScore(g, myColor, n) <= 0
  {
    if n > 0 {
      WhiteGoalRange(g, myColor, n - 1);
      var i := n - 1;
      if i == 0 || i == DIMENSION - 1 {
        assert g[0][i] != WHITE && g[DIMENSION - 1][i] != WHITE;
      }
    }
  }

  /** Without networks, a legal board scores between -98 and 98: at most 18
      from goal lines and at most 80 from connections (eight per chip). */
  lemma HeuristicBound(s: BoardState)
    requires ValidState(s)
    ensures -98 <= Heuristic(s) <= 98
  {
    BlackGoalRange(s.grid, s.myColor, DIMENSION);
    WhiteGoalRange(s.grid, s.myColor, DIMENSION);
    ConnectionCountBound(s.grid, s.myColor);
    ConnectionCountBound(s.grid, s.oppColor);
  }

  /** evalBoard stays within MINBOARDSCORE .. MAXBOARDSCORE for up to 220 moves made. */
  lemma EvalBoardBound(s: BoardState, movesMade: int)
    requires ValidState(s) && 0 <= movesMade <= 2 * MAXBOARDSCORE
    ensures MINBOARDSCORE <= EvalBoard(s, movesMade) <= MAXBOARDSCORE
  {
    HeuristicBound(s);
  }

  // ---------------------------------------------------------------------
  // Preferences

  /** A win found after fewer moves scores higher, a loss found after more moves scores higher. */
  lemma EvalBoardPrefersEarlyWins(s: BoardState, k1: int, k2: int)
    requires k1 < k2
    ensures HasValidNetwork(s.grid, s.myColor) ==> EvalBoard(s, k1) > EvalBoard(s, k2)
    ensures !HasValidNetwork(s.grid, s.myColor) && HasValidNetwork(s.grid, s.oppColor) ==>
      EvalBoard(s, k1) < EvalBoard(s, k2)
    ensures !HasValidNetwork(s.grid, s.myColor) && !HasValidNetwork(s.grid, s.oppColor) ==>
      EvalBoard(s, k1) == EvalBoard(s, k2)
  {
  }

  /** Within twelve moves a win outscores every legal board without a
      network, and that board outscores every loss. */
  lemma EvalBoardWinBeatsHeuristic(win: BoardState, quiet: BoardState, loss: BoardState, k: int, k': int, k'': int)
    requires ValidState(quiet) && 0 <= k < 12 && 0 <= k'' < 12
    requires HasValidNetwork(win.grid, win.myColor)
    requires !HasValidNetwork(quiet.grid, quiet.myColor) && !HasValidNetwork(quiet.grid, quiet.oppColor)
    requires !HasValidNetwork(loss.grid, loss.myColor) && HasValidNetwork(loss.grid, loss.oppColor)
    ensures EvalBoard(win, k) > EvalBoard(quiet, k') > EvalBoard(loss, k'')
  {
    HeuristicBound(quiet);
  }

  lemma {:induction false} GoalScoresSwap(g: Grid, myColor: int, n: nat)
    requires n <= DIMENSION && IsColor(myColor)
    ensures BlackGoalScore(g, 3 - myColor, n) == -BlackGoalScore(g, myColor, n)
    ensures WhiteGoalScore(g, 3 - myColor, n) == -WhiteGoalScore(g, myColor, n)
  {
    if n > 0 {
      GoalScoresSwap(g, myColor, n - 1);
    }
  }

  /** evalBoard is zero-sum: seen from the opponent, a board that not both
      players have won scores the negation. */
  lemma EvalBoardSwap(s: BoardState, movesMade: int)
    requires IsColor(s.myColor) && s.oppColor == 3 - s.myColor
    requires !(HasValidNetwork(s.grid, s.myColor) && HasValidNetwork(s.grid, s.oppColor))
    ensures EvalBoard(Swap(s), movesMade) == -EvalBoard(s, movesMade)
  {
    GoalScoresSwap(s.grid, s.myColor, DIMENSION);
  }
}
