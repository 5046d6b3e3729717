# Network: the board engine and the search player, in Dafny

This project models the core of a player for the connection game *Network*,
played on an 8x8 board. It covers two classes.

- **`GameBoard`** holds the grid `board[x][y]` (0 empty, 1 black, 2 white)
  and the two `[colour, chips placed]` pairs `myPlayer` and `opponent`. It
  implements:
  - the legality rules: `isValidMove`, `checkMoveRequirements`,
    `isClustered` and `inBound`;
  - applying and reverting moves: `makeMove` and `undoMove`;
  - move enumeration: `listMoves`;
  - connections along the eight rays: `vectorSearch`, `findConnections` and
    `connectionCount`;
  - the depth-first network search: `hasValidNetwork`, `getgoalPieces`,
    `getNetwork` and `inGoal`;
  - the evaluator `evalBoard`.
- **`MachinePlayer`** holds a colour, a search depth and its own
  `GameBoard`. It runs two searches over that one shared board,
  making and undoing every move: the fail-hard alpha-beta search `bestMove`
  and the plain `minimaxBestMove`. It also has the entry points `chooseMove`,
  `opponentMove` and `forceMove`.

The model has two layers.

- **A value layer.** The whole state of a `GameBoard` is the value
  `BoardState`: the grid and the two colour/counter pairs. Each operation of
  the engine is a function of that value:
  - `Rules`: isValidMove, makeMove and undoMove;
  - `MoveGen`: listMoves;
  - `Rays`: vectorSearch, findConnections and connectionCount;
  - `Networks`: the goal pieces and the network search;
  - `Evaluation`: evalBoard;
  - `Search`: both searches, over an explicit game tree whose leaves are
    evalBoard scores.

  The properties of the game are proved as lemmas about these functions.
  - `BoardInvariant` proves the board invariant that every legal move keeps:
    corners empty, no cluster of three, counters in 0..10 and equal to the
    chips on the board. It also proves the exact round trip of makeMove
    followed by undoMove.
  - `Networks` proves that the backtracking search finds a network exactly
    when the game's definition of a winning network is met.
  - `Search` proves that alpha-beta and minimax make the same choice, move
    and score, on the full window. So the move chooseMove plays is an
    optimal one, and the first optimal one listed.
- **An imperative layer.**
  - `Board.GameBoard` is a class over an `array2<int>` with the counters as
    fields. It keeps a ghost mirror `grid` of the array. Every method
    is proved to compute its value-layer function, or to move the abstract
    state `P()` exactly as it prescribes.
  - `getNetwork` marks and unmarks an `array2<bool>` of checked chips in
    place.
  - `isClustered` really lifts the moving chip with `UndoMove` and puts it
    back with `MakeMove`. The proof shows that this leaves the board exactly
    as it was.
  - `Machine.MachinePlayer` runs both searches on its one board, making and
    undoing moves as it goes. It is proved to return exactly the
    value-layer search result and to leave the board as it found it.

Where a prose description of the rules reads differently from the code, the
model follows the code:
- **Goal lines in evalBoard.** evalBoard adds or subtracts 3 for every line
  index at least one of whose two goal squares holds a chip of the colour,
  3 once even when both do (player/GameBoard.java:241-258). It does not
  score once per goal edge.
- **Quit as the fallback move.** The search keeps Quit, the first listed
  move, unless some move is strictly better
  (player/MachinePlayer.java:95, 140-148).
- **The Add guard.** The guard tests the chip count `== 10`
  (player/GameBoard.java:55). The board invariant makes this the same as
  `>= 10`.

Nothing here is executed. Console output, the referee and the `main`
drivers are outside the model.

## Model

| member | source | states |
|---|---|---|
| Board.GameBoard.constructor | player/GameBoard.java:28-33 | A new board is empty, with the given colour for the owner, the other colour (3 - c) for the opponent and both counters 0; for colour 1 or 2 it satisfies the board invariant |
| BoardInvariant.InitialValid | player/GameBoard.java:28-33 | The empty board with zero counters satisfies the invariant: corners empty, no clusters, counters equal to the chips on the board |
| Board.GameBoard.IsValidMove | player/GameBoard.java:53-79 | Returns exactly whether the move is legal for the colour, and leaves grid and both counters as they were, although the Step branch lifts and re-adds a chip on the way |
| BoardInvariant.ValidMoveRejects | player/GameBoard.java:53-118 | On a legal board, a move is rejected if it is: Quit; an Add when the mover has placed 10; a Step before that, from a square without the mover's chip, or onto its own square; or any move whose destination is off the board, a corner, the mover's forbidden edge or occupied |
| Board.GameBoard.CheckMoveRequirements | player/GameBoard.java:105-129 | Returns exactly the corner, forbidden-edge, empty-square and cluster tests of the destination and the mover's chips around it; the board is unchanged |
| Board.GameBoard.SquareClustered | player/GameBoard.java:121-125 | One square of the 3x3 scan: reports a cluster exactly when the square is the destination or the mover's chip and isClustered holds there |
| Board.GameBoard.IsClustered | player/GameBoard.java:140-164 | For an Add, more than one chip of the colour in the 3x3 box; for a Step, the same judged with the moving chip lifted off; never for Quit; the board and counters are restored afterwards |
| BoardInvariant.PartialCount | player/GameBoard.java:143-153 | The count reached part-way through the box scan never exceeds the full box count, so the early `return true` agrees with counting all nine squares |
| BoardInvariant.ReAdd | player/GameBoard.java:155-162 | On a legal board where the mover has placed all ten chips, re-adding a lifted chip is a legal Add and gives back exactly the board it was lifted from |
| BoardInvariant.LiftKeepsValid | player/GameBoard.java:155-158 | Lifting one of the mover's chips off a legal board (undoMove of an Add) leaves a legal board |
| BoardInvariant.CornersEmpty | player/GameBoard.java:106-108 | On a legal board the four corners are empty |
| BoardInvariant.NoTriple | player/GameBoard.java:42-43 | On a legal board no chip touches two other chips of its colour, so no group of three is ever formed |
| BoardInvariant.AddKeepsNoCluster | player/GameBoard.java:119-154 | An accepted Add leaves every chip of either colour with at most one neighbour of its colour |
| BoardInvariant.StepKeepsNoCluster | player/GameBoard.java:119-164 | An accepted Step leaves every chip of either colour with at most one neighbour of its colour |
| BoardInvariant.PlaceKeepsValid | player/GameBoard.java:295-308 | Applying an accepted move keeps the invariant: corners empty, no clusters, counters in 0..10 and equal to the chips on the board |
| BoardInvariant.MakeKeepsValid | player/GameBoard.java:295-308 | makeMove keeps the board legal whether it accepts the move or not |
| BoardInvariant.MakeEffect | player/GameBoard.java:295-308 | A rejected move changes nothing; an accepted Add puts the mover's chip on its square and adds one to the mover's counter only; an accepted Step moves the chip and keeps both counters; no counter passes 10 |
| Board.GameBoard.MakeMove | player/GameBoard.java:295-308 | Moves the board to the makeMove state of the rules and keeps it legal |
| Board.GameBoard.UndoMove | player/GameBoard.java:316-328 | An Add clears its square and decrements the counter of the colour found there; a Step moves the chip back; Quit changes nothing |
| BoardInvariant.UndoAfterPlace | player/GameBoard.java:295-328 | undoMove right after an accepted makeMove restores the grid and both counters exactly |
| BoardInvariant.UndoAfterMake | player/GameBoard.java:295-328 | The same round trip for every move the search makes: Quit or a legal move |
| Board.GameBoard.ListMoves | player/GameBoard.java:339-369 | Returns the rules' move list and leaves the board as it was |
| Board.GameBoard.ListAdds | player/GameBoard.java:344-351 | The two Add loops append exactly the legal Adds in scan order |
| Board.GameBoard.ListSteps | player/GameBoard.java:353-364 | The four Step loops append exactly the legal Steps in scan order |
| MoveGen.ListMovesExact | player/GameBoard.java:339-369 | The list starts with Quit, and a move follows it exactly when isValidMove accepts it |
| MoveGen.ListMovesKinds | player/GameBoard.java:343-365 | While the mover has placed fewer than ten chips only Adds are listed, afterwards only Steps |
| MoveGen.ListMovesIncreasing | player/GameBoard.java:344-363 | The list is in scan order (x, y), resp. (x1, y1, x2, y2), and holds no move twice |
| MoveGen.AddsFromMember | player/GameBoard.java:344-351 | The Add loops from scan index t on list exactly the legal on-board Adds at or after t |
| MoveGen.StepsFromMember | player/GameBoard.java:353-364 | The Step loops from scan index t on list exactly the legal on-board Steps at or after t |
| MoveGen.AddsFromIncreasing | player/GameBoard.java:344-351 | The Adds are listed with strictly increasing scan index |
| MoveGen.StepsFromIncreasing | player/GameBoard.java:353-364 | The Steps are listed with strictly increasing scan index |
| MoveGen.AddsFromStep | player/GameBoard.java:346-349 | One pass of the Add loops appends the move at that scan index exactly when it is legal |
| MoveGen.StepsFromStep | player/GameBoard.java:357-360 | One pass of the Step loops appends the move at that scan index exactly when it is legal |
| Board.GameBoard.VectorSearch | player/GameBoard.java:206-216 | Returns the recursive ray walk: the first occupied square along the direction if it has the origin's colour, otherwise nothing |
| Rays.WalkFound | player/GameBoard.java:207-213 | A walk that finds a square finds the n-th square of the ray, after n empty squares, holding the origin's colour |
| Rays.WalkReach | player/GameBoard.java:207-213 | Conversely, a ray whose first n squares are empty and whose n-th holds the colour yields that square |
| Rays.RayShape | player/GameBoard.java:206-216 | What vectorSearch finds is on the board, differs from the origin, and holds the origin's non-empty colour |
| Rays.RayBack | player/GameBoard.java:206-216 | Searching back along the opposite direction from what vectorSearch found finds the origin |
| Board.GameBoard.FindConnections | player/GameBoard.java:178-190 | Returns eight entries, entry k the connection along direction k in the order (-1,-1), (-1,0), ..., (1,1) |
| Board.DirIndexDir | player/GameBoard.java:181-186 | The loop's running index is the index of direction (i, j) in that order |
| Rays.ConnShape | player/GameBoard.java:178-190 | A connection is a different on-board square holding the origin's non-empty colour |
| Rays.ConnBack | player/GameBoard.java:178-216 | The connection along direction k sees the origin back along direction 7 - k |
| Rays.ConnSymmetric | player/GameBoard.java:178-216 | a sees b along direction k exactly when b sees a along the opposite direction 7 - k |
| Board.GameBoard.ConnectionCount | player/GameBoard.java:271-287 | Returns the number of non-null connections summed over all chips of the colour |
| Rays.ConnectionCountBound | player/GameBoard.java:271-287 | connectionCount(p) is at most eight times the number of p's chips |
| Rays.CountSomeBound | player/GameBoard.java:278-282 | A chip contributes at most one count per direction |
| Rays.GridConnsBound | player/GameBoard.java:274-285 | The rows scanned so far contribute at most eight counts per chip in them |
| Board.GameBoard.GetGoalPieces | player/GameBoard.java:422-436 | Returns the colour's goal pieces on goal line 0 or 7, in scan order |
| Networks.GoalPiecesMember | player/GameBoard.java:422-436 | A square is a goal piece exactly when it holds the colour and lies in that goal area, corners excluded |
| Networks.GoalFromMember | player/GameBoard.java:424-434 | The loop from index i on collects exactly the colour's chips at indices i..6 of the goal line |
| Networks.GoalFromStep | player/GameBoard.java:425-433 | One pass of the loop appends the chip at index i if it is the colour's |
| Board.GameBoard.InGoal | player/GameBoard.java:494-503 | Returns exactly whether (x, y) is among the listed pieces |
| Board.GameBoard.GetNetwork | player/GameBoard.java:456-483 | Returns the recursive search result. When it fails, the path is as it was on entry and the checked squares are the old ones plus the current square, unless that square is in the end goal |
| Networks.GetNetworkCorrect | player/GameBoard.java:456-483 | getNetwork succeeds exactly when the path so far can be completed: distinct unvisited connected chips, turning at every chip, none in the start goal, ending in the end goal with at least six chips in all |
| Networks.GetNetworkSound | player/GameBoard.java:456-483 | Every success of getNetwork comes with such a completion |
| Networks.GetNetworkComplete | player/GameBoard.java:456-483 | Every such completion makes getNetwork succeed, whatever was explored first |
| Networks.ScanSound | player/GameBoard.java:467-481 | A success of the connection loop from index i on comes with a completion through some later connection |
| Networks.ScanReaches | player/GameBoard.java:467-481 | The loop reaches every admissible connection d >= i, so it succeeds when the search from connection d does |
| Networks.CompletionShrink | player/GameBoard.java:464-478 | A completion that avoids the checked squares also avoids any subset of them, which is what unmarking a square on backtracking relies on |
| Networks.CompletionVisitedStart | player/GameBoard.java:397-409 | Start-goal squares left marked by earlier starts never change the outcome, since paths never re-enter the start goal |
| Networks.TryStartsSound | player/GameBoard.java:397-409 | When the loop over start pieces succeeds, some start piece has a completion from an empty checked set |
| Networks.TryStartsComplete | player/GameBoard.java:397-409 | If some start piece has a completion, the loop over start pieces succeeds |
| Board.GameBoard.HasValidNetwork | player/GameBoard.java:391-411 | Returns the network search result for the colour |
| Networks.HasValidNetworkCorrect | player/GameBoard.java:375-411 | hasValidNetwork(p) holds exactly when p has a network. A network is at least six distinct chips of p from goal line 0 to goal line 7, each connected to the next, with no two consecutive segments in the same direction and no inner chip in either goal |
| Networks.NetworkFromCompletion | player/GameBoard.java:375-381 | A completion found from a start piece is such a network |
| Networks.CompletionFromNetwork | player/GameBoard.java:375-381 | Every such network is a completion from its first chip |
| Networks.ChainColour | player/GameBoard.java:375-379 | Every chip of a chain of connections has the colour of its first chip |
| Networks.NoNetworkForOthers | player/GameBoard.java:383-384 | A value other than Black or White never has a network |
| Board.GameBoard.EvalBoard | player/GameBoard.java:234-262 | Returns the evalBoard value of the board |
| Evaluation.EvalBoardBound | player/GameBoard.java:219-233 | On a legal board and for 0..220 moves made, the score lies within -110..110 |
| Evaluation.EvalBoardPrefersEarlyWins | player/GameBoard.java:227-239 | A win found after fewer moves scores strictly higher; a loss found after more moves scores strictly higher; otherwise the moves made do not matter |
| Evaluation.EvalBoardWinBeatsHeuristic | player/GameBoard.java:227-261 | Within twelve moves a win outscores every legal board without a network, which outscores every loss |
| Evaluation.HeuristicBound | player/GameBoard.java:241-261 | Without networks a legal board scores within -98..98 |
| Evaluation.BlackGoalRange | player/GameBoard.java:241-249 | The Black goal-line term counts 3 per line index, sign by owner colour, only the six non-corner indices can score |
| Evaluation.WhiteGoalRange | player/GameBoard.java:250-258 | The same for the White goal lines |
| Evaluation.GoalScoresSwap | player/GameBoard.java:241-258 | Seen from the other colour, both goal-line terms change sign |
| Evaluation.EvalBoardSwap | player/GameBoard.java:234-262 | evalBoard is zero-sum: seen from the other colour, a board where not both have a network scores the negation |
| Machine.MachinePlayer.constructor | player/MachinePlayer.java:20-24 | A new player has the given colour, search depth 2 and an empty board of colour + 1; for colour 0 or 1 the board is legal |
| Machine.MachinePlayer.WithDepth | player/MachinePlayer.java:28-32 | The same with the given search depth |
| Machine.MachinePlayer.ChooseMove | player/MachinePlayer.java:36-40 | Plays and returns the move of the full-window alpha-beta search; it is Quit or legal for colour + 1, the board becomes makeMove of it, and it is unchanged when the move is Quit; for search depths up to 220 it is the move minimaxBestMove chooses |
| Machine.MachinePlayer.OpponentMove | player/MachinePlayer.java:47-53 | Returns true exactly when the move is legal for 2 - colour; applies it then; leaves the board unchanged otherwise |
| Machine.MachinePlayer.ForceMove | player/MachinePlayer.java:60-66 | Returns true exactly when the move is legal for colour + 1; applies it then; leaves the board unchanged otherwise |
| Machine.MachinePlayer.Stop | player/MachinePlayer.java:122 | The search stops exactly at depth 0 or when either colour has a network |
| Machine.MachinePlayer.MinimaxBestMove | player/MachinePlayer.java:79-106 | Returns the minimax choice of the game tree from the current board and leaves the board as it found it |
| Machine.MachinePlayer.BestMove | player/MachinePlayer.java:119-154 | Returns the alpha-beta choice of the game tree for the window and leaves the board as it found it |
| Machine.MachinePlayer.TryBest | player/MachinePlayer.java:137-139 | Move i of a node: the reply is the alpha-beta value of subtree i, and the board is restored |
| Machine.MachinePlayer.PlayBest | player/MachinePlayer.java:137-139 | makeMove, the search one level down, undoMove: the reply is the search of the board after the move, and the board is restored |
| Machine.MachinePlayer.TryMinimax | player/MachinePlayer.java:97-99 | Move i of a node: the reply is the minimax value of subtree i, and the board is restored |
| Machine.MachinePlayer.PlayMinimax | player/MachinePlayer.java:97-99 | makeMove, the search one level down, undoMove: the reply is the search of the board after the move, and the board is restored |
| Machine.Restore | player/MachinePlayer.java:97-99 | Making the i-th listed move and undoing it gives back the position |
| Search.ABLoopNext | player/MachinePlayer.java:140-151 | One pass of bestMove's loop: a strictly better reply updates the best move and alpha (machine) or beta (human); the loop returns once alpha >= beta |
| Search.MMLoopNext | player/MachinePlayer.java:100-103 | One pass of minimaxBestMove's loop keeps the first strictly better reply |
| Search.GameTreeNode | player/MachinePlayer.java:126-135 | Away from the leaves the node belongs to the side to move, colour + 1 for the machine and 2 - colour for the human, with one subtree per listed move |
| Search.GameTreeKid | player/MachinePlayer.java:137-138 | Subtree i is the tree of the board after listed move i, one level down with the other side to move |
| Search.Children | player/MachinePlayer.java:136-152 | There is one subtree per listed move |
| Search.GameTreeWellFormed | player/MachinePlayer.java:134-135 | Every node of the tree has a first move to fall back on and one subtree per move |
| Search.ChildrenWellFormed | player/MachinePlayer.java:136-152 | All subtrees below a node are well formed |
| Search.GameTreeBounded | player/MachinePlayer.java:122-124 | On a legal board with search depth at most 220 every leaf scores within -110..110 |
| Search.ChildrenBounded | player/MachinePlayer.java:136-139 | The subtrees below a legal board are bounded, whatever the moves |
| Search.AlphaBetaIsMinimax | player/MachinePlayer.java:119-154 | With the full window -110..110, bestMove returns the same choice, move and score, as minimaxBestMove at the same depth and board |
| Search.FullWindowLoop | player/MachinePlayer.java:137-151 | When the window runs from the best score so far to the top of the range (machine) or from the bottom up to it (human), bestMove's loop makes exactly minimaxBestMove's choices |
| Search.MMLoopSettled | player/MachinePlayer.java:100-103 | Once the best score is the edge of the range the side to move cannot beat, minimaxBestMove's loop keeps its choice |
| Search.RootChoiceBest | player/MachinePlayer.java:36-40 | Away from the leaves, the move chooseMove's search returns has its minimax value as score, no listed move is better for the side to move, and every move listed before it is strictly worse |
| Search.ABClamp | player/MachinePlayer.java:119-154 | Inside any window within -110..110, the alpha-beta and minimax scores agree once clamped to the window |
| Search.MaxLoopClamp | player/MachinePlayer.java:140-151 | The same agreement for the machine's loop, from any move on |
| Search.MinLoopClamp | player/MachinePlayer.java:140-151 | The same agreement for the human's loop, from any move on |
| Search.AlphaBetaFailHard | player/MachinePlayer.java:127-148 | Away from the leaves, the machine's score is at least the alpha it received and the human's at most the beta |
| Search.ABLoopMonotone | player/MachinePlayer.java:140-148 | The loop's best score only improves for the side to move |
| Search.AlphaBetaMoveLegal | player/MachinePlayer.java:134-148 | bestMove returns a move listMoves lists for the side to move, so Quit or a legal move |
| Search.ABLoopListed | player/MachinePlayer.java:135-148 | The loop only ever picks listed moves |
| Search.ABBound | player/MachinePlayer.java:128-148 | On a bounded tree and window, the alpha-beta score stays within -110..110 |
| Search.MMBound | player/MachinePlayer.java:88-103 | On a bounded tree the minimax score stays within -110..110 |
| Search.MMLoopMonotone | player/MachinePlayer.java:100-103 | The minimax loop's best score only improves for the side to move |
| Search.MMLoopSpec | player/MachinePlayer.java:96-104 | The loop's result is at least as good as every later reply, and is either the initial choice or the choice of some later move |
| Search.MMOptimal | player/MachinePlayer.java:79-106 | At a node of a bounded tree, minimax returns the move of a subtree whose value is its score, and no subtree is better for the side to move |
| Search.MinimaxOptimal | player/MachinePlayer.java:79-106 | On a legal board away from the leaves, minimaxBestMove returns a listed move whose value is its score, and no listed move is better for the side to move |
| Search.MMLoopFirst | player/MachinePlayer.java:100-103 | The loop keeps its choice unless a later move is strictly better, and then returns the first move reaching the final score |
| Search.MMEarliest | player/MachinePlayer.java:95-104 | At a node of a bounded tree, every move before the chosen one is strictly worse for the side to move |
| Search.MinimaxEarliest | player/MachinePlayer.java:95-104 | minimaxBestMove keeps the first best move: every move listed before the returned one has a strictly worse value |

## Left out

- The `main` drivers of both classes, console output, and the referee
  protocol are not modelled. These are I/O with no stated outcome.
- The `list` package (`DList`, `DListNode`) is not part of this model. Move
  lists and the network path are `seq` values.
- `Move` and `Player` are not part of this model:
  - `Move` becomes a datatype `Add | Step | Quit`, and Quit's unused
    coordinates read as zero.
  - `BestMove` (player/BestMove.java:13-16) becomes a `Choice` datatype
    whose default move is Quit.
- `myPlayer[]` and `opponent[]` are two-element arrays in the source. Here
  they are a constant colour and a counter field each, since only the
  counter ever changes.
- Java `int` overflow is not modelled; all arithmetic is on unbounded
  integers. The greatest magnitude that can arise is evalBoard with the
  moves-made argument, which stays far inside 32 bits.
- Board.GameBoard.IsValidMove requires a board reached by legal moves and p
  a colour (1 or 2). On an arbitrary grid the lift-and-replace of
  isClustered may fail to re-add the chip, and the board would then not be
  restored. The source takes any board and any player value; every caller
  passes 1 or 2.
- Board.GameBoard.MakeMove requires a board reached by legal moves and p a
  colour (1 or 2), for the same reason, since it calls isValidMove.
- Board.GameBoard.ListMoves requires a board reached by legal moves and p a
  colour (1 or 2), since it calls isValidMove for every candidate move.
- Board.GameBoard.UndoMove requires the move's squares to be on the board
  (`CanUndo`); the source would throw an index exception otherwise.
- Machine.MachinePlayer.WithDepth takes the search depth as a natural
  number. A negative depth makes the source search until a network appears,
  which the model does not capture.
- Search.AlphaBetaIsMinimax is proved for search depths up to 220. This is
  what keeps every evalBoard score within -110..110, which the full-window
  equality needs.
- Machine.MachinePlayer.BestMove is not proved to return minimaxBestMove's
  move when called with a window narrower than the full range, as it is at
  the nodes below the root. There the pruned replies are only bounds, so
  only the clamped score is related (Search.ABClamp). At the full-window
  root the whole choice is equal (Search.AlphaBetaIsMinimax).
- Machine.MachinePlayer.ChooseMove is not claimed to avoid Quit when a
  legal move exists. The source keeps Quit unless a move scores strictly
  better.
- Machine.MachinePlayer.TryBest, Machine.MachinePlayer.PlayBest,
  Machine.MachinePlayer.TryMinimax and Machine.MachinePlayer.PlayMinimax
  are one pass of the loop body of bestMove and minimaxBestMove, split out
  as separate methods. The make, recurse and undo steps and their order are
  those of the source.
- Board.GameBoard.ListAdds, Board.GameBoard.ListSteps and
  Board.GameBoard.SquareClustered are the loop nests of listMoves and
  checkMoveRequirements, split out the same way.
