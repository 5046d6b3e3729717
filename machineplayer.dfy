/** The `MachinePlayer` class: a colour, a search depth and the player's
    own `GameBoard`, with the two game-tree searches proved equal to the
    functions of module `Search` and the move-recording operations proved
    to apply exactly the legal moves. */
module Machine {
  import opened Types
  import opened Rules
  import opened BoardInvariant
  import opened MoveGen
  import opened Search
  import opened Board

  /** SEARCHDEPTH, the depth of the one-argument constructor. */
  const SEARCHDEPTH: nat := 2

  /** Making the i-th listed move and undoing it gives back the position. */
  lemma Restore(s: BoardState, p: int, i: int)
    requires ValidState(s) && IsColor(p) && 0 <= i < |ListMoves(s, p)|
    ensures CanUndo(ListMoves(s, p)[i]) && Undo(Make(s, ListMoves(s, p)[i], p), ListMoves(s, p)[i]) == s
  {
    var m := ListMoves(s, p)[i];
    ListMovesExact(s, p, m);
    if i > 0 {
      assert m in ListMoves(s, p)[1..];
    }
    UndoAfterMake(s, m, p);
  }

  class MachinePlayer {
    const board: GameBoard
    /** 0 for Black, 1 for White; the board is kept from colour + 1's side. */
    const color: int
    const searchDepth: nat

    /** The board is a legal position seen from this player's colour. */
    ghost predicate Valid()
      reads this, board, board.board
    {
      (color == 0 || color == 1) && board.myColor == color + 1 && board.Valid()
    }

    /** MachinePlayer(color). */
    constructor(color: int)
      ensures this.color == color && searchDepth == SEARCHDEPTH
      ensures board.Shape() && board.P() == Initial(color + 1)
      ensures (color == 0 || color == 1) ==> Valid()
    {
      board := new GameBoard(color + 1);
      this.color := color;
      searchDepth := SEARCHDEPTH;
    }

    /** MachinePlayer(color, searchDepth). */
    constructor WithDepth(color: int, searchDepth: nat)
      ensures this.color == color && this.searchDepth == searchDepth
      ensures board.Shape() && board.P() == Initial(color + 1)
      ensures (color == 0 || color == 1) ==> Valid()
    {
      board := new GameBoard(color + 1);
      this.color := color;
      this.searchDepth := searchDepth;
    }

    /** The test both searches start with: remaining depth 0 or a network
        on the board. */
    method Stop(depth: nat) returns (stop: bool)
      requires Valid()
      ensures stop == Terminal(board.P(), color, depth)
    {
      stop := depth == 0;
      if !stop {
        stop := board.HasValidNetwork(color + 1);
      }
      if !stop {
        stop := board.HasValidNetwork(2 - color);
      }
    }

    /** bestMove(depth, side, alpha, beta): alpha-beta search from the
        current board, which it leaves as it found it. */
    method BestMove(depth: nat, side: bool, alpha: int, beta: int) returns (best: Choice)
      requires Valid()
      modifies board, board.board
      ensures Valid() && board.P() == old(board.P())
      ensures best == AlphaBeta(old(board.P()), color, searchDepth, depth, side, alpha, beta)
      decreases depth, 2
    {
      ghost var s := board.P();
      GameTreeWellFormed(s, color, searchDepth, depth, side);
      ghost var t := GameTree(s, color, searchDepth, depth, side);
      var stop := Stop(depth);
      if stop {
        var score := board.EvalBoard(searchDepth - depth);
        return Choice(Quit, score);
      }
      GameTreeNode(s, color, searchDepth, depth, side);
      var player := if side then color else 1 - color;
      var score := if side then alpha else beta;
      var moves := board.ListMoves(player + 1);
      best := Choice(moves[0], score);
      var a, b := alpha, beta;
      var i := 0;
      while i < |moves|
        invariant 0 <= i <= |moves| && board.Valid() && board.P() == s
        invariant ABLoop(t, i, a, b, best) == AB(t, alpha, beta)
      {
        ghost var before, a0, b0 := best, a, b;
        var reply := TryBest(t, moves[i], i, depth, side, a, b);
        if side && reply.score > best.score {
          best := Choice(moves[i], reply.score);
          a := reply.score;
        } else if !side && reply.score < best.score {
          best := Choice(moves[i], reply.score);
          b := reply.score;
        }
        ABLoopNext(t, i, a0, b0, before, reply, a, b, best);
        if a >= b {
          return best;
        }
        i := i + 1;
      }
    }

    /** minimaxBestMove(depth, side): the full minimax search. */
    method MinimaxBestMove(depth: nat, side: bool) returns (best: Choice)
      requires Valid()
      modifies board, board.board
      ensures Valid() && board.P() == old(board.P())
      ensures best == Minimax(old(board.P()), color, searchDepth, depth, side)
      decreases depth, 2
    {
      ghost var s := board.P();
      GameTreeWellFormed(s, color, searchDepth, depth, side);
      ghost var t := GameTree(s, color, searchDepth, depth, side);
      var stop := Stop(depth);
      if stop {
        var score := board.EvalBoard(searchDepth - depth);
        return Choice(Quit, score);
      }
      GameTreeNode(s, color, searchDepth, depth, side);
      var player := if side then color else 1 - color;
      var score := if side then MINBOARDSCORE else MAXBOARDSCORE;
      var moves := board.ListMoves(player + 1);
      best := Choice(moves[0], score);
      var i := 0;
      while i < |moves|
        invariant 0 <= i <= |moves| && board.Valid() && board.P() == s
        invariant MMLoop(t, i, best) == MM(t)
      {
        ghost var before := best;
        var reply := TryMinimax(t, moves[i], i, depth, side);
        if (side && reply.score > best.score) || (!side && reply.score < best.score) {
          best := Choice(moves[i], reply.score);
        }
        MMLoopNext(t, i, before, reply, best);
        i := i + 1;
      }
    }

    /** One pass of bestMove's loop over the node t of the current board:
        make its i-th move m, search the reply one level down, undo m. */
    method TryBest(ghost t: Tree, m: Move, i: nat, depth: nat, side: bool, alpha: int, beta: int)
      returns (reply: Choice)
      requires Valid() && !Terminal(board.P(), color, depth)
      requires t == GameTree(board.P(), color, searchDepth, depth, side)
      requires t.Node? && WellFormed(t) && i < |t.kids| && i < |t.moves| && m == t.moves[i]
      modifies board, board.board
      ensures Valid() && board.P() == old(board.P())
      ensures reply == AB(t.kids[i], alpha, beta)
      decreases depth, 1
    {
      ghost var s := board.P();
      var p := if side then color + 1 else 2 - color;
      GameTreeNode(s, color, searchDepth, depth, side);
      assert m == ListMoves(s, p)[i];
      Restore(s, p, i);
      GameTreeKid(s, color, searchDepth, depth, side, i);
      reply := PlayBest(m, p, depth, side, alpha, beta);
    }

    /** Make m for p, search one level down, undo m. */
    method PlayBest(m: Move, p: int, depth: nat, side: bool, alpha: int, beta: int) returns (reply: Choice)
      requires Valid() && IsColor(p) && depth > 0
      requires CanUndo(m) && Undo(Make(board.P(), m, p), m) == board.P()
      modifies board, board.board
      ensures Valid() && board.P() == old(board.P())
      ensures reply == AlphaBeta(Make(old(board.P()), m, p), color, searchDepth, depth - 1, !side, alpha, beta)
      decreases depth, 0
    {
      ghost var s := board.P();
      board.MakeMove(m, p);
      reply := BestMove(depth - 1, !side, alpha, beta);
      assert reply == AlphaBeta(Make(s, m, p), color, searchDepth, depth - 1, !side, alpha, beta);
      board.UndoMove(m);
    }

    /** One pass of minimaxBestMove's loop. */
    method TryMinimax(ghost t: Tree, m: Move, i: nat, depth: nat, side: bool) returns (reply: Choice)
      requires Valid() && !Terminal(board.P(), color, depth)
      requires t == GameTree(board.P(), color, searchDepth, depth, side)
      requires t.Node? && WellFormed(t) && i < |t.kids| && i < |t.moves| && m == t.moves[i]
      modifies board, board.board
      ensures Valid() && board.P() == old(board.P())
      ensures reply == MM(t.kids[i])
      decreases depth, 1
    {
      ghost var s := board.P();
      var p := if side then color + 1 else 2 - color;
      GameTreeNode(s, color, searchDepth, depth, side);
      assert m == ListMoves(s, p)[i];
      Restore(s, p, i);
      GameTreeKid(s, color, searchDepth, depth, side, i);
      reply := PlayMinimax(m, p, depth, side);
    }

    /** Make m for p, search one level down, undo m. */
    method PlayMinimax(m: Move, p: int, depth: nat, side: bool) returns (reply: Choice)
      requires Valid() && IsColor(p) && depth > 0
      requires CanUndo(m) && Undo(Make(board.P(), m, p), m) == board.P()
      modifies board, board.board
      ensures Valid() && board.P() == old(board.P())
      ensures reply == Minimax(Make(old(board.P()), m, p), color, searchDepth, depth - 1, !side)
      decreases depth, 0
    {
      ghost var s := board.P();
      board.MakeMove(m, p);
      reply := MinimaxBestMove(depth - 1, !side);
      assert reply == Minimax(Make(s, m, p), color, searchDepth, depth - 1, !side);
      board.UndoMove(m);
    }

    /** chooseMove(): search with the full window and play the move found,
        which is Quit or a legal move, and (for search depths up to 220) the
        move minimaxBestMove would choose, so an optimal one and the first
        optimal one listed (Search.RootChoiceBest). */
    method ChooseMove() returns (m: Move)
      requires Valid()
      modifies board, board.board
      ensures Valid()
      ensures m == AlphaBeta(old(board.P()), color, searchDepth, searchDepth, true, MINBOARDSCORE, MAXBOARDSCORE).move
      ensures m == Quit || ValidMove(old(board.P()), m, color + 1)
      ensures board.P() == Make(old(board.P()), m, color + 1)
      ensures m == Quit ==> board.P() == old(board.P())
      ensures searchDepth <= 2 * MAXBOARDSCORE ==>
        m == Minimax(old(board.P()), color, searchDepth, searchDepth, true).move
    {
      if searchDepth <= 2 * MAXBOARDSCORE {
        AlphaBetaIsMinimax(board.P(), color, searchDepth, true);
      }
      AlphaBetaMoveLegal(board.P(), color, searchDepth, searchDepth, true, MINBOARDSCORE, MAXBOARDSCORE);
      var best := BestMove(searchDepth, true, MINBOARDSCORE, MAXBOARDSCORE);
      ValidMoveRejects(board.P(), best.move, color + 1);
      board.MakeMove(best.move, color + 1);
      return best.move;
    }

    /** opponentMove(m): record m for the opponent if it is legal. */
    method OpponentMove(m: Move) returns (ok: bool)
      requires Valid()
      modifies board, board.board
      ensures Valid()
      ensures ok == ValidMove(old(board.P()), m, 2 - color)
      ensures board.P() == if ok then Place(old(board.P()), m, 2 - color) else old(board.P())
    {
      ok := board.IsValidMove(m, (1 - color) + 1);
      if ok {
        board.MakeMove(m, (1 - color) + 1);
      }
    }

    /** forceMove(m): record m for this player if it is legal. */
    method ForceMove(m: Move) returns (ok: bool)
      requires Valid()
      modifies board, board.board
      ensures Valid()
      ensures ok == ValidMove(old(board.P()), m, color + 1)
      ensures board.P() == if ok then Place(old(board.P()), m, color + 1) else old(board.P())
    {
      ok := board.IsValidMove(m, color + 1);
      if ok {
        board.MakeMove(m, color + 1);
      }
    }
  }
}
