/** The game-tree searches of `MachinePlayer` as functions of the board
    state: bestMove (alpha-beta pruning) and minimaxBestMove (plain
    minimax), with the proof that pruning never changes the score.

    Both searches are written over the tree of positions they explore,
    `GameTree`: a leaf holds the evalBoard score of a position where the
    search stops, a node the moves listMoves offers and the subtree each
    of them leads to. */
module Search {
  import opened Types
  import opened Rules
  import opened BoardInvariant
  import opened Networks
  import opened Evaluation
  import opened MoveGen

  /** A BestMove: the move chosen and its score. */
  datatype Choice = Choice(move: Move, score: int)

  /** The explored game tree; `max` is true where the machine moves. */
  datatype Tree = Leaf(value: int) | Node(max: bool, moves: seq<Move>, kids: seq<Tree>)

  /** Every node offers at least one move and one subtree per move. */
  predicate WellFormed(t: Tree)
  {
    match t
    case Leaf(_) => true
    case Node(_, moves, kids) => 1 <= |moves| == |kids| && forall k | k in kids :: WellFormed(k)
  }

  /** The colour that moves on a side: the machine (side == COMPUTER, true) plays
      colour + 1, the human plays 2 - colour; colour is 0 for Black, 1 for White. */
  function Mover(color: int, side: bool): int
  {
    if side then color + 1 else 2 - color
  }

  /** The search stops at depth 0 and as soon as either player has a network. */
  predicate Terminal(s: BoardState, color: int, depth: nat)
  {
    depth == 0 || HasValidNetwork(s.grid, color + 1) || HasValidNetwork(s.grid, 2 - color)
  }

  /** The positions a search of the given depth visits from s, for a machine
      of colour `color` whose search depth is sd; a leaf at remaining depth
      `depth` is scored with sd - depth moves made. */
  function GameTree(s: BoardState, color: int, sd: int, depth: nat, side: bool): Tree
    decreases depth, 1
  {
    if Terminal(s, color, depth) then Leaf(EvalBoard(s, sd - depth))
    else
      var moves := ListMoves(s, Mover(color, side));
      Node(side, moves, Children(s, color, sd, depth - 1, side, moves))
  }

  /** The subtrees of a node whose children have remaining depth d, one per
      move: the tree of the position the move leads to. */
  function Children(s: BoardState, color: int, sd: int, d: nat, side: bool, moves: seq<Move>): (kids: seq<Tree>)
    ensures |kids| == |moves|
    decreases d + 1, 0, |moves|
  {
    if moves == [] then []
    else [GameTree(Make(s, moves[0], Mover(color, side)), color, sd, d, !side)]
         + Children(s, color, sd, d, side, moves[1..])
  }

  lemma {:induction false} GameTreeWellFormed(s: BoardState, color: int, sd: int, depth: nat, side: bool)
    ensures WellFormed(GameTree(s, color, sd, depth, side))
    decreases depth, 1
  {
    if !Terminal(s, color, depth) {
      ChildrenWellFormed(s, color, sd, depth - 1, side, ListMoves(s, Mover(color, side)));
    }
  }

  lemma {:induction false} ChildrenWellFormed(s: BoardState, color: int, sd: int, d: nat, side: bool, moves: seq<Move>)
    ensures forall k | k in Children(s, color, sd, d, side, moves) :: WellFormed(k)
    decreases d + 1, 0, |moves|
  {
    if moves != [] {
      GameTreeWellFormed(Make(s, moves[0], Mover(color, side)), color, sd, d, !side);
      ChildrenWellFormed(s, color, sd, d, side, moves[1..]);
    }
  }

  function Clamp(x: int, lo: int, hi: int): int
  {
    if x < lo then lo else if x > hi then hi else x
  }

  // ---------------------------------------------------------------------
  // bestMove

  /** bestMove on a tree: a leaf is scored as it stands (with the default
      move); a node runs the loop of bestMove, starting from its first move
      with score alpha (machine) or beta (human). */
  function AB(t: Tree, alpha: int, beta: int): Choice
    requires WellFormed(t)
    decreases t, 1, 0
  {
    match t
    case Leaf(v) => Choice(Quit, v)
    case Node(max, moves, kids) => ABLoop(t, 0, alpha, beta, Choice(moves[0], if max then alpha else beta))
  }

  /** The loop of bestMove from move i on: a better reply raises alpha
      (machine) or lowers beta (human), and the loop stops once alpha >= beta. */
  function ABLoop(t: Tree, i: nat, alpha: int, beta: int, best: Choice): Choice
    requires t.Node? && WellFormed(t)
    decreases t, 0, |t.kids| - i
  {
    if i >= |t.kids| then best
    else
      assert t.kids[i] in t.kids;
      var reply := AB(t.kids[i], alpha, beta);
      if t.max && reply.score > best.score then
        if reply.score >= beta then Choice(t.moves[i], reply.score)
        else ABLoop(t, i + 1, reply.score, beta, Choice(t.moves[i], reply.score))
      else if !t.max && reply.score < best.score then
        if alpha >= reply.score then Choice(t.moves[i], reply.score)
        else ABLoop(t, i + 1, alpha, reply.score, Choice(t.moves[i], reply.score))
      else if alpha >= beta then best
      else ABLoop(t, i + 1, alpha, beta, best)
  }

  // ---------------------------------------------------------------------
  // minimaxBestMove

  /** minimaxBestMove on a tree: a node starts from its first move with
      score MINBOARDSCORE (machine) or MAXBOARDSCORE (human). */
  function MM(t: Tree): Choice
    requires WellFormed(t)
    decreases t, 1, 0
  {
    match t
    case Leaf(v) => Choice(Quit, v)
    case Node(max, moves, kids) => MMLoop(t, 0, Choice(moves[0], if max then MINBOARDSCORE else MAXBOARDSCORE))
  }

  /** The loop of minimaxBestMove from move i on: keep the first strictly better reply. */
  function MMLoop(t: Tree, i: nat, best: Choice): Choice
    requires t.Node? && WellFormed(t)
    decreases t, 0, |t.kids| - i
  {
    if i >= |t.kids| then best
    else
      assert t.kids[i] in t.kids;
      var reply := MM(t.kids[i]);
      var best' := if (t.max && reply.score > best.score) || (!t.max && reply.score < best.score)
                   then Choice(t.moves[i], reply.score) else best;
      MMLoop(t, i + 1, best')
  }

  /** One pass of bestMove's loop: the reply to move i updates the best
      choice and the window; the loop stops once the window closes. */
  lemma ABLoopNext(t: Tree, i: nat, alpha: int, beta: int, before: Choice, reply: Choice,
                   a: int, b: int, best: Choice)
    requires t.Node? && WellFormed(t) && i < |t.kids| && i < |t.moves|
    requires reply == AB(t.kids[i], alpha, beta)
    requires (a, b, best) ==
      if t.max && reply.score > before.score then (reply.score, beta, Choice(t.moves[i], reply.score))
      else if !t.max && reply.score < before.score then (alpha, reply.score, Choice(t.moves[i], reply.score))
      else (alpha, beta, before)
    ensures a >= b ==> ABLoop(t, i, alpha, beta, before) == best
    ensures a < b ==> ABLoop(t, i, alpha, beta, before) == ABLoop(t, i + 1, a, b, best)
  {
  }

  /** One pass of minimaxBestMove's loop. */
  lemma MMLoopNext(t: Tree, i: nat, before: Choice, reply: Choice, best: Choice)
    requires t.Node? && WellFormed(t) && i < |t.kids| && i < |t.moves|
    requires reply == MM(t.kids[i])
    requires best == if (t.max && reply.score > before.score) || (!t.max && reply.score < before.score)
                     then Choice(t.moves[i], reply.score) else before
    ensures MMLoop(t, i, before) == MMLoop(t, i + 1, best)
  {
  }

  /** bestMove(depth, side, alpha, beta) on board s. */
  function AlphaBeta(s: BoardState, color: int, sd: int, depth: nat, side: bool, alpha: int, beta: int): Choice
  {
    GameTreeWellFormed(s, color, sd, depth, side);
    AB(GameTree(s, color, sd, depth, side), alpha, beta)
  }

  /** minimaxBestMove(depth, side) on board s. */
  function Minimax(s: BoardState, color: int, sd: int, depth: nat, side: bool): Choice
  {
    GameTreeWellFormed(s, color, sd, depth, side);
    MM(GameTree(s, color, sd, depth, side))
  }

  // ---------------------------------------------------------------------
  // Pruning does not change the score

  lemma {:induction false} MMLoopMonotone(t: Tree, i: nat, best: Choice)
    requires t.Node? && WellFormed(t)
    ensures t.max ==> MMLoop(t, i, best).score >= best.score
    ensures !t.max ==> MMLoop(t, i, best).score <= best.score
    decreases |t.kids| - i
  {
    if i < |t.kids| {
      assert t.kids[i] in t.kids;
      var reply := MM(t.kids[i]);
      var best' := if (t.max && reply.score > best.score) || (!t.max && reply.score < best.score)
                   then Choice(t.moves[i], reply.score) else best;
      MMLoopMonotone(t, i + 1, best');
    }
  }

  /** Inside any window within the score range, bestMove and minimaxBestMove
      agree once clamped to the window: the alpha-beta score is exact when
      the minimax score lies strictly inside, and on the same side of the
      window otherwise. */
  lemma {:induction false} ABClamp(t: Tree, alpha: int, beta: int)
    requires WellFormed(t) && MINBOARDSCORE <= alpha < beta <= MAXBOARDSCORE
    ensures Clamp(AB(t, alpha, beta).score, alpha, beta) == Clamp(MM(t).score, alpha, beta)
    decreases t, 1, 0
  {
    if t.Node? {
      if t.max {
        MaxLoopClamp(t, 0, alpha, alpha, beta, Choice(t.moves[0], alpha), Choice(t.moves[0], MINBOARDSCORE));
      } else {
        MinLoopClamp(t, 0, alpha, beta, beta, Choice(t.moves[0], beta), Choice(t.moves[0], MAXBOARDSCORE));
      }
    }
  }

  lemma {:induction false} MaxLoopClamp(t: Tree, i: nat, alpha0: int, a: int, beta: int, best: Choice, mbest: Choice)
    requires t.Node? && t.max && WellFormed(t)
    requires MINBOARDSCORE <= alpha0 <= a < beta <= MAXBOARDSCORE
    requires best.score == a && a == if alpha0 >= mbest.score then alpha0 else mbest.score
    ensures Clamp(ABLoop(t, i, a, beta, best).score, alpha0, beta) == Clamp(MMLoop(t, i, mbest).score, alpha0, beta)
    decreases t, 0, |t.kids| - i
  {
    if i < |t.kids| {
      var kid := t.kids[i];
      assert kid in t.kids;
      var r := AB(kid, a, beta).score;
      var v := MM(kid).score;
      ABClamp(kid, a, beta);
      var mbest' := if v > mbest.score then Choice(t.moves[i], v) else mbest;
      if r > a {
        if r >= beta {
          MMLoopMonotone(t, i + 1, mbest');
        } else {
          MaxLoopClamp(t, i + 1, alpha0, r, beta, Choice(t.moves[i], r), mbest');
        }
      } else {
        MaxLoopClamp(t, i + 1, alpha0, a, beta, best, mbest');
      }
    }
  }

  lemma {:induction false} MinLoopClamp(t: Tree, i: nat, alpha: int, b: int, beta0: int, best: Choice, mbest: Choice)
    requires t.Node? && !t.max && WellFormed(t)
    requires MINBOARDSCORE <= alpha < b <= beta0 <= MAXBOARDSCORE
    requires best.score == b && b == if beta0 <= mbest.score then beta0 else mbest.score
    ensures Clamp(ABLoop(t, i, alpha, b, best).score, alpha, beta0) == Clamp(MMLoop(t, i, mbest).score, alpha, beta0)
    decreases t, 0, |t.kids| - i
  {
    if i < |t.kids| {
      var kid := t.kids[i];
      assert kid in t.kids;
      var r := AB(kid, alpha, b).score;
      var v := MM(kid).score;
      ABClamp(kid, alpha, b);
      var mbest' := if v < mbest.score then Choice(t.moves[i], v) else mbest;
      if r < b {
        if alpha >= r {
          MMLoopMonotone(t, i + 1, mbest');
        } else {
          MinLoopClamp(t, i + 1, alpha, r, beta0, Choice(t.moves[i], r), mbest');
        }
      } else {
        MinLoopClamp(t, i + 1, alpha, b, beta0, best, mbest');
      }
    }
  }

  // ---------------------------------------------------------------------
  // Score range

  /** Every leaf score lies within MINBOARDSCORE .. MAXBOARDSCORE. */
  predicate Bounded(t: Tree)
  {
    match t
    case Leaf(v) => MINBOARDSCORE <= v <= MAXBOARDSCORE
    case Node(_, _, kids) => forall k | k in kids :: Bounded(k)
  }

  predicate InRange(x: int)
  {
    MINBOARDSCORE <= x <= MAXBOARDSCORE
  }

  lemma {:induction false} MMBound(t: Tree)
    requires WellFormed(t) && Bounded(t)
    ensures InRange(MM(t).score)
    decreases t, 1, 0
  {
    if t.Node? {
      MMLoopBound(t, 0, Choice(t.moves[0], if t.max then MINBOARDSCORE else MAXBOARDSCORE));
    }
  }

  lemma {:induction false} MMLoopBound(t: Tree, i: nat, best: Choice)
    requires t.Node? && WellFormed(t) && Bounded(t) && InRange(best.score)
    ensures InRange(MMLoop(t, i, best).score)
    decreases t, 0, |t.kids| - i
  {
    if i < |t.kids| {
      var kid := t.kids[i];
      assert kid in t.kids;
      MMBound(kid);
      var reply := MM(kid);
      var best' := if (t.max && reply.score > best.score) || (!t.max && reply.score < best.score)
                   then Choice(t.moves[i], reply.score) else best;
      MMLoopBound(t, i + 1, best');
    }
  }

  lemma {:induction false} ABBound(t: Tree, alpha: int, beta: int)
    requires WellFormed(t) && Bounded(t) && InRange(alpha) && InRange(beta)
    ensures InRange(AB(t, alpha, beta).score)
    decreases t, 1, 0
  {
    if t.Node? {
      ABLoopBound(t, 0, alpha, beta, Choice(t.moves[0], if t.max then alpha else beta));
    }
  }

  lemma {:induction false} ABLoopBound(t: Tree, i: nat, alpha: int, beta: int, best: Choice)
    requires t.Node? && WellFormed(t) && Bounded(t) && InRange(alpha) && InRange(beta) && InRange(best.score)
    ensures InRange(ABLoop(t, i, alpha, beta, best).score)
    decreases t, 0, |t.kids| - i
  {
    if i < |t.kids| {
      var kid := t.kids[i];
      assert kid in t.kids;
      ABBound(kid, alpha, beta);
      var r := AB(kid, alpha, beta).score;
      if t.max && r > best.score {
        if r < beta {
          ABLoopBound(t, i + 1, r, beta, Choice(t.moves[i], r));
        }
      } else if !t.max && r < best.score {
        if alpha < r {
          ABLoopBound(t, i + 1, alpha, r, Choice(t.moves[i], r));
        }
      } else if alpha < beta {
        ABLoopBound(t, i + 1, alpha, beta, best);
      }
    }
  }

  /** On legal boards every leaf of the search is scored within range, as
      long as at most 220 moves are counted (sd <= 220). */
  lemma {:induction false} GameTreeBounded(s: BoardState, color: int, sd: int, depth: nat, side: bool)
    requires ValidState(s) && (color == 0 || color == 1) && depth <= sd <= 2 * MAXBOARDSCORE
    ensures Bounded(GameTree(s, color, sd, depth, side))
    decreases depth, 1
  {
    if Terminal(s, color, depth) {
      EvalBoardBound(s, sd - depth);
    } else {
      ChildrenBounded(s, color, sd, depth - 1, side, ListMoves(s, Mover(color, side)));
    }
  }

  /** The subtrees below a legal board are bounded, whatever the moves. */
  lemma {:induction false} ChildrenBounded(s: BoardState, color: int, sd: int, d: nat, side: bool, moves: seq<Move>)
    requires ValidState(s) && (color == 0 || color == 1) && d < sd <= 2 * MAXBOARDSCORE
    ensures forall k | k in Children(s, color, sd, d, side, moves) :: Bounded(k)
    decreases d + 1, 0, |moves|
  {
    if moves != [] {
      var p := Mover(color, side);
      MakeKeepsValid(s, moves[0], p);
      GameTreeBounded(Make(s, moves[0], p), color, sd, d, !side);
      ChildrenBounded(s, color, sd, d, side, moves[1..]);
    }
  }

  /** Away from the leaves the tree is a node of the side to move that
      offers the moves listMoves lists, one subtree each. */
  lemma GameTreeNode(s: BoardState, color: int, sd: int, depth: nat, side: bool)
    requires !Terminal(s, color, depth)
    ensures GameTree(s, color, sd, depth, side).Node?
    ensures GameTree(s, color, sd, depth, side).max == side
    ensures GameTree(s, color, sd, depth, side).moves == ListMoves(s, Mover(color, side))
    ensures |GameTree(s, color, sd, depth, side).kids| == |ListMoves(s, Mover(color, side))|
  {
  }

  /** Subtree i of a node is the tree of the position move i leads to. */
  lemma GameTreeKid(s: BoardState, color: int, sd: int, depth: nat, side: bool, i: int)
    requires !Terminal(s, color, depth) && 0 <= i < |ListMoves(s, Mover(color, side))|
    ensures GameTree(s, color, sd, depth, side).kids[i] ==
      GameTree(Make(s, ListMoves(s, Mover(color, side))[i], Mover(color, side)), color, sd, depth - 1, !side)
  {
    var moves := ListMoves(s, Mover(color, side));
    var kids := Children(s, color, sd, depth - 1, side, moves);
    ChildAt(s, color, sd, depth - 1, side, moves, i);
    assert GameTree(s, color, sd, depth, side) == Node(side, moves, kids);
  }

  lemma {:induction false} ChildAt(s: BoardState, color: int, sd: int, d: nat, side: bool, moves: seq<Move>, i: int)
    requires 0 <= i < |moves|
    ensures Children(s, color, sd, d, side, moves)[i] == GameTree(Make(s, moves[i], Mover(color, side)), color, sd, d, !side)
    decreases i
  {
    if i > 0 {
      ChildAt(s, color, sd, d, side, moves[1..], i - 1);
    }
  }

  /** Once the best score is the edge of the range that the side to move
      cannot beat, minimaxBestMove's loop keeps its choice to the end. */
  lemma {:induction false} MMLoopSettled(t: Tree, i: nat, best: Choice)
    requires t.Node? && WellFormed(t) && Bounded(t)
    requires best.score == if t.max then MAXBOARDSCORE else MINBOARDSCORE
    ensures MMLoop(t, i, best) == best
    decreases |t.kids| - i
  {
    if i < |t.kids| {
      assert t.kids[i] in t.kids;
      MMBound(t.kids[i]);
      MMLoopSettled(t, i + 1, best);
    }
  }

  /** With the window running from the best score so far up to the top of
      the range (machine), or from the bottom of the range up to the best
      score so far (human), bestMove's loop makes exactly the choices of
      minimaxBestMove's loop. */
  lemma {:induction false} FullWindowLoop(t: Tree, i: nat, best: Choice)
    requires t.Node? && WellFormed(t) && Bounded(t) && InRange(best.score)
    requires if t.max then best.score < MAXBOARDSCORE else best.score > MINBOARDSCORE
    ensures t.max ==> ABLoop(t, i, best.score, MAXBOARDSCORE, best) == MMLoop(t, i, best)
    ensures !t.max ==> ABLoop(t, i, MINBOARDSCORE, best.score, best) == MMLoop(t, i, best)
    decreases |t.kids| - i
  {
    if i < |t.kids| {
      var kid := t.kids[i];
      assert kid in t.kids;
      var lo := if t.max then best.score else MINBOARDSCORE;
      var hi := if t.max then MAXBOARDSCORE else best.score;
      ABClamp(kid, lo, hi);
      ABBound(kid, lo, hi);
      MMBound(kid);
      var r := AB(kid, lo, hi).score;
      var next := Choice(t.moves[i], r);
      if t.max && r > best.score {
        if r < MAXBOARDSCORE {
          FullWindowLoop(t, i + 1, next);
        } else {
          MMLoopSettled(t, i + 1, next);
        }
      } else if !t.max && r < best.score {
        if r > MINBOARDSCORE {
          FullWindowLoop(t, i + 1, next);
        } else {
          MMLoopSettled(t, i + 1, next);
        }
      } else {
        FullWindowLoop(t, i + 1, best);
      }
    }
  }

  /** With the full window that chooseMove uses, bestMove returns exactly
      minimaxBestMove's choice, move and score, provided the search depth is
      at most 220 (so that the scores of early wins and late losses stay
      within -110 .. 110). */
  lemma AlphaBetaIsMinimax(s: BoardState, color: int, sd: nat, side: bool)
    requires ValidState(s) && (color == 0 || color == 1) && sd <= 2 * MAXBOARDSCORE
    ensures AlphaBeta(s, color, sd, sd, side, MINBOARDSCORE, MAXBOARDSCORE) == Minimax(s, color, sd, sd, side)
  {
    var t := GameTree(s, color, sd, sd, side);
    GameTreeWellFormed(s, color, sd, sd, side);
    GameTreeBounded(s, color, sd, sd, side);
    if t.Node? {
      FullWindowLoop(t, 0, Choice(t.moves[0], if t.max then MINBOARDSCORE else MAXBOARDSCORE));
    }
  }

  // ---------------------------------------------------------------------
  // The move chosen

  lemma {:induction false} ABLoopListed(t: Tree, i: nat, alpha: int, beta: int, best: Choice)
    requires t.Node? && WellFormed(t) && best.move in t.moves
    ensures ABLoop(t, i, alpha, beta, best).move in t.moves
    decreases |t.kids| - i
  {
    if i < |t.kids| {
      assert t.kids[i] in t.kids;
      var r := AB(t.kids[i], alpha, beta).score;
      if t.max && r > best.score {
        if r < beta {
          ABLoopListed(t, i + 1, r, beta, Choice(t.moves[i], r));
        }
      } else if !t.max && r < best.score {
        if alpha < r {
          ABLoopListed(t, i + 1, alpha, r, Choice(t.moves[i], r));
        }
      } else if alpha < beta {
        ABLoopListed(t, i + 1, alpha, beta, best);
      }
    }
  }

  /** The best choice of bestMove's loop only ever improves for the side to move. */
  lemma {:induction false} ABLoopMonotone(t: Tree, i: nat, alpha: int, beta: int, best: Choice)
    requires t.Node? && WellFormed(t)
    ensures t.max ==> ABLoop(t, i, alpha, beta, best).score >= best.score
    ensures !t.max ==> ABLoop(t, i, alpha, beta, best).score <= best.score
    decreases |t.kids| - i
  {
    if i < |t.kids| {
      assert t.kids[i] in t.kids;
      var r := AB(t.kids[i], alpha, beta).score;
      if t.max && r > best.score {
        ABLoopMonotone(t, i + 1, r, beta, Choice(t.moves[i], r));
      } else if !t.max && r < best.score {
        ABLoopMonotone(t, i + 1, alpha, r, Choice(t.moves[i], r));
      } else {
        ABLoopMonotone(t, i + 1, alpha, beta, best);
      }
    }
  }

  /** bestMove fails hard: away from the leaves, the machine's score is at
      least the alpha it was given and the human's at most the beta. */
  lemma AlphaBetaFailHard(s: BoardState, color: int, sd: int, depth: nat, side: bool, alpha: int, beta: int)
    requires !Terminal(s, color, depth)
    ensures side ==> AlphaBeta(s, color, sd, depth, side, alpha, beta).score >= alpha
    ensures !side ==> AlphaBeta(s, color, sd, depth, side, alpha, beta).score <= beta
  {
    var t := GameTree(s, color, sd, depth, side);
    GameTreeWellFormed(s, color, sd, depth, side);
    GameTreeNode(s, color, sd, depth, side);
    ABLoopMonotone(t, 0, alpha, beta, Choice(t.moves[0], if t.max then alpha else beta));
  }

  /** bestMove returns one of the moves listMoves offers the side to move:
      Quit or a legal move. */
  lemma AlphaBetaMoveLegal(s: BoardState, color: int, sd: int, depth: nat, side: bool, alpha: int, beta: int)
    requires ValidState(s) && (color == 0 || color == 1)
    ensures AlphaBeta(s, color, sd, depth, side, alpha, beta).move in ListMoves(s, Mover(color, side))
    ensures var m := AlphaBeta(s, color, sd, depth, side, alpha, beta).move;
      m == Quit || ValidMove(s, m, Mover(color, side))
  {
    var t := GameTree(s, color, sd, depth, side);
    GameTreeWellFormed(s, color, sd, depth, side);
    var moves := ListMoves(s, Mover(color, side));
    var m := AB(t, alpha, beta).move;
    if t.Node? {
      ABLoopListed(t, 0, alpha, beta, Choice(t.moves[0], if t.max then alpha else beta));
    }
    ListMovesExact(s, Mover(color, side), m);
    if m != Quit {
      assert m in moves[1..];
    }
  }

  lemma {:induction false} MMLoopSpec(t: Tree, i: nat, best: Choice)
    requires t.Node? && WellFormed(t)
    ensures forall j | i <= j < |t.kids| ::
      if t.max then MM(t.kids[j]).score <= MMLoop(t, i, best).score
      else MM(t.kids[j]).score >= MMLoop(t, i, best).score
    ensures MMLoop(t, i, best) == best ||
      exists j | i <= j < |t.kids| :: MMLoop(t, i, best) == Choice(t.moves[j], MM(t.kids[j]).score)
    decreases |t.kids| - i
  {
    if i < |t.kids| {
      assert t.kids[i] in t.kids;
      var reply := MM(t.kids[i]);
      var best' := if (t.max && reply.score > best.score) || (!t.max && reply.score < best.score)
                   then Choice(t.moves[i], reply.score) else best;
      MMLoopSpec(t, i + 1, best');
      MMLoopMonotone(t, i + 1, best');
    }
  }

  /** On a bounded tree minimaxBestMove is optimal at every node: it returns
      the move of a subtree whose value is its score, and no subtree is
      better for the side to move. */
  lemma MMOptimal(t: Tree)
    requires t.Node? && WellFormed(t) && Bounded(t)
    ensures exists j | 0 <= j < |t.kids| :: MM(t) == Choice(t.moves[j], MM(t.kids[j]).score)
    ensures forall j | 0 <= j < |t.kids| :: if t.max then MM(t.kids[j]).score <= MM(t).score else MM(t.kids[j]).score >= MM(t).score
  {
    var init := Choice(t.moves[0], if t.max then MINBOARDSCORE else MAXBOARDSCORE);
    MMLoopSpec(t, 0, init);
    if MM(t) == init {
      assert t.kids[0] in t.kids;
      MMBound(t.kids[0]);
      assert MM(t) == Choice(t.moves[0], MM(t.kids[0]).score);
    }
  }

  /** minimaxBestMove's loop from move i on keeps `best` unless some later
      move is strictly better, and then returns the first move j that
      reaches the final score: every move between i and j is strictly worse. */
  lemma {:induction false} MMLoopFirst(t: Tree, i: nat, best: Choice)
    requires t.Node? && WellFormed(t)
    ensures var r := MMLoop(t, i, best);
      (r == best && forall k | i <= k < |t.kids| ::
         if t.max then MM(t.kids[k]).score <= best.score else MM(t.kids[k]).score >= best.score) ||
      (exists j | i <= j < |t.kids| :: r == Choice(t.moves[j], MM(t.kids[j]).score) &&
         (if t.max then r.score > best.score else r.score < best.score) &&
         forall k | i <= k < j :: if t.max then MM(t.kids[k]).score < r.score else MM(t.kids[k]).score > r.score)
    decreases |t.kids| - i
  {
    if i < |t.kids| {
      assert t.kids[i] in t.kids;
      var reply := MM(t.kids[i]);
      var best' := if (t.max && reply.score > best.score) || (!t.max && reply.score < best.score)
                   then Choice(t.moves[i], reply.score) else best;
      MMLoopFirst(t, i + 1, best');
    }
  }

  /** minimaxBestMove returns the earliest move that reaches its score:
      every move listed before it is strictly worse for the side to move. */
  lemma MMEarliest(t: Tree)
    requires t.Node? && WellFormed(t) && Bounded(t)
    ensures exists j | 0 <= j < |t.kids| ::
      (MM(t) == Choice(t.moves[j], MM(t.kids[j]).score) &&
       forall k | 0 <= k < j :: if t.max then MM(t.kids[k]).score < MM(t).score else MM(t.kids[k]).score > MM(t).score)
  {
    var init := Choice(t.moves[0], if t.max then MINBOARDSCORE else MAXBOARDSCORE);
    MMLoopFirst(t, 0, init);
    if MM(t) == init {
      assert t.kids[0] in t.kids;
      MMBound(t.kids[0]);
      assert MM(t) == Choice(t.moves[0], MM(t.kids[0]).score);
    }
  }

  /** minimaxBestMove is optimal: away from the leaves it returns a listed
      move whose minimax value is its score, and no listed move has a better
      value for the side to move. */
  lemma MinimaxOptimal(s: BoardState, color: int, sd: int, depth: nat, side: bool)
    requires ValidState(s) && (color == 0 || color == 1) && depth <= sd <= 2 * MAXBOARDSCORE
    requires !Terminal(s, color, depth)
    ensures var r := Minimax(s, color, sd, depth, side);
      r.move in ListMoves(s, Mover(color, side)) &&
      r.score == Minimax(Make(s, r.move, Mover(color, side)), color, sd, depth - 1, !side).score &&
      forall m | m in ListMoves(s, Mover(color, side)) ::
        var v := Minimax(Make(s, m, Mover(color, side)), color, sd, depth - 1, !side).score;
        if side then v <= r.score else v >= r.score
  {
    var p := Mover(color, side);
    var t := GameTree(s, color, sd, depth, side);
    GameTreeWellFormed(s, color, sd, depth, side);
    GameTreeBounded(s, color, sd, depth, side);
    GameTreeNode(s, color, sd, depth, side);
    MMOptimal(t);
    var j :| 0 <= j < |t.kids| && MM(t) == Choice(t.moves[j], MM(t.kids[j]).score);
    GameTreeKid(s, color, sd, depth, side, j);
    forall m | m in ListMoves(s, p)
      ensures var v := Minimax(Make(s, m, p), color, sd, depth - 1, !side).score;
        if side then v <= MM(t).score else v >= MM(t).score
    {
      var k :| 0 <= k < |t.moves| && t.moves[k] == m;
      GameTreeKid(s, color, sd, depth, side, k);
    }
  }

  /** minimaxBestMove keeps the first best move: every move listMoves lists
      before the one it returns has a strictly worse value for the side to move. */
  lemma MinimaxEarliest(s: BoardState, color: int, sd: int, depth: nat, side: bool)
    requires ValidState(s) && (color == 0 || color == 1) && depth <= sd <= 2 * MAXBOARDSCORE
    requires !Terminal(s, color, depth)
    ensures var r := Minimax(s, color, sd, depth, side);
      var moves := ListMoves(s, Mover(color, side));
      exists j | 0 <= j < |moves| :: (moves[j] == r.move &&
        forall k | 0 <= k < j ::
          var v := Minimax(Make(s, moves[k], Mover(color, side)), color, sd, depth - 1, !side).score;
          if side then v < r.score else v > r.score)
  {
    var p := Mover(color, side);
    var t := GameTree(s, color, sd, depth, side);
    GameTreeWellFormed(s, color, sd, depth, side);
    GameTreeBounded(s, color, sd, depth, side);
    GameTreeNode(s, color, sd, depth, side);
    MMEarliest(t);
    var j :| 0 <= j < |t.kids| && MM(t) == Choice(t.moves[j], MM(t.kids[j]).score) &&
      forall k | 0 <= k < j :: if t.max then MM(t.kids[k]).score < MM(t).score else MM(t.kids[k]).score > MM(t).score;
    forall k | 0 <= k < j
      ensures var v := Minimax(Make(s, t.moves[k], p), color, sd, depth - 1, !side).score;
        if side then v < MM(t).score else v > MM(t).score
    {
      GameTreeKid(s, color, sd, depth, side, k);
    }
  }

  /** The move chooseMove plays: away from the leaves, the full-window
      bestMove returns a listed move whose minimax value is its score, no
      listed move has a better value, and every move listed before it has a
      strictly worse one. */
  lemma RootChoiceBest(s: BoardState, color: int, sd: nat, side: bool)
    requires ValidState(s) && (color == 0 || color == 1) && sd <= 2 * MAXBOARDSCORE
    requires !Terminal(s, color, sd)
    ensures var r := AlphaBeta(s, color, sd, sd, side, MINBOARDSCORE, MAXBOARDSCORE);
      var moves := ListMoves(s, Mover(color, side));
      r.score == Minimax(Make(s, r.move, Mover(color, side)), color, sd, sd - 1, !side).score &&
      (forall m | m in moves ::
        var v := Minimax(Make(s, m, Mover(color, side)), color, sd, sd - 1, !side).score;
        if side then v <= r.score else v >= r.score) &&
      exists j | 0 <= j < |moves| :: (moves[j] == r.move &&
        forall k | 0 <= k < j ::
          var v := Minimax(Make(s, moves[k], Mover(color, side)), color, sd, sd - 1, !side).score;
          if side then v < r.score else v > r.score)
  {
    AlphaBetaIsMinimax(s, color, sd, side);
    MinimaxOptimal(s, color, sd, sd, side);
    MinimaxEarliest(s, color, sd, sd, side);
  }
}
