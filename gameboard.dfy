/** The `GameBoard` class: an 8x8 array of cells and the two
    [colour, chips placed] pairs, with every method of the class proved
    against the functions of the rule modules. The ghost field `grid`
    mirrors the array as a value, so that `P()` is the abstract
    `BoardState` the rule modules speak about. */
module Board {
  import opened Types
  import opened Rules
  import opened BoardInvariant
  import opened Rays
  import opened Networks
  import opened Evaluation
  import opened MoveGen

  /** The squares a `checked_chips` array marks. */
  ghost function Checked(checked: array2<bool>): set<Coord>
    reads checked
    requires checked.Length0 == DIMENSION && checked.Length1 == DIMENSION
  {
    set i, j | 0 <= i < DIMENSION && 0 <= j < DIMENSION && checked[i, j] :: (i, j)
  }

  lemma CheckedMember(checked: array2<bool>, c: Coord)
    requires checked.Length0 == DIMENSION && checked.Length1 == DIMENSION && OnBoard(c)
    ensures c in Checked(checked) <==> checked[c.0, c.1]
  {
  }

  lemma CheckedOnBoard(checked: array2<bool>)
    requires checked.Length0 == DIMENSION && checked.Length1 == DIMENSION
    ensures Checked(checked) <= AllSquares()
  {
  }

  /** The position of direction (i, j) in findConnections' order. */
  function DirIndex(i: int, j: int): int
  {
    3 * (i + 1) + (j + 1) - (if i > 0 || (i == 0 && j > 0) then 1 else 0)
  }

  lemma DirIndexDir(i: int, j: int)
    requires IsDir(i, j)
    ensures 0 <= DirIndex(i, j) < 8 && DX(DirIndex(i, j)) == i && DY(DirIndex(i, j)) == j
  {
  }

  /** Orders the calls of the legality check: a Step is judged through an
      Add of its source square. */
  function Rank(m: Move): nat
  {
    if m.Step? then 1 else 0
  }

  class GameBoard {
    const board: array2<int>
    const myColor: int
    var myCount: int
    const oppColor: int
    var oppCount: int
    /** The contents of `board` as a value. */
    ghost var grid: Grid

    /** The array is 8x8 and holds exactly `grid`. */
    ghost predicate Shape()
      reads this, board
    {
      board.Length0 == DIMENSION && board.Length1 == DIMENSION &&
      forall i, j | 0 <= i < DIMENSION && 0 <= j < DIMENSION :: board[i, j] == grid[i][j]
    }

    /** The abstract state: grid, myPlayer and opponent. */
    ghost function P(): BoardState
      reads this
    {
      BoardState(grid, myColor, myCount, oppColor, oppCount)
    }

    /** A board reached from the initial one by legal moves. */
    ghost predicate Valid()
      reads this, board
    {
      Shape() && ValidState(P())
    }

    /** GameBoard(playerColor): an empty board, no chips placed. */
    constructor(playerColor: int)
      ensures Shape() && P() == Initial(playerColor)
      ensures IsColor(playerColor) ==> Valid()
    {
      board := new int[DIMENSION, DIMENSION]((i, j) => EMPTY);
      myColor, myCount := playerColor, 0;
      oppColor, oppCount := 3 - playerColor, 0;
      grid := EmptyGrid();
      new;
      assert P() == Initial(playerColor);
      if IsColor(playerColor) {
        InitialValid(playerColor);
      }
    }

    /** Writes one square of the array and of its mirror. */
    method SetCell(c: Coord, v: int)
      requires Shape() && OnBoard(c)
      modifies this, board
      ensures Shape() && grid == Put(old(grid), c, v)
      ensures myCount == old(myCount) && oppCount == old(oppCount)
    {
      board[c.0, c.1] := v;
      grid := Put(grid, c, v);
    }

    // -------------------------------------------------------------------
    // Moves

    /** undoMove(m). */
    method UndoMove(m: Move)
      requires Shape() && CanUndo(m)
      modifies this, board
      ensures Shape() && P() == Undo(old(P()), m)
    {
      match m
      case Add(x1, y1) =>
        if board[x1, y1] == myColor {
          myCount := myCount - 1;
        } else {
          oppCount := oppCount - 1;
        }
        SetCell((x1, y1), EMPTY);
      case Step(x1, y1, x2, y2) =>
        SetCell((x2, y2), board[x1, y1]);
        SetCell((x1, y1), EMPTY);
      case Quit =>
    }

    /** makeMove(m, p): a board reached by legal moves stays one. */
    method MakeMove(m: Move, p: int)
      requires Valid() && IsColor(p)
      modifies this, board
      ensures Valid() && P() == Make(old(P()), m, p)
      decreases Rank(m), 4
    {
      ghost var s := P();
      var ok := IsValidMove(m, p);
      if ok {
        SetCell(Dest(m), p);
        if m.Step? {
          SetCell(Src(m), EMPTY);
        } else if myColor == p {
          myCount := myCount + 1;
        } else {
          oppCount := oppCount + 1;
        }
      }
      assert P() == Make(s, m, p);
      MakeKeepsValid(s, m, p);
    }

    /** isValidMove(m, p). It leaves the board as it found it. */
    method IsValidMove(m: Move, p: int) returns (ok: bool)
      requires Valid() && IsColor(p)
      modifies this, board
      ensures Shape() && P() == old(P()) && ok == ValidMove(old(P()), m, p)
      decreases Rank(m), 3
    {
      var d, c := Dest(m), Src(m);
      if m.Add? {
        if (p == myColor && myCount == 10) || (p == oppColor && oppCount == 10) {
          return false;
        }
        if !InBound(d.0, d.1) {
          return false;
        }
      } else {
        if (p == myColor && myCount < 10) || (p == oppColor && oppCount < 10) {
          return false;
        }
        if !InBound(d.0, d.1) || !InBound(c.0, c.1) {
          return false;
        }
        if board[c.0, c.1] != p {
          return false;
        }
        if d.0 == c.0 && d.1 == c.1 {
          return false;
        }
      }
      ok := CheckMoveRequirements(m, p);
    }

    /** checkMoveRequirements(m, p), reached once the guards of isValidMove
        hold. */
    method CheckMoveRequirements(m: Move, p: int) returns (ok: bool)
      requires Valid() && IsColor(p) && OnBoard(Dest(m))
      requires !m.Add? ==> OnBoard(Src(m)) && At(grid, Src(m)) == p && !StepBlocked(P(), p)
      modifies this, board
      ensures Shape() && P() == old(P()) && ok == MoveRequirements(old(P()), m, p)
      decreases Rank(m), 2
    {
      ghost var s := P();
      var d := Dest(m);
      if (d.0 == 0 && (d.1 == 0 || d.1 == DIMENSION - 1)) ||
         (d.0 == DIMENSION - 1 && (d.1 == 0 || d.1 == DIMENSION - 1)) {
        return false;
      }
      if p == BLACK && (d.0 == DIMENSION - 1 || d.0 == 0) {
        return false;
      }
      if p == WHITE && (d.1 == 0 || d.1 == DIMENSION - 1) {
        return false;
      }
      if board[d.0, d.1] != 0 {
        return false;
      }
      var i := d.0 - 1;
      while i <= d.0 + 1
        invariant d.0 - 1 <= i <= d.0 + 2 && Shape() && P() == s
        invariant forall a, b | d.0 - 1 <= a < i && d.1 - 1 <= b <= d.1 + 1 :: BoxSquareOk(s, m, p, a, b)
      {
        var j := d.1 - 1;
        while j <= d.1 + 1
          invariant d.1 - 1 <= j <= d.1 + 2 && Shape() && P() == s
          invariant forall a, b | d.0 - 1 <= a <= i && d.1 - 1 <= b <= d.1 + 1 && (a < i || b < j) :: BoxSquareOk(s, m, p, a, b)
        {
          var bad := SquareClustered(i, j, p, m);
          if bad {
            return false;
          }
          j := j + 1;
        }
        i := i + 1;
      }
      return true;
    }

    /** The body of checkMoveRequirements' loops at square (i, j): the
        destination and each chip of the mover in the box must not be
        clustered. */
    method SquareClustered(i: int, j: int, p: int, m: Move) returns (bad: bool)
      requires Valid() && IsColor(p) && OnBoard(Dest(m))
      requires !m.Add? ==> OnBoard(Src(m)) && At(grid, Src(m)) == p && !StepBlocked(P(), p)
      modifies this, board
      ensures Shape() && P() == old(P()) && bad == !BoxSquareOk(old(P()), m, p, i, j)
      decreases Rank(m), 1
    {
      bad := false;
      if InBound(i, j) && (board[i, j] == p || (i, j) == Dest(m)) {
        bad := IsClustered(i, j, p, m);
      }
    }

    /** isClustered(x, y, p, m). For a Step it lifts the moving chip off the
        board, counts, and puts the chip back, so the board is unchanged. */
    method IsClustered(x: int, y: int, p: int, m: Move) returns (clustered: bool)
      requires Valid() && IsColor(p)
      requires m.Step? ==> OnBoard(Src(m)) && At(grid, Src(m)) == p && !StepBlocked(P(), p)
      modifies this, board
      ensures Shape() && P() == old(P()) && clustered == Rules.IsClustered(old(P()), x, y, p, m)
      decreases Rank(m), 0
    {
      if m.Add? {
        ghost var g := grid;
        var count := 0;
        var i := x - 1;
        while i <= x + 1
          invariant x - 1 <= i <= x + 2 && count == BoxHits(g, x, y, p, i) && count <= 1
        {
          var j := y - 1;
          while j <= y + 1
            invariant y - 1 <= j <= y + 2 && count == BoxHits(g, x, y, p, i) + RowHits(g, i, y, p, j) && count <= 1
          {
            if InBound(i, j) {
              if board[i, j] == p {
                count := count + 1;
              }
              if count > 1 {
                PartialCount(g, x, y, p, i, j + 1);
                return true;
              }
            }
            j := j + 1;
          }
          i := i + 1;
        }
        return false;
      } else if m.Step? {
        ghost var s := P();
        var add, remove := Add(m.x1, m.y1), Add(m.x2, m.y2);
        LiftKeepsValid(s, p, Src(m));
        ReAdd(s, p, Src(m));
        UndoMove(remove);
        clustered := IsClustered(x, y, p, add);
        MakeMove(remove, p);
      } else {
        return false;
      }
    }

    /** listMoves(p): Quit, then every legal move of p in scan order. */
    method ListMoves(p: int) returns (moves: seq<Move>)
      requires Valid() && IsColor(p)
      modifies this, board
      ensures Shape() && P() == old(P()) && moves == MoveGen.ListMoves(old(P()), p)
    {
      moves := [Quit];
      if (p == myColor && myCount < 10) || (p == oppColor && oppCount < 10) {
        moves := ListAdds(p, moves);
      } else {
        moves := ListSteps(p, moves);
      }
    }

    /** The two loops of listMoves that append the legal Add moves. */
    method ListAdds(p: int, moves0: seq<Move>) returns (moves: seq<Move>)
      requires Valid() && IsColor(p)
      modifies this, board
      ensures Shape() && P() == old(P()) && moves == moves0 + AddsFrom(old(P()), p, 0)
    {
      ghost var s := P();
      moves := moves0;
      ghost var t := 0;
      var i := 0;
      while i < DIMENSION
        invariant 0 <= i <= DIMENSION && t == 8 * i && Shape() && P() == s
        invariant moves + AddsFrom(s, p, t) == moves0 + AddsFrom(s, p, 0)
      {
        var j := 0;
        while j < DIMENSION
          invariant 0 <= j <= DIMENSION && t == 8 * i + j && Shape() && P() == s
          invariant moves + AddsFrom(s, p, t) == moves0 + AddsFrom(s, p, 0)
        {
          var add := Add(i, j);
          ghost var before := moves;
          var ok := IsValidMove(add, p);
          if ok {
            moves := moves + [add];
          }
          AddsFromStep(s, p, add, t, ok, before, moves);
          t := t + 1;
          j := j + 1;
        }
        i := i + 1;
      }
      assert AddsFrom(s, p, t) == [];
    }

    /** The four loops of listMoves that append the legal Step moves. */
    method ListSteps(p: int, moves0: seq<Move>) returns (moves: seq<Move>)
      requires Valid() && IsColor(p)
      modifies this, board
      ensures Shape() && P() == old(P()) && moves == moves0 + StepsFrom(old(P()), p, 0)
    {
      ghost var s := P();
      moves := moves0;
      ghost var t := 0;
      var i := 0;
      while i < DIMENSION
        invariant 0 <= i <= DIMENSION && t == 512 * i && Shape() && P() == s
        invariant moves + StepsFrom(s, p, t) == moves0 + StepsFrom(s, p, 0)
      {
        var j := 0;
        while j < DIMENSION
          invariant 0 <= j <= DIMENSION && t == 512 * i + 64 * j && Shape() && P() == s
          invariant moves + StepsFrom(s, p, t) == moves0 + StepsFrom(s, p, 0)
        {
          var i2 := 0;
          while i2 < DIMENSION
            invariant 0 <= i2 <= DIMENSION && t == 512 * i + 64 * j + 8 * i2 && Shape() && P() == s
            invariant moves + StepsFrom(s, p, t) == moves0 + StepsFrom(s, p, 0)
          {
            var j2 := 0;
            while j2 < DIMENSION
              invariant 0 <= j2 <= DIMENSION && t == 512 * i + 64 * j + 8 * i2 + j2 && Shape() && P() == s
              invariant moves + StepsFrom(s, p, t) == moves0 + StepsFrom(s, p, 0)
            {
              var step := Step(i, j, i2, j2);
              ghost var before := moves;
              var ok := IsValidMove(step, p);
              if ok {
                moves := moves + [step];
              }
              StepsFromStep(s, p, step, t, ok, before, moves);
              t := t + 1;
              j2 := j2 + 1;
            }
            i2 := i2 + 1;
          }
          j := j + 1;
        }
        i := i + 1;
      }
      assert StepsFrom(s, p, t) == [];
    }

    // -------------------------------------------------------------------
    // Connections

    /** vectorSearch(x, y, dx, dy). */
    method VectorSearch(x: int, y: int, dx: int, dy: int) returns (r: Option<Coord>)
      requires Shape() && InBound(x, y) && IsDir(dx, dy)
      ensures r == Rays.VectorSearch(grid, x, y, dx, dy)
    {
      var i, j := x + dx, y + dy;
      while InBound(i, j)
        invariant Rays.VectorSearch(grid, x, y, dx, dy) == Walk(grid, grid[x][y], i, j, dx, dy)
        decreases StepsLeft(i, j, dx, dy)
      {
        if board[i, j] > 0 {
          if board[i, j] == board[x, y] {
            return Some((i, j));
          }
          break;
        }
        i, j := i + dx, j + dy;
      }
      return None;
    }

    /** findConnections(x, y): entry k is the connection in direction k. */
    method FindConnections(x: int, y: int) returns (conns: seq<Option<Coord>>)
      requires Shape() && InBound(x, y)
      ensures |conns| == 8 && forall k | 0 <= k < 8 :: conns[k] == Conn(grid, (x, y), k)
    {
      conns := [];
      var i := -1;
      while i <= 1
        invariant -1 <= i <= 2 && |conns| == DirIndex(i, -1)
        invariant forall k | 0 <= k < |conns| :: conns[k] == Conn(grid, (x, y), k)
      {
        var j := -1;
        while j <= 1
          invariant -1 <= j <= 2 && |conns| == DirIndex(i, j)
          invariant forall k | 0 <= k < |conns| :: conns[k] == Conn(grid, (x, y), k)
        {
          if i != 0 || j != 0 {
            DirIndexDir(i, j);
            var v := VectorSearch(x, y, i, j);
            conns := conns + [v];
          }
          j := j + 1;
        }
        i := i + 1;
      }
    }

    /** connectionCount(p). */
    method ConnectionCount(p: int) returns (count: int)
      requires Shape()
      ensures count == Rays.ConnectionCount(grid, p)
    {
      count := 0;
      var i := 0;
      while i < DIMENSION
        invariant 0 <= i <= DIMENSION && count == GridConns(grid, p, i)
      {
        var j := 0;
        while j < DIMENSION
          invariant 0 <= j <= DIMENSION && count == GridConns(grid, p, i) + RowConns(grid, i, p, j)
        {
          if board[i, j] == p {
            var conns := FindConnections(i, j);
            ghost var g := grid;
            assert conns == seq(8, k => Conn(g, (i, j), k));
            var k := 0;
            while k < |conns|
              invariant 0 <= k <= |conns| && count == GridConns(grid, p, i) + RowConns(grid, i, p, j) + CountSome(conns, k)
            {
              if conns[k].Some? {
                count := count + 1;
              }
              k := k + 1;
            }
          }
          j := j + 1;
        }
        i := i + 1;
      }
    }

    // -------------------------------------------------------------------
    // Networks

    /** getgoalPieces(p, goal). */
    method GetGoalPieces(p: int, goal: int) returns (pieces: seq<Coord>)
      requires Shape() && 0 <= goal < DIMENSION
      ensures pieces == GoalPieces(grid, p, goal)
    {
      pieces := [];
      var i := 1;
      while i < DIMENSION - 1
        invariant 1 <= i <= DIMENSION - 1 && pieces + GoalFrom(grid, p, goal, i) == GoalPieces(grid, p, goal)
      {
        ghost var before := pieces;
        if p == BLACK {
          if board[i, goal] == p {
            pieces := pieces + [(i, goal)];
          }
        } else if p == WHITE {
          if board[goal, i] == p {
            pieces := pieces + [(goal, i)];
          }
        }
        GoalFromStep(grid, p, goal, i, before, pieces);
        i := i + 1;
      }
    }

    /** inGoal(x, y, pieces). */
    method InGoal(x: int, y: int, pieces: seq<Coord>) returns (b: bool)
      ensures b == Networks.InGoal((x, y), pieces)
    {
      var k := 0;
      while k < |pieces|
        invariant 0 <= k <= |pieces| && (x, y) !in pieces[..k]
      {
        if x == pieces[k].0 && y == pieces[k].1 {
          return true;
        }
        k := k + 1;
      }
      assert pieces[..k] == pieces;
      return false;
    }

    /** getNetwork(x, y, p, checked, dir, sg, eg, network): whether a
        network can be completed from (x, y). A failing call leaves the
        path as it was and `checked` marking exactly one more square,
        (x, y) itself, unless (x, y) is in the end goal. */
    method GetNetwork(x: int, y: int, p: int, checked: array2<bool>, dir: int,
                      sg: seq<Coord>, eg: seq<Coord>, network: seq<Coord>) returns (found: bool, path: seq<Coord>)
      requires Shape() && InBound(x, y) && checked.Length0 == DIMENSION && checked.Length1 == DIMENSION
      modifies checked
      ensures found == Networks.GetNetwork(grid, (x, y), dir, old(Checked(checked)), |network|, sg, eg)
      ensures !found ==> path == network
      ensures !found ==>
        Checked(checked) == if Networks.InGoal((x, y), eg) then old(Checked(checked)) else old(Checked(checked)) + {(x, y)}
      decreases AllSquares() - (Checked(checked) + {(x, y)})
    {
      ghost var v0 := Checked(checked);
      var inEnd := InGoal(x, y, eg);
      if inEnd {
        return |network| >= 6, network;
      }
      checked[x, y] := true;
      ghost var v := Checked(checked);
      assert v == v0 + {(x, y)};
      var conns := FindConnections(x, y);
      path := network;
      var i := 0;
      while i < |conns|
        invariant 0 <= i <= 8 && Checked(checked) == v && path == network
        invariant Networks.GetNetwork(grid, (x, y), dir, v0, |network|, sg, eg) ==
          Scan(grid, (x, y), dir, v, |network|, sg, eg, i)
      {
        if conns[i].Some? {
          var next := conns[i].value;
          ConnShape(grid, (x, y), i);
          CheckedMember(checked, next);
          var inStart := InGoal(next.0, next.1, sg);
          if !(inStart || i == dir || checked[next.0, next.1]) {
            CheckedOnBoard(checked);
            assert next in AllSquares();
            var f, rest := GetNetwork(next.0, next.1, p, checked, i, sg, eg, path + [next]);
            if f {
              return true, rest;
            }
            checked[next.0, next.1] := false;
            assert Checked(checked) == v;
            path := rest[..|rest| - 1];
          }
        }
        i := i + 1;
      }
      return false, path;
    }

    /** hasValidNetwork(p). */
    method HasValidNetwork(p: int) returns (b: bool)
      requires Shape()
      ensures b == Networks.HasValidNetwork(grid, p)
    {
      var checked := new bool[DIMENSION, DIMENSION]((i, j) => false);
      var sg := GetGoalPieces(p, 0);
      var eg := GetGoalPieces(p, DIMENSION - 1);
      assert Checked(checked) == {};
      var k := 0;
      while k < |sg|
        invariant 0 <= k <= |sg|
        invariant Networks.HasValidNetwork(grid, p) == TryStarts(grid, sg, eg, k, Checked(checked))
      {
        var start := sg[k];
        GoalPiecesMember(grid, p, 0, start);
        ghost var before := Checked(checked);
        checked[start.0, start.1] := true;
        assert Checked(checked) == before + {start};
        var found, network := GetNetwork(start.0, start.1, p, checked, -1, sg, eg, [start]);
        if found {
          return true;
        }
        network := network[1..];
        k := k + 1;
      }
      return false;
    }

    // -------------------------------------------------------------------
    // Evaluation

    /** evalBoard(movesMade). */
    method EvalBoard(movesMade: int) returns (score: int)
      requires Shape()
      ensures score == Evaluation.EvalBoard(P(), movesMade)
    {
      score := 0;
      var mine := HasValidNetwork(myColor);
      if mine {
        return MAXBOARDSCORE - movesMade;
      }
      var theirs := HasValidNetwork(oppColor);
      if theirs {
        return MINBOARDSCORE + movesMade;
      }
      var i := 0;
      while i < DIMENSION
        invariant 0 <= i <= DIMENSION && score == BlackGoalScore(grid, myColor, i)
      {
        if board[i, 0] == BLACK || board[i, DIMENSION - 1] == BLACK {
          if myColor == BLACK {
            score := score + 3;
          } else {
            score := score - 3;
          }
        }
        i := i + 1;
      }
      i := 0;
      while i < DIMENSION
        invariant 0 <= i <= DIMENSION
        invariant score == BlackGoalScore(grid, myColor, DIMENSION) + WhiteGoalScore(grid, myColor, i)
      {
        if board[0, i] == WHITE || board[DIMENSION - 1, i] == WHITE {
          if myColor == WHITE {
            score := score + 3;
          } else {
            score := score - 3;
          }
        }
        i := i + 1;
      }
      var own := ConnectionCount(myColor);
      score := score + own;
      var other := ConnectionCount(oppColor);
      score := score - other;
    }
  }
}
