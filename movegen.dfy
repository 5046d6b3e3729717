/** listMoves of `GameBoard` as a function of the board state: a Quit move
    followed by every legal move of the player in scan order. */
module MoveGen {
  import opened Types
  import opened Rules

  /** Add(x, y) from scan index t = 8x + y. */
  function AddAt(t: int): Move
  {
    Add(t / DIMENSION, t % DIMENSION)
  }

  /** Step(x1, y1, x2, y2) from scan index t = 512 x1 + 64 y1 + 8 x2 + y2,
      the order of the four nested loops of listMoves. */
  function StepAt(t: int): Move
  {
    Step(t / 512, (t / 64) % DIMENSION, (t / DIMENSION) % DIMENSION, t % DIMENSION)
  }

  /** The scan index of a move. */
  function Key(m: Move): int
  {
    match m
    case Add(x, y) => DIMENSION * x + y
    case Step(x1, y1, x2, y2) => 512 * x1 + 64 * y1 + DIMENSION * x2 + y2
    case Quit => -1
  }

  /** The Add loops of listMoves from scan index t on. (The state and the
      colour head the termination measure only so that the verifier never
      unrolls the whole scan from a literal start index.) */
  function AddsFrom(s: BoardState, p: int, t: int): seq<Move>
    decreases s, p, 64 - t
  {
    if t >= 64 || t < 0 then []
    else (if ValidMove(s, AddAt(t), p) then [AddAt(t)] else []) + AddsFrom(s, p, t + 1)
  }

  /** The Step loops of listMoves from scan index t on. */
  function StepsFrom(s: BoardState, p: int, t: int): seq<Move>
    decreases s, p, 4096 - t
  {
    if t >= 4096 || t < 0 then []
    else (if ValidMove(s, StepAt(t), p) then [StepAt(t)] else []) + StepsFrom(s, p, t + 1)
  }

  /** listMoves(p): Quit first, then the legal Adds while p has placed fewer
      than ten chips, the legal Steps otherwise. */
  function ListMoves(s: BoardState, p: int): seq<Move>
  {
    [Quit] + if StepBlocked(s, p) then AddsFrom(s, p, 0) else StepsFrom(s, p, 0)
  }

  // ---------------------------------------------------------------------
  // Scan indices

  lemma AddKey(m: Move)
    requires m.Add? && OnBoard(Dest(m))
    ensures 0 <= Key(m) < 64 && AddAt(Key(m)) == m
  {
  }

  lemma AddAtKey(t: int)
    requires 0 <= t < 64
    ensures OnBoard(Dest(AddAt(t))) && Key(AddAt(t)) == t
  {
  }

  lemma StepKey(m: Move)
    requires m.Step? && OnBoard(Dest(m)) && OnBoard(Src(m))
    ensures 0 <= Key(m) < 4096 && StepAt(Key(m)) == m
  {
    var t := Key(m);
    var r := 64 * m.y1 + DIMENSION * m.x2 + m.y2;
    assert 0 <= r < 512 && t == 512 * m.x1 + r;
    assert t / 512 == m.x1;
    assert t / 64 == 8 * m.x1 + m.y1;
    assert t / DIMENSION == 64 * m.x1 + 8 * m.y1 + m.x2;
  }

  lemma StepAtKey(t: int)
    requires 0 <= t < 4096
    ensures OnBoard(Dest(StepAt(t))) && OnBoard(Src(StepAt(t))) && Key(StepAt(t)) == t
  {
    var m := StepAt(t);
    assert t / 64 == 8 * (t / 512) + (t / 64) % 8;
    assert t / 8 == 8 * (t / 64) + (t / 8) % 8;
    assert t == 8 * (t / 8) + t % 8;
  }

  /** One pass of the Add loops: move m, at its own scan index, is appended
      when legal. */
  lemma AddsFromStep(s: BoardState, p: int, m: Move, t: int, ok: bool, moves: seq<Move>, next: seq<Move>)
    requires m.Add? && OnBoard(Dest(m)) && Key(m) == t && ok == ValidMove(s, m, p)
    requires next == moves + if ok then [m] else []
    ensures moves + AddsFrom(s, p, t) == next + AddsFrom(s, p, t + 1)
  {
    AddKey(m);
  }

  /** One pass of the Step loops. */
  lemma StepsFromStep(s: BoardState, p: int, m: Move, t: int, ok: bool, moves: seq<Move>, next: seq<Move>)
    requires m.Step? && OnBoard(Dest(m)) && OnBoard(Src(m)) && Key(m) == t && ok == ValidMove(s, m, p)
    requires next == moves + if ok then [m] else []
    ensures moves + StepsFrom(s, p, t) == next + StepsFrom(s, p, t + 1)
  {
    StepKey(m);
  }

  // ---------------------------------------------------------------------
  // Contents

  lemma {:induction false} AddsFromMember(s: BoardState, p: int, t: int, m: Move)
    requires 0 <= t
    ensures m in AddsFrom(s, p, t) <==> m.Add? && OnBoard(Dest(m)) && Key(m) >= t && ValidMove(s, m, p)
    decreases 64 - t
  {
    if t < 64 {
      AddsFromMember(s, p, t + 1, m);
      AddAtKey(t);
      if m.Add? && OnBoard(Dest(m)) {
        AddKey(m);
      }
    }
  }

  lemma {:induction false} StepsFromMember(s: BoardState, p: int, t: int, m: Move)
    requires 0 <= t
    ensures m in StepsFrom(s, p, t) <==>
      m.Step? && OnBoard(Dest(m)) && OnBoard(Src(m)) && Key(m) >= t && ValidMove(s, m, p)
    decreases 4096 - t
  {
    if t < 4096 {
      StepsFromMember(s, p, t + 1, m);
      StepAtKey(t);
      if m.Step? && OnBoard(Dest(m)) && OnBoard(Src(m)) {
        StepKey(m);
      }
    }
  }

  /** Scan order: keys strictly increase along the list. */
  lemma {:induction false} AddsFromIncreasing(s: BoardState, p: int, t: int)
    requires 0 <= t
    ensures Increasing(AddsFrom(s, p, t))
    decreases 64 - t
  {
    if t < 64 {
      AddsFromIncreasing(s, p, t + 1);
      var l, rest := AddsFrom(s, p, t), AddsFrom(s, p, t + 1);
      if ValidMove(s, AddAt(t), p) {
        AddAtKey(t);
        forall b | 1 <= b < |l|
          ensures Key(l[0]) < Key(l[b])
        {
          AddsFromMember(s, p, t + 1, l[b]);
        }
        assert forall a | 1 <= a < |l| :: l[a] == rest[a - 1];
      }
    }
  }

  lemma {:induction false} StepsFromIncreasing(s: BoardState, p: int, t: int)
    requires 0 <= t
    ensures Increasing(StepsFrom(s, p, t))
    decreases 4096 - t
  {
    if t < 4096 {
      StepsFromIncreasing(s, p, t + 1);
      var l, rest := StepsFrom(s, p, t), StepsFrom(s, p, t + 1);
      if ValidMove(s, StepAt(t), p) {
        StepAtKey(t);
        forall b | 1 <= b < |l|
          ensures Key(l[0]) < Key(l[b])
        {
          StepsFromMember(s, p, t + 1, l[b]);
        }
        assert forall a | 1 <= a < |l| :: l[a] == rest[a - 1];
      }
    }
  }

  /** After the leading Quit, listMoves holds exactly the legal moves of p. */
  lemma ListMovesExact(s: BoardState, p: int, m: Move)
    requires ValidState(s) && IsColor(p)
    ensures ListMoves(s, p)[0] == Quit
    ensures m in ListMoves(s, p)[1..] <==> ValidMove(s, m, p)
  {
    var l := ListMoves(s, p);
    assert l[1..] == if StepBlocked(s, p) then AddsFrom(s, p, 0) else StepsFrom(s, p, 0);
    AddsFromMember(s, p, 0, m);
    StepsFromMember(s, p, 0, m);
    if m.Add? && OnBoard(Dest(m)) {
      AddKey(m);
    }
    if m.Step? && OnBoard(Dest(m)) && OnBoard(Src(m)) {
      StepKey(m);
    }
  }

  /** listMoves offers only Adds while p has placed fewer than ten chips and only Steps afterwards. */
  lemma ListMovesKinds(s: BoardState, p: int, n: int)
    requires 1 <= n < |ListMoves(s, p)|
    ensures StepBlocked(s, p) ==> ListMoves(s, p)[n].Add?
    ensures !StepBlocked(s, p) ==> ListMoves(s, p)[n].Step?
  {
    var m := ListMoves(s, p)[n];
    assert m in ListMoves(s, p)[1..];
    AddsFromMember(s, p, 0, m);
    StepsFromMember(s, p, 0, m);
  }

  predicate Increasing(l: seq<Move>)
  {
    forall a, b | 0 <= a < b < |l| :: Key(l[a]) < Key(l[b])
  }

  lemma QuitFirst(rest: seq<Move>)
    requires Increasing(rest) && forall m | m in rest :: Key(m) >= 0
    ensures Increasing([Quit] + rest)
  {
    var l := [Quit] + rest;
    forall a, b | 0 <= a < b < |l|
      ensures Key(l[a]) < Key(l[b])
    {
      assert l[b] == rest[b - 1];
      if a > 0 {
        assert l[a] == rest[a - 1];
      }
    }
  }

  /** listMoves lists every move once, in scan order after the leading Quit. */
  lemma ListMovesIncreasing(s: BoardState, p: int)
    ensures Increasing(ListMoves(s, p))
    ensures forall a, b | 0 <= a < b < |ListMoves(s, p)| :: ListMoves(s, p)[a] != ListMoves(s, p)[b]
  {
    var rest := if StepBlocked(s, p) then AddsFrom(s, p, 0) else StepsFrom(s, p, 0);
    AddsFromIncreasing(s, p, 0);
    StepsFromIncreasing(s, p, 0);
    forall m | m in rest
      ensures Key(m) >= 0
    {
      AddsFromMember(s, p, 0, m);
      StepsFromMember(s, p, 0, m);
    }
    QuitFirst(rest);
  }
}
