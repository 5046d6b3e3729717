/** Facts about the rules of `Rules`: the cluster and counter invariant is
    kept by every accepted move, makeMove followed by undoMove is the
    identity, and lifting a chip off the board and adding it back (what
    isClustered does for a Step) restores the board. */
module BoardInvariant {
  import opened Types
  import opened Rules

  // ---------------------------------------------------------------------
  // Counting helpers

  /** The nine squares of the box around (x, y), one term per square. */
  function Box9(g: Grid, x: int, y: int, c: int): nat
  {
    Hit(g, x - 1, y - 1, c) + Hit(g, x - 1, y, c) + Hit(g, x - 1, y + 1, c) +
    Hit(g, x, y - 1, c) + Hit(g, x, y, c) + Hit(g, x, y + 1, c) +
    Hit(g, x + 1, y - 1, c) + Hit(g, x + 1, y, c) + Hit(g, x + 1, y + 1, c)
  }

  lemma RowHits3(g: Grid, i: int, y: int, c: int)
    ensures RowHits(g, i, y, c, y + 2) == Hit(g, i, y - 1, c) + Hit(g, i, y, c) + Hit(g, i, y + 1, c)
  {
    assert RowHits(g, i, y, c, y - 1) == 0;
    assert RowHits(g, i, y, c, y) == Hit(g, i, y - 1, c);
    assert RowHits(g, i, y, c, y + 1) == RowHits(g, i, y, c, y) + Hit(g, i, y, c);
  }

  lemma CountAroundIs9(g: Grid, x: int, y: int, c: int)
    ensures CountAround(g, x, y, c) == Box9(g, x, y, c)
  {
    RowHits3(g, x - 1, y, c);
    RowHits3(g, x, y, c);
    RowHits3(g, x + 1, y, c);
    assert BoxHits(g, x, y, c, x - 1) == 0;
    assert BoxHits(g, x, y, c, x) == RowHits(g, x - 1, y, c, y + 2);
    assert BoxHits(g, x, y, c, x + 1) == BoxHits(g, x, y, c, x) + RowHits(g, x, y, c, y + 2);
  }

  lemma {:induction false} RowHitsMono(g: Grid, i: int, y: int, c: int, j: int, k: int)
    requires j <= k
    ensures RowHits(g, i, y, c, j) <= RowHits(g, i, y, c, k)
    decreases k - j
  {
    if j < k {
      RowHitsMono(g, i, y, c, j, k - 1);
    }
  }

  lemma {:induction false} BoxHitsMono(g: Grid, x: int, y: int, c: int, i: int, k: int)
    requires i <= k
    ensures BoxHits(g, x, y, c, i) <= BoxHits(g, x, y, c, k)
    decreases k - i
  {
    if i < k {
      BoxHitsMono(g, x, y, c, i, k - 1);
    }
  }

  /** The count isClustered has reached part-way through its scan of the box
      never exceeds the count of the whole box. */
  lemma PartialCount(g: Grid, x: int, y: int, c: int, i: int, j: int)
    requires x - 1 <= i <= x + 1 && y - 1 <= j <= y + 2
    ensures BoxHits(g, x, y, c, i) + RowHits(g, i, y, c, j) <= CountAround(g, x, y, c)
  {
    RowHitsMono(g, i, y, c, j, y + 2);
    BoxHitsMono(g, x, y, c, i + 1, x + 2);
  }

  /** Writing one square changes the box count only if that square is in the box. */
  lemma HitPut(g: Grid, d: Coord, v: int, i: int, j: int, c: int)
    requires OnBoard(d)
    ensures Hit(Put(g, d, v), i, j, c) == if (i, j) == d then (if v == c then 1 else 0) else Hit(g, i, j, c)
  {
  }

  lemma CountAroundPut(g: Grid, d: Coord, v: int, x: int, y: int, c: int)
    requires OnBoard(d)
    ensures CountAround(Put(g, d, v), x, y, c) ==
      if InBox(x, y, d.0, d.1) then CountAround(g, x, y, c) - Hit(g, d.0, d.1, c) + (if v == c then 1 else 0)
      else CountAround(g, x, y, c)
  {
    CountAroundIs9(g, x, y, c);
    CountAroundIs9(Put(g, d, v), x, y, c);
    HitPut(g, d, v, x - 1, y - 1, c);
    HitPut(g, d, v, x - 1, y, c);
    HitPut(g, d, v, x - 1, y + 1, c);
    HitPut(g, d, v, x, y - 1, c);
    HitPut(g, d, v, x, y, c);
    HitPut(g, d, v, x, y + 1, c);
    HitPut(g, d, v, x + 1, y - 1, c);
    HitPut(g, d, v, x + 1, y, c);
    HitPut(g, d, v, x + 1, y + 1, c);
  }

  lemma {:induction false} RowChipsPut(g: Grid, d: Coord, v: int, i: int, c: int, j: nat)
    requires OnBoard(d) && 0 <= i < DIMENSION && j <= DIMENSION
    ensures RowChips(Put(g, d, v), i, c, j) ==
      RowChips(g, i, c, j) + if i == d.0 && d.1 < j then (if v == c then 1 else 0) - Hit(g, d.0, d.1, c) else 0
  {
    if j > 0 {
      RowChipsPut(g, d, v, i, c, j - 1);
    }
  }

  lemma {:induction false} GridChipsPut(g: Grid, d: Coord, v: int, c: int, i: nat)
    requires OnBoard(d) && i <= DIMENSION
    ensures GridChips(Put(g, d, v), c, i) ==
      GridChips(g, c, i) + if d.0 < i then (if v == c then 1 else 0) - Hit(g, d.0, d.1, c) else 0
  {
    if i > 0 {
      GridChipsPut(g, d, v, c, i - 1);
      RowChipsPut(g, d, v, i - 1, c, DIMENSION);
    }
  }

  /** Writing one square changes a colour's chip count by at most one. */
  lemma ChipsPut(g: Grid, d: Coord, v: int, c: int)
    requires OnBoard(d)
    ensures Chips(Put(g, d, v), c) == Chips(g, c) - Hit(g, d.0, d.1, c) + (if v == c then 1 else 0)
  {
    GridChipsPut(g, d, v, c, DIMENSION);
  }

  lemma {:induction false} EmptyRowChips(i: int, c: int, j: nat)
    requires c != EMPTY && 0 <= i < DIMENSION && j <= DIMENSION
    ensures RowChips(EmptyGrid(), i, c, j) == 0
  {
    if j > 0 {
      EmptyRowChips(i, c, j - 1);
    }
  }

  lemma {:induction false} EmptyGridChips(c: int, i: nat)
    requires c != EMPTY && i <= DIMENSION
    ensures GridChips(EmptyGrid(), c, i) == 0
  {
    if i > 0 {
      EmptyGridChips(c, i - 1);
      EmptyRowChips(i - 1, c, DIMENSION);
    }
  }

  lemma PutCommute(g: Grid, a: Coord, u: int, b: Coord, v: int)
    requires OnBoard(a) && OnBoard(b) && a != b
    ensures Put(Put(g, a, u), b, v) == Put(Put(g, b, v), a, u)
  {
    GridExt(Put(Put(g, a, u), b, v), Put(Put(g, b, v), a, u));
  }

  // ---------------------------------------------------------------------
  // The invariant

  /** The empty board the constructor builds is a valid state. */
  lemma InitialValid(playerColor: int)
    requires IsColor(playerColor)
    ensures ValidState(Initial(playerColor))
  {
    EmptyGridChips(BLACK, DIMENSION);
    EmptyGridChips(WHITE, DIMENSION);
  }

  /** On a valid board the four corners are empty. */
  lemma CornersEmpty(s: BoardState)
    requires ValidState(s)
    ensures s.grid[0][0] == EMPTY && s.grid[0][DIMENSION - 1] == EMPTY
    ensures s.grid[DIMENSION - 1][0] == EMPTY && s.grid[DIMENSION - 1][DIMENSION - 1] == EMPTY
  {
  }

  /** Three distinct chips of c in the box around b count at least three. */
  lemma ThreeInBox(g: Grid, c: int, a: Coord, b: Coord, d: Coord)
    requires c != EMPTY && OnBoard(a) && OnBoard(b) && OnBoard(d)
    requires At(g, a) == c && At(g, b) == c && At(g, d) == c
    requires a != b && b != d && a != d
    requires InBox(b.0, b.1, a.0, a.1) && InBox(b.0, b.1, d.0, d.1)
    ensures CountAround(g, b.0, b.1, c) >= 3
  {
    var g1 := Put(g, a, EMPTY);
    var g2 := Put(g1, b, EMPTY);
    CountAroundPut(g, a, EMPTY, b.0, b.1, c);
    CountAroundPut(g1, b, EMPTY, b.0, b.1, c);
    CountAroundPut(g2, d, EMPTY, b.0, b.1, c);
  }

  /** A valid board has no three chips of one colour in which one touches both others:
      no group of three is ever formed. */
  lemma NoTriple(s: BoardState, c: int, a: Coord, b: Coord, d: Coord)
    requires ValidState(s) && IsColor(c)
    requires OnBoard(a) && OnBoard(b) && OnBoard(d)
    requires At(s.grid, a) == c && At(s.grid, b) == c && At(s.grid, d) == c
    requires a != b && b != d && a != d
    ensures !(InBox(b.0, b.1, a.0, a.1) && InBox(b.0, b.1, d.0, d.1))
  {
    if InBox(b.0, b.1, a.0, a.1) && InBox(b.0, b.1, d.0, d.1) {
      assert Uncrowded(s.grid, c, b.0, b.1);
      ThreeInBox(s.grid, c, a, b, d);
      assert false;
    }
  }

  lemma AddKeepsNoCluster(s: BoardState, m: Move, p: int, c: int)
    requires ValidState(s) && IsColor(p) && IsColor(c) && m.Add? && ValidMove(s, m, p)
    ensures NoCluster(Place(s, m, p).grid, c)
  {
    var g, d := s.grid, Dest(m);
    var g2 := Place(s, m, p).grid;
    assert MoveRequirements(s, m, p);
    forall i, j | 0 <= i < DIMENSION && 0 <= j < DIMENSION
      ensures Uncrowded(g2, c, i, j)
    {
      if g2[i][j] == c {
        CountAroundPut(g, d, p, i, j, c);
        assert Uncrowded(g, c, i, j);
        if c != p {
          assert g[i][j] == c;
        } else if (i, j) == d {
          assert BoxSquareOk(s, m, p, i, j);
        } else if InBox(i, j, d.0, d.1) {
          assert g[i][j] == p;
          assert BoxSquareOk(s, m, p, i, j);
        } else {
          assert g[i][j] == p;
        }
      }
    }
  }

  lemma StepKeepsNoCluster(s: BoardState, m: Move, p: int, c: int)
    requires ValidState(s) && IsColor(p) && IsColor(c) && m.Step? && ValidMove(s, m, p)
    ensures NoCluster(Place(s, m, p).grid, c)
  {
    var g, d, src := s.grid, Dest(m), Src(m);
    var g1 := Put(g, src, EMPTY);
    var g2 := Place(s, m, p).grid;
    PutCommute(g, d, p, src, EMPTY);
    assert g2 == Put(g1, d, p);
    assert MoveRequirements(s, m, p);
    forall i, j | 0 <= i < DIMENSION && 0 <= j < DIMENSION
      ensures Uncrowded(g2, c, i, j)
    {
      if g2[i][j] == c {
        CountAroundPut(g1, d, p, i, j, c);
        CountAroundPut(g, src, EMPTY, i, j, c);
        assert Uncrowded(g, c, i, j);
        if c != p {
          assert g[i][j] == c;
        } else if (i, j) == d {
          assert BoxSquareOk(s, m, p, i, j);
        } else if InBox(i, j, d.0, d.1) {
          assert g[i][j] == p;
          assert BoxSquareOk(s, m, p, i, j);
        } else {
          assert g[i][j] == p;
        }
      }
    }
  }

  /** Cluster invariant: every accepted move keeps the board valid, so no
      chip ever gets two same-colour neighbours and no counter exceeds 10. */
  lemma PlaceKeepsValid(s: BoardState, m: Move, p: int)
    requires ValidState(s) && IsColor(p) && ValidMove(s, m, p)
    ensures ValidState(Place(s, m, p))
  {
    var g, d := s.grid, Dest(m);
    if m.Add? {
      AddKeepsNoCluster(s, m, p, BLACK);
      AddKeepsNoCluster(s, m, p, WHITE);
      ChipsPut(g, d, p, s.myColor);
      ChipsPut(g, d, p, s.oppColor);
    } else {
      assert m.Step?;
      StepKeepsNoCluster(s, m, p, BLACK);
      StepKeepsNoCluster(s, m, p, WHITE);
      var g1 := Put(g, d, p);
      ChipsPut(g, d, p, s.myColor);
      ChipsPut(g, d, p, s.oppColor);
      ChipsPut(g1, Src(m), EMPTY, s.myColor);
      ChipsPut(g1, Src(m), EMPTY, s.oppColor);
    }
  }

  /** makeMove keeps the board valid, whether it accepts the move or not. */
  lemma MakeKeepsValid(s: BoardState, m: Move, p: int)
    requires ValidState(s) && IsColor(p)
    ensures ValidState(Make(s, m, p))
  {
    if ValidMove(s, m, p) {
      PlaceKeepsValid(s, m, p);
    }
  }

  /** What makeMove does on a valid board: a rejected move changes nothing;
      an accepted Add puts the mover's chip on its square and counts it for
      the mover only; an accepted Step moves the chip and leaves both
      counters alone. No counter ever passes ten. */
  lemma MakeEffect(s: BoardState, m: Move, p: int)
    requires ValidState(s) && IsColor(p)
    ensures !ValidMove(s, m, p) ==> Make(s, m, p) == s
    ensures ValidMove(s, m, p) && m.Add? ==>
      Make(s, m, p).grid == Put(s.grid, Dest(m), p) &&
      Placed(Make(s, m, p), p) == Placed(s, p) + 1 && Placed(Make(s, m, p), 3 - p) == Placed(s, 3 - p)
    ensures ValidMove(s, m, p) && !m.Add? ==>
      m.Step? && Make(s, m, p).grid == Put(Put(s.grid, Dest(m), p), Src(m), EMPTY) &&
      Make(s, m, p).myCount == s.myCount && Make(s, m, p).oppCount == s.oppCount
    ensures Make(s, m, p).myColor == s.myColor && Make(s, m, p).oppColor == s.oppColor
    ensures 0 <= Make(s, m, p).myCount <= 10 && 0 <= Make(s, m, p).oppCount <= 10
  {
    MakeKeepsValid(s, m, p);
  }

  /** undoMove right after an accepted makeMove restores grid and counters exactly. */
  lemma UndoAfterPlace(s: BoardState, m: Move, p: int)
    requires ValidState(s) && IsColor(p) && ValidMove(s, m, p)
    ensures CanUndo(m) && Undo(Place(s, m, p), m) == s
  {
    var g, d := s.grid, Dest(m);
    if m.Add? {
      GridExt(Put(Put(g, d, p), d, EMPTY), g);
    } else {
      GridExt(Undo(Place(s, m, p), m).grid, g);
    }
  }

  /** The round trip the search relies on, for every move makeMove may be
      given in the search: a valid move, or Quit. */
  lemma UndoAfterMake(s: BoardState, m: Move, p: int)
    requires ValidState(s) && IsColor(p) && (ValidMove(s, m, p) || m.Quit?)
    ensures CanUndo(m) && Undo(Make(s, m, p), m) == s
  {
    if ValidMove(s, m, p) {
      UndoAfterPlace(s, m, p);
    }
  }

  /** Lifting a chip of the mover off a valid board (undoMove of an Add) leaves a valid board. */
  lemma LiftKeepsValid(s: BoardState, p: int, c: Coord)
    requires ValidState(s) && IsColor(p) && OnBoard(c) && At(s.grid, c) == p
    ensures ValidState(Undo(s, Add(c.0, c.1)))
  {
    var g := s.grid;
    var g1 := Put(g, c, EMPTY);
    ChipsPut(g, c, EMPTY, s.myColor);
    ChipsPut(g, c, EMPTY, s.oppColor);
    forall col, i, j | IsColor(col) && 0 <= i < DIMENSION && 0 <= j < DIMENSION
      ensures Uncrowded(g1, col, i, j)
    {
      if g1[i][j] == col {
        CountAroundPut(g, c, EMPTY, i, j, col);
        assert Uncrowded(g, col, i, j);
      }
    }
    assert NoCluster(g1, BLACK) && NoCluster(g1, WHITE);
  }

  /** isClustered's lift-and-replace on a valid board, for the chip a Step
      moves: adding the lifted chip back is accepted and restores the board. */
  lemma ReAdd(s: BoardState, p: int, c: Coord)
    requires ValidState(s) && IsColor(p) && OnBoard(c) && At(s.grid, c) == p && !StepBlocked(s, p)
    ensures ValidMove(Undo(s, Add(c.0, c.1)), Add(c.0, c.1), p)
    ensures Place(Undo(s, Add(c.0, c.1)), Add(c.0, c.1), p) == s
  {
    var g := s.grid;
    var m := Add(c.0, c.1);
    var u := Undo(s, m);
    assert u.grid == Put(g, c, EMPTY);
    forall i, j | c.0 - 1 <= i <= c.0 + 1 && c.1 - 1 <= j <= c.1 + 1
      ensures BoxSquareOk(u, m, p, i, j)
    {
      if InBound(i, j) && (u.grid[i][j] == p || (i, j) == c) {
        CountAroundPut(g, c, EMPTY, i, j, p);
        assert Uncrowded(g, p, i, j);
      }
    }
    assert MoveRequirements(u, m, p);
    GridExt(Put(u.grid, c, p), g);
  }

  /** What isValidMove rejects, stated on a valid board: an Add once ten chips
      are placed; a Step (or Quit) before that, from a square without the
      mover's chip, or onto its own square; and any move whose destination
      is off the board, a corner, the mover's forbidden edge, or occupied. */
  lemma ValidMoveRejects(s: BoardState, m: Move, p: int)
    requires ValidState(s) && IsColor(p)
    ensures !ValidMove(s, Quit, p)
    ensures m.Add? && Placed(s, p) >= 10 ==> !ValidMove(s, m, p)
    ensures !m.Add? && Placed(s, p) < 10 ==> !ValidMove(s, m, p)
    ensures !m.Add? && OnBoard(Src(m)) && At(s.grid, Src(m)) != p ==> !ValidMove(s, m, p)
    ensures !m.Add? && Src(m) == Dest(m) ==> !ValidMove(s, m, p)
    ensures ValidMove(s, m, p) ==>
      OnBoard(Dest(m)) && !IsCorner(Dest(m).0, Dest(m).1) && At(s.grid, Dest(m)) == EMPTY &&
      !(p == BLACK && (Dest(m).0 == 0 || Dest(m).0 == DIMENSION - 1)) &&
      !(p == WHITE && (Dest(m).1 == 0 || Dest(m).1 == DIMENSION - 1))
    ensures ValidMove(s, m, p) && m.Add? ==> Placed(s, p) < 10
    ensures ValidMove(s, m, p) && !m.Add? ==> m.Step? && Placed(s, p) == 10
  {
  }
}
