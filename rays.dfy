/** Connections between chips: vectorSearch, findConnections and
    connectionCount of `GameBoard` as functions of the grid, with the
    symmetry of connections and the bound on their number. */
module Rays {
  import opened Types
  import Rules

  /** A ray direction (x_vector, y_vector) that findConnections passes. */
  predicate IsDir(dx: int, dy: int)
  {
    -1 <= dx <= 1 && -1 <= dy <= 1 && (dx != 0 || dy != 0)
  }

  /** Steps a walk from (i, j) along (dx, dy) can take before leaving the board. */
  function StepsLeft(i: int, j: int, dx: int, dy: int): int
  {
    if dx > 0 then DIMENSION - i else if dx < 0 then i + 1 else if dy > 0 then DIMENSION - j else j + 1
  }

  /** The loop of vectorSearch from square (i, j) on: the first occupied
      square along the ray, provided it holds colour c. */
  function Walk(g: Grid, c: int, i: int, j: int, dx: int, dy: int): Option<Coord>
    requires IsDir(dx, dy)
    decreases StepsLeft(i, j, dx, dy)
  {
    if !InBound(i, j) then None
    else if g[i][j] > 0 then (if g[i][j] == c then Some((i, j)) else None)
    else Walk(g, c, i + dx, j + dy, dx, dy)
  }

  /** vectorSearch(x, y, dx, dy): the connection of (x, y) along (dx, dy). */
  function VectorSearch(g: Grid, x: int, y: int, dx: int, dy: int): Option<Coord>
    requires InBound(x, y) && IsDir(dx, dy)
  {
    Walk(g, g[x][y], x + dx, y + dy, dx, dy)
  }

  /** The direction with index k, in findConnections' order
      (-1,-1), (-1,0), (-1,1), (0,-1), (0,1), (1,-1), (1,0), (1,1). */
  function DX(k: int): int
  {
    if k < 3 then -1 else if k < 5 then 0 else 1
  }

  function DY(k: int): int
  {
    if k == 0 || k == 3 || k == 5 then -1 else if k == 1 || k == 6 then 0 else 1
  }

  /** Entry k of findConnections(c): the connection of c in direction k
      (None for a square off the board or an index outside 0..7). */
  function Conn(g: Grid, c: Coord, k: int): Option<Coord>
  {
    if OnBoard(c) && 0 <= k < 8 then VectorSearch(g, c.0, c.1, DX(k), DY(k)) else None
  }

  /** The non-null entries among the first n of a connection array. */
  function CountSome(conns: seq<Option<Coord>>, n: nat): nat
    requires n <= |conns|
  {
    if n == 0 then 0 else CountSome(conns, n - 1) + if conns[n - 1].Some? then 1 else 0
  }

  /** How many connections the chip at (x, y) has. */
  function ConnsAt(g: Grid, x: int, y: int): nat
  {
    CountSome(seq(8, k => Conn(g, (x, y), k)), 8)
  }

  /** Connections of p's chips in squares (i, 0) .. (i, j-1). */
  function RowConns(g: Grid, i: int, p: int, j: nat): nat
    requires 0 <= i < DIMENSION && j <= DIMENSION
  {
    if j == 0 then 0 else RowConns(g, i, p, j - 1) + if g[i][j - 1] == p then ConnsAt(g, i, j - 1) else 0
  }

  /** Connections of p's chips in rows 0 .. i-1. */
  function GridConns(g: Grid, p: int, i: nat): nat
    requires i <= DIMENSION
  {
    if i == 0 then 0 else GridConns(g, p, i - 1) + RowConns(g, i - 1, p, DIMENSION)
  }

  /** connectionCount(p). */
  function ConnectionCount(g: Grid, p: int): nat
  {
    GridConns(g, p, DIMENSION)
  }

  // ---------------------------------------------------------------------
  // What a walk finds

  /** t steps of size d along one axis; for a direction d is -1, 0 or 1. */
  function Offset(t: int, d: int): int
  {
    if d == 1 then t else if d == -1 then -t else if d == 0 then 0 else t * d
  }

  /** The square t steps from (x, y) along (dx, dy). */
  function Along(x: int, y: int, dx: int, dy: int, t: int): Coord
  {
    (x + Offset(t, dx), y + Offset(t, dy))
  }

  lemma AlongShift(x: int, y: int, dx: int, dy: int, t: int)
    requires IsDir(dx, dy)
    ensures Along(x + dx, y + dy, dx, dy, t) == Along(x, y, dx, dy, t + 1)
  {
  }

  /** Walking back from the n-th square of a ray retraces it. */
  lemma AlongBack(x: int, y: int, dx: int, dy: int, n: int, t: int)
    requires IsDir(dx, dy)
    ensures var b := Along(x, y, dx, dy, n);
      Along(b.0 - dx, b.1 - dy, -dx, -dy, t) == Along(x, y, dx, dy, n - 1 - t)
  {
  }

  predicate EmptyAt(g: Grid, q: Coord)
  {
    OnBoard(q) && g[q.0][q.1] <= 0
  }

  lemma {:induction false} WalkFound(g: Grid, c: int, i: int, j: int, dx: int, dy: int) returns (n: nat)
    requires IsDir(dx, dy) && Walk(g, c, i, j, dx, dy).Some?
    ensures Walk(g, c, i, j, dx, dy).value == Along(i, j, dx, dy, n)
    ensures OnBoard(Along(i, j, dx, dy, n)) && At(g, Along(i, j, dx, dy, n)) > 0
    ensures At(g, Along(i, j, dx, dy, n)) == c
    ensures forall t :: 0 <= t < n ==> EmptyAt(g, Along(i, j, dx, dy, t))
    decreases StepsLeft(i, j, dx, dy)
  {
    if g[i][j] > 0 {
      n := 0;
    } else {
      var i', j' := i + dx, j + dy;
      var n' := WalkFound(g, c, i', j', dx, dy);
      n := n' + 1;
      AlongShift(i, j, dx, dy, n');
      forall t | 0 <= t < n
        ensures EmptyAt(g, Along(i, j, dx, dy, t))
      {
        if t > 0 {
          AlongShift(i, j, dx, dy, t - 1);
          assert EmptyAt(g, Along(i', j', dx, dy, t - 1));
        } else {
          assert Along(i, j, dx, dy, 0) == (i, j);
        }
      }
    }
  }

  lemma {:induction false} WalkReach(g: Grid, c: int, i: int, j: int, dx: int, dy: int, n: nat)
    requires IsDir(dx, dy)
    requires forall t :: 0 <= t < n ==> EmptyAt(g, Along(i, j, dx, dy, t))
    requires OnBoard(Along(i, j, dx, dy, n)) && At(g, Along(i, j, dx, dy, n)) > 0
    requires At(g, Along(i, j, dx, dy, n)) == c
    ensures Walk(g, c, i, j, dx, dy) == Some(Along(i, j, dx, dy, n))
    decreases n
  {
    if n > 0 {
      assert EmptyAt(g, Along(i, j, dx, dy, 0));
      assert Along(i, j, dx, dy, 0) == (i, j);
      var i', j' := i + dx, j + dy;
      forall t | 0 <= t < n - 1
        ensures EmptyAt(g, Along(i', j', dx, dy, t))
      {
        AlongShift(i, j, dx, dy, t);
      }
      AlongShift(i, j, dx, dy, n - 1);
      WalkReach(g, c, i', j', dx, dy, n - 1);
    }
  }

  /** A walk of one or more steps in a direction never ends where it began. */
  lemma AlongMoves(x: int, y: int, dx: int, dy: int, t: int)
    requires IsDir(dx, dy) && t >= 1
    ensures Along(x, y, dx, dy, t) != (x, y)
  {
  }

  /** What vectorSearch finds along a direction is a different, on-board
      square holding the origin's (non-empty) colour. */
  lemma RayShape(g: Grid, a: Coord, dx: int, dy: int)
    requires OnBoard(a) && IsDir(dx, dy) && VectorSearch(g, a.0, a.1, dx, dy).Some?
    ensures OnBoard(VectorSearch(g, a.0, a.1, dx, dy).value)
    ensures VectorSearch(g, a.0, a.1, dx, dy).value != a
    ensures At(g, VectorSearch(g, a.0, a.1, dx, dy).value) == At(g, a) && At(g, a) > 0
  {
    var n := WalkFound(g, At(g, a), a.0 + dx, a.1 + dy, dx, dy);
    AlongShift(a.0, a.1, dx, dy, n);
    AlongMoves(a.0, a.1, dx, dy, n + 1);
  }

  /** Walking back along (ex, ey) = (-dx, -dy) from (qx, qy), one step before
      the n-th square of a ray, passes the same empty squares and ends one
      step before the ray's start. */
  lemma BackPath(g: Grid, x: int, y: int, dx: int, dy: int, n: nat, qx: int, qy: int, ex: int, ey: int)
    requires IsDir(dx, dy)
    requires forall t :: 0 <= t < n ==> EmptyAt(g, Along(x, y, dx, dy, t))
    requires qx == Along(x, y, dx, dy, n).0 - dx && qy == Along(x, y, dx, dy, n).1 - dy
    requires ex == -dx && ey == -dy
    ensures forall t :: 0 <= t < n ==> EmptyAt(g, Along(qx, qy, ex, ey, t))
    ensures Along(qx, qy, ex, ey, n) == (x - dx, y - dy)
  {
    forall t | 0 <= t < n
      ensures EmptyAt(g, Along(qx, qy, ex, ey, t))
    {
      AlongBack(x, y, dx, dy, n, t);
    }
    AlongBack(x, y, dx, dy, n, n);
    assert Along(x, y, dx, dy, -1) == (x - dx, y - dy);
  }

  /** vectorSearch is symmetric: the square found from a along (dx, dy)
      finds a along (-dx, -dy). */
  lemma RayBack(g: Grid, a: Coord, dx: int, dy: int)
    requires OnBoard(a) && IsDir(dx, dy) && VectorSearch(g, a.0, a.1, dx, dy).Some?
    ensures var b := VectorSearch(g, a.0, a.1, dx, dy).value;
      InBound(b.0, b.1) && VectorSearch(g, b.0, b.1, -dx, -dy) == Some(a)
  {
    var x, y := a.0 + dx, a.1 + dy;
    var c := At(g, a);
    var n := WalkFound(g, c, x, y, dx, dy);
    var b := Along(x, y, dx, dy, n);
    var qx, qy, ex, ey := b.0 - dx, b.1 - dy, -dx, -dy;
    BackPath(g, x, y, dx, dy, n, qx, qy, ex, ey);
    WalkReach(g, c, qx, qy, ex, ey, n);
    assert VectorSearch(g, b.0, b.1, ex, ey) == Walk(g, c, qx, qy, ex, ey);
  }

  /** A connection is a different, on-board square holding the origin's (non-empty) colour. */
  lemma ConnShape(g: Grid, a: Coord, k: int)
    requires Conn(g, a, k).Some?
    ensures OnBoard(a) && 0 <= k < 8
    ensures OnBoard(Conn(g, a, k).value) && Conn(g, a, k).value != a
    ensures At(g, Conn(g, a, k).value) == At(g, a) && At(g, a) > 0
  {
    RayShape(g, a, DX(k), DY(k));
  }

  lemma ConnBack(g: Grid, a: Coord, k: int)
    requires Conn(g, a, k).Some?
    ensures Conn(g, Conn(g, a, k).value, 7 - k) == Some(a)
  {
    RayBack(g, a, DX(k), DY(k));
    assert DX(7 - k) == -DX(k) && DY(7 - k) == -DY(k);
  }

  /** Connections are symmetric: a sees b along direction k exactly when b
      sees a along the opposite direction 7 - k. */
  lemma ConnSymmetric(g: Grid, a: Coord, b: Coord, k: int)
    requires 0 <= k < 8
    ensures Conn(g, a, k) == Some(b) <==> Conn(g, b, 7 - k) == Some(a)
  {
    if Conn(g, a, k) == Some(b) {
      ConnBack(g, a, k);
    }
    if Conn(g, b, 7 - k) == Some(a) {
      ConnBack(g, b, 7 - k);
    }
  }

  // ---------------------------------------------------------------------
  // Bounds

  lemma {:induction false} CountSomeBound(conns: seq<Option<Coord>>, n: nat)
    requires n <= |conns|
    ensures CountSome(conns, n) <= n
  {
    if n > 0 {
      CountSomeBound(conns, n - 1);
    }
  }

  lemma {:induction false} RowConnsBound(g: Grid, i: int, p: int, j: nat)
    requires 0 <= i < DIMENSION && j <= DIMENSION
    ensures RowConns(g, i, p, j) <= 8 * Rules.RowChips(g, i, p, j)
  {
    if j > 0 {
      RowConnsBound(g, i, p, j - 1);
      CountSomeBound(seq(8, k => Conn(g, (i, j - 1), k)), 8);
    }
  }

  lemma {:induction false} GridConnsBound(g: Grid, p: int, i: nat)
    requires i <= DIMENSION
    ensures GridConns(g, p, i) <= 8 * Rules.GridChips(g, p, i)
  {
    if i > 0 {
      GridConnsBound(g, p, i - 1);
      RowConnsBound(g, i - 1, p, DIMENSION);
    }
  }

  /** connectionCount(p) is at most eight per chip of p. */
  lemma ConnectionCountBound(g: Grid, p: int)
    ensures ConnectionCount(g, p) <= 8 * Rules.Chips(g, p)
  {
    GridConnsBound(g, p, DIMENSION);
  }
}
