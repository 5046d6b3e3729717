/** Winning networks: getgoalPieces, inGoal, getNetwork and hasValidNetwork
    of `GameBoard` as functions of the grid, and the proof that the
    depth-first search finds a network exactly when one exists. */
module Networks {
  import opened Types
  import opened Rays

  // ---------------------------------------------------------------------
  // Goal areas

  /** Square c lies in player p's goal area number goal (0 or 7): Black's goals
      are the rows y = goal with 1 <= x <= 6, White's the columns x = goal
      with 1 <= y <= 6. */
  predicate InGoalArea(p: int, goal: int, c: Coord)
  {
    (p == BLACK && c.1 == goal && 1 <= c.0 <= DIMENSION - 2) ||
    (p == WHITE && c.0 == goal && 1 <= c.1 <= DIMENSION - 2)
  }

  /** The loop of getgoalPieces from index i on. (The board heads the
      termination measure only so that the verifier never unrolls the loop
      from a literal start index.) */
  function GoalFrom(g: Grid, p: int, goal: int, i: int): seq<Coord>
    requires 0 <= goal < DIMENSION && 1 <= i
    decreases g, DIMENSION - 1 - i
  {
    if i >= DIMENSION - 1 then [] else GoalAt(g, p, goal, i) + GoalFrom(g, p, goal, i + 1)
  }

  /** What one pass of that loop appends. */
  function GoalAt(g: Grid, p: int, goal: int, i: int): seq<Coord>
    requires 0 <= goal < DIMENSION && 1 <= i < DIMENSION - 1
  {
    if p == BLACK && g[i][goal] == p then [(i, goal)]
    else if p == WHITE && g[goal][i] == p then [(goal, i)]
    else []
  }

  lemma GoalFromStep(g: Grid, p: int, goal: int, i: int, pieces: seq<Coord>, next: seq<Coord>)
    requires 0 <= goal < DIMENSION && 1 <= i < DIMENSION - 1
    requires next == pieces + GoalAt(g, p, goal, i)
    ensures pieces + GoalFrom(g, p, goal, i) == next + GoalFrom(g, p, goal, i + 1)
  {
  }

  /** getgoalPieces(p, goal). */
  function GoalPieces(g: Grid, p: int, goal: int): seq<Coord>
    requires 0 <= goal < DIMENSION
  {
    GoalFrom(g, p, goal, 1)
  }

  /** inGoal(x, y, goalPieces). */
  predicate InGoal(c: Coord, pieces: seq<Coord>)
  {
    c in pieces
  }

  lemma {:induction false} GoalFromMember(g: Grid, p: int, goal: int, i: int, c: Coord)
    requires 0 <= goal < DIMENSION && 1 <= i
    ensures c in GoalFrom(g, p, goal, i) <==>
      InGoalArea(p, goal, c) && OnBoard(c) && At(g, c) == p && (if p == BLACK then c.0 >= i else c.1 >= i)
    decreases DIMENSION - 1 - i
  {
    if i < DIMENSION - 1 {
      GoalFromMember(g, p, goal, i + 1, c);
    }
  }

  /** The goal pieces are exactly p's chips standing in the goal area. */
  lemma GoalPiecesMember(g: Grid, p: int, goal: int, c: Coord)
    requires 0 <= goal < DIMENSION
    ensures InGoal(c, GoalPieces(g, p, goal)) <==> InGoalArea(p, goal, c) && OnBoard(c) && At(g, c) == p
  {
    GoalFromMember(g, p, goal, 1, c);
  }

  // ---------------------------------------------------------------------
  // The depth-first search

  ghost function AllSquares(): set<Coord>
  {
    set i, j | 0 <= i < DIMENSION && 0 <= j < DIMENSION :: (i, j)
  }

  /** getNetwork(cur, dir, checked, startGoal, endGoal, network) where
      `visited` is the set of checked squares and len the length of the
      network built so far (cur included). */
  function GetNetwork(g: Grid, cur: Coord, dir: int, visited: set<Coord>, len: int,
                      sg: seq<Coord>, eg: seq<Coord>): bool
    decreases AllSquares() - (visited + {cur}), 1, 0
  {
    if InGoal(cur, eg) then len >= 6
    else Scan(g, cur, dir, visited + {cur}, len, sg, eg, 0)
  }

  /** The loop of getNetwork over the connections of cur, from index i on;
      `visited` already holds cur. */
  function Scan(g: Grid, cur: Coord, dir: int, visited: set<Coord>, len: int,
                sg: seq<Coord>, eg: seq<Coord>, i: int): bool
    decreases AllSquares() - visited, 0, 8 - i
  {
    if i >= 8 then false
    else match Conn(g, cur, i)
      case None => Scan(g, cur, dir, visited, len, sg, eg, i + 1)
      case Some(next) =>
        if InGoal(next, sg) || i == dir || next in visited then
          Scan(g, cur, dir, visited, len, sg, eg, i + 1)
        else
          ConnShape(g, cur, i);
          assert next in AllSquares();
          GetNetwork(g, next, i, visited, len + 1, sg, eg) || Scan(g, cur, dir, visited, len, sg, eg, i + 1)
  }

  /** The loop of hasValidNetwork over the start goal from index k on; each
      start that has been tried stays checked. */
  function TryStarts(g: Grid, sg: seq<Coord>, eg: seq<Coord>, k: nat, visited: set<Coord>): bool
    decreases |sg| - k
  {
    if k >= |sg| then false
    else
      var v := visited + {sg[k]};
      GetNetwork(g, sg[k], -1, v, 1, sg, eg) || TryStarts(g, sg, eg, k + 1, v)
  }

  /** hasValidNetwork(p). */
  function HasValidNetwork(g: Grid, p: int): bool
  {
    TryStarts(g, GoalPieces(g, p, 0), GoalPieces(g, p, DIMENSION - 1), 0, {})
  }

  // ---------------------------------------------------------------------
  // What a network is

  /** The direction index a step must differ from: the arrival direction
      for the first step, the previous step's direction after that. */
  function Prev(ds: seq<int>, dir: int, n: int): int
    requires 0 <= n <= |ds|
  {
    if n == 0 then dir else ds[n - 1]
  }

  /** Step n of path t goes along connection ds[n] to a square outside the
      start goal and outside `visited`. */
  predicate Link(g: Grid, t: seq<Coord>, ds: seq<int>, n: int, visited: set<Coord>, sg: seq<Coord>)
    requires 0 <= n < |ds| && |ds| == |t| - 1
  {
    0 <= ds[n] < 8 && Conn(g, t[n], ds[n]) == Some(t[n + 1]) && !InGoal(t[n + 1], sg) && t[n + 1] !in visited
  }

  /** t is a completion, found by getNetwork, of a network of length len
      ending in t[0] and reached along direction dir: a chain of distinct
      connected chips that turns at every chip, avoids the start goal and
      the visited squares, stops at its first end-goal chip and brings
      the network to six chips or more. */
  ghost predicate Completion(g: Grid, t: seq<Coord>, ds: seq<int>, dir: int, visited: set<Coord>, len: int,
                             sg: seq<Coord>, eg: seq<Coord>)
  {
    |t| >= 1 && |ds| == |t| - 1 && len + |t| - 1 >= 6 &&
    InGoal(t[|t| - 1], eg) &&
    (forall n | 0 <= n < |t| - 1 :: !InGoal(t[n], eg)) &&
    (forall n | 0 <= n < |ds| :: Link(g, t, ds, n, visited, sg)) &&
    (forall n | 0 <= n < |ds| :: ds[n] != Prev(ds, dir, n)) &&
    (forall a, b | 0 <= a < b < |t| :: t[a] != t[b])
  }

  /** A winning network for p in the sense of the game: at least six
      distinct chips of p, the first in p's goal 0 and the last in p's goal
      7, no other chip in either goal, each chip connected to the next, and
      the direction changing at every chip. */
  ghost predicate IsNetwork(g: Grid, p: int, t: seq<Coord>, ds: seq<int>)
  {
    |t| >= 6 && |ds| == |t| - 1 &&
    (forall n | 0 <= n < |t| :: OnBoard(t[n]) && At(g, t[n]) == p) &&
    InGoalArea(p, 0, t[0]) && InGoalArea(p, DIMENSION - 1, t[|t| - 1]) &&
    (forall n | 1 <= n < |t| :: !InGoalArea(p, 0, t[n])) &&
    (forall n | 0 <= n < |t| - 1 :: !InGoalArea(p, DIMENSION - 1, t[n])) &&
    (forall n | 0 <= n < |ds| :: 0 <= ds[n] < 8 && Conn(g, t[n], ds[n]) == Some(t[n + 1])) &&
    (forall n | 1 <= n < |ds| :: ds[n] != ds[n - 1]) &&
    (forall a, b | 0 <= a < b < |t| :: t[a] != t[b])
  }

  // ---------------------------------------------------------------------
  // Completions step by step

  lemma CompletionEnd(g: Grid, cur: Coord, dir: int, visited: set<Coord>, len: int, sg: seq<Coord>, eg: seq<Coord>)
    requires InGoal(cur, eg) && len >= 6
    ensures Completion(g, [cur], [], dir, visited, len, sg, eg)
  {
  }

  lemma CompletionCons(g: Grid, cur: Coord, d: int, t: seq<Coord>, ds: seq<int>, dir: int,
                       visited: set<Coord>, len: int, sg: seq<Coord>, eg: seq<Coord>)
    requires cur in visited && !InGoal(cur, eg)
    requires 0 <= d < 8 && d != dir && |t| >= 1 && Conn(g, cur, d) == Some(t[0])
    requires !InGoal(t[0], sg) && t[0] !in visited
    requires Completion(g, t, ds, d, visited, len + 1, sg, eg)
    ensures Completion(g, [cur] + t, [d] + ds, dir, visited, len, sg, eg)
  {
    var t', ds' := [cur] + t, [d] + ds;
    forall n | 0 <= n < |ds'|
      ensures Link(g, t', ds', n, visited, sg) && ds'[n] != Prev(ds', dir, n)
    {
      if n > 0 {
        assert Link(g, t, ds, n - 1, visited, sg);
        assert ds[n - 1] != Prev(ds, d, n - 1);
      }
    }
    forall a, b | 0 <= a < b < |t'|
      ensures t'[a] != t'[b]
    {
      if a == 0 {
        if b > 1 {
          assert Link(g, t, ds, b - 2, visited, sg);
        }
      }
    }
    assert forall n | 0 <= n < |t'| - 1 :: t'[n] == if n == 0 then cur else t[n - 1];
  }

  lemma CompletionTail(g: Grid, t: seq<Coord>, ds: seq<int>, dir: int,
                       visited: set<Coord>, len: int, sg: seq<Coord>, eg: seq<Coord>)
    requires Completion(g, t, ds, dir, visited, len, sg, eg) && !InGoal(t[0], eg)
    ensures |t| >= 2 && Link(g, t, ds, 0, visited, sg) && ds[0] != dir
    ensures Completion(g, t[1..], ds[1..], ds[0], visited + {t[0]}, len + 1, sg, eg)
  {
    assert Link(g, t, ds, 0, visited, sg);
    var t', ds', v' := t[1..], ds[1..], visited + {t[0]};
    forall n | 0 <= n < |ds'|
      ensures Link(g, t', ds', n, v', sg) && ds'[n] != Prev(ds', ds[0], n)
    {
      assert Link(g, t, ds, n + 1, visited, sg);
      assert ds[n + 1] != Prev(ds, dir, n + 1);
      assert t[0] != t[n + 2];
    }
    forall n | 0 <= n < |t'| - 1
      ensures !InGoal(t'[n], eg)
    {
      assert t'[n] == t[n + 1];
    }
    forall a, b | 0 <= a < b < |t'|
      ensures t'[a] != t'[b]
    {
      assert t[a + 1] != t[b + 1];
    }
  }

  /** Squares of the start goal are never entered after the first chip, so
      marking them visited changes nothing. */
  lemma CompletionVisitedStart(g: Grid, t: seq<Coord>, ds: seq<int>, dir: int,
                               visited: set<Coord>, len: int, sg: seq<Coord>, eg: seq<Coord>)
    requires forall c | c in visited :: InGoal(c, sg)
    ensures Completion(g, t, ds, dir, visited, len, sg, eg) <==> Completion(g, t, ds, dir, {}, len, sg, eg)
  {
    if Completion(g, t, ds, dir, {}, len, sg, eg) {
      forall n | 0 <= n < |ds|
        ensures Link(g, t, ds, n, visited, sg)
      {
        assert Link(g, t, ds, n, {}, sg);
      }
    }
    if Completion(g, t, ds, dir, visited, len, sg, eg) {
      forall n | 0 <= n < |ds|
        ensures Link(g, t, ds, n, {}, sg)
      {
        assert Link(g, t, ds, n, visited, sg);
      }
    }
  }

  lemma CompletionShrink(g: Grid, t: seq<Coord>, ds: seq<int>, dir: int,
                         visited: set<Coord>, small: set<Coord>, len: int, sg: seq<Coord>, eg: seq<Coord>)
    requires small <= visited && Completion(g, t, ds, dir, visited, len, sg, eg)
    ensures Completion(g, t, ds, dir, small, len, sg, eg)
  {
    forall n | 0 <= n < |ds|
      ensures Link(g, t, ds, n, small, sg)
    {
      assert Link(g, t, ds, n, visited, sg);
    }
  }

  // ---------------------------------------------------------------------
  // The search is sound ...

  lemma {:induction false} GetNetworkSound(g: Grid, cur: Coord, dir: int, visited: set<Coord>, len: int,
                                           sg: seq<Coord>, eg: seq<Coord>) returns (t: seq<Coord>, ds: seq<int>)
    requires GetNetwork(g, cur, dir, visited, len, sg, eg)
    ensures |t| >= 1 && t[0] == cur && Completion(g, t, ds, dir, visited, len, sg, eg)
    decreases AllSquares() - (visited + {cur}), 1, 0
  {
    if InGoal(cur, eg) {
      t, ds := [cur], [];
      CompletionEnd(g, cur, dir, visited, len, sg, eg);
    } else {
      t, ds := ScanSound(g, cur, dir, visited + {cur}, len, sg, eg, 0);
      CompletionShrink(g, t, ds, dir, visited + {cur}, visited, len, sg, eg);
    }
  }

  lemma {:induction false} ScanSound(g: Grid, cur: Coord, dir: int, visited: set<Coord>, len: int,
                                     sg: seq<Coord>, eg: seq<Coord>, i: int) returns (t: seq<Coord>, ds: seq<int>)
    requires cur in visited && !InGoal(cur, eg)
    requires Scan(g, cur, dir, visited, len, sg, eg, i)
    ensures |t| >= 1 && t[0] == cur && Completion(g, t, ds, dir, visited, len, sg, eg)
    decreases AllSquares() - visited, 0, 8 - i
  {
    match Conn(g, cur, i)
    case None =>
      t, ds := ScanSound(g, cur, dir, visited, len, sg, eg, i + 1);
    case Some(next) =>
      if InGoal(next, sg) || i == dir || next in visited || !GetNetwork(g, next, i, visited, len + 1, sg, eg) {
        t, ds := ScanSound(g, cur, dir, visited, len, sg, eg, i + 1);
      } else {
        ConnShape(g, cur, i);
        assert next in AllSquares();
        var t', ds' := GetNetworkSound(g, next, i, visited, len + 1, sg, eg);
        CompletionCons(g, cur, i, t', ds', dir, visited, len, sg, eg);
        t, ds := [cur] + t', [i] + ds';
      }
  }

  // ... and complete

  lemma {:induction false} ScanReaches(g: Grid, cur: Coord, dir: int, visited: set<Coord>, len: int,
                                       sg: seq<Coord>, eg: seq<Coord>, i: int, d: int)
    requires 0 <= i <= d < 8 && Conn(g, cur, d).Some?
    requires !InGoal(Conn(g, cur, d).value, sg) && d != dir && Conn(g, cur, d).value !in visited
    requires GetNetwork(g, Conn(g, cur, d).value, d, visited, len + 1, sg, eg)
    ensures Scan(g, cur, dir, visited, len, sg, eg, i)
    decreases d - i
  {
    if i < d {
      ScanReaches(g, cur, dir, visited, len, sg, eg, i + 1, d);
    }
  }

  lemma {:induction false} GetNetworkComplete(g: Grid, t: seq<Coord>, ds: seq<int>, dir: int, visited: set<Coord>,
                                              len: int, sg: seq<Coord>, eg: seq<Coord>)
    requires Completion(g, t, ds, dir, visited, len, sg, eg)
    ensures GetNetwork(g, t[0], dir, visited, len, sg, eg)
    decreases |t|
  {
    if !InGoal(t[0], eg) {
      CompletionTail(g, t, ds, dir, visited, len, sg, eg);
      GetNetworkComplete(g, t[1..], ds[1..], ds[0], visited + {t[0]}, len + 1, sg, eg);
      ScanReaches(g, t[0], dir, visited + {t[0]}, len, sg, eg, 0, ds[0]);
    } else if |t| > 1 {
      assert false;
    }
  }

  /** getNetwork succeeds exactly when the network built so far has a completion. */
  lemma GetNetworkCorrect(g: Grid, cur: Coord, dir: int, visited: set<Coord>, len: int, sg: seq<Coord>, eg: seq<Coord>)
    ensures GetNetwork(g, cur, dir, visited, len, sg, eg) <==>
      exists t, ds :: |t| >= 1 && t[0] == cur && Completion(g, t, ds, dir, visited, len, sg, eg)
  {
    if GetNetwork(g, cur, dir, visited, len, sg, eg) {
      var t, ds := GetNetworkSound(g, cur, dir, visited, len, sg, eg);
    }
    if exists t, ds :: |t| >= 1 && t[0] == cur && Completion(g, t, ds, dir, visited, len, sg, eg) {
      var t, ds :| |t| >= 1 && t[0] == cur && Completion(g, t, ds, dir, visited, len, sg, eg);
      GetNetworkComplete(g, t, ds, dir, visited, len, sg, eg);
    }
  }

  // ---------------------------------------------------------------------
  // The loop over the start goal

  lemma {:induction false} TryStartsSound(g: Grid, sg: seq<Coord>, eg: seq<Coord>, k: nat, visited: set<Coord>)
    returns (j: int, t: seq<Coord>, ds: seq<int>)
    requires forall c | c in visited :: InGoal(c, sg)
    requires TryStarts(g, sg, eg, k, visited)
    ensures k <= j < |sg| && |t| >= 1 && t[0] == sg[j] && Completion(g, t, ds, -1, {}, 1, sg, eg)
    decreases |sg| - k
  {
    var v := visited + {sg[k]};
    if GetNetwork(g, sg[k], -1, v, 1, sg, eg) {
      j := k;
      t, ds := GetNetworkSound(g, sg[k], -1, v, 1, sg, eg);
      CompletionVisitedStart(g, t, ds, -1, v, 1, sg, eg);
    } else {
      j, t, ds := TryStartsSound(g, sg, eg, k + 1, v);
    }
  }

  lemma {:induction false} TryStartsComplete(g: Grid, sg: seq<Coord>, eg: seq<Coord>, k: nat, visited: set<Coord>,
                                             j: int, t: seq<Coord>, ds: seq<int>)
    requires forall c | c in visited :: InGoal(c, sg)
    requires k <= j < |sg| && |t| >= 1 && t[0] == sg[j] && Completion(g, t, ds, -1, {}, 1, sg, eg)
    ensures TryStarts(g, sg, eg, k, visited)
    decreases |sg| - k
  {
    var v := visited + {sg[k]};
    if j == k {
      CompletionVisitedStart(g, t, ds, -1, v, 1, sg, eg);
      GetNetworkComplete(g, t, ds, -1, v, 1, sg, eg);
    } else {
      TryStartsComplete(g, sg, eg, k + 1, v, j, t, ds);
    }
  }

  // ---------------------------------------------------------------------
  // hasValidNetwork decides whether a network exists

  /** Every chip of a chain of connections has the colour of its first chip. */
  lemma {:induction false} ChainColour(g: Grid, t: seq<Coord>, ds: seq<int>, n: int)
    requires |ds| == |t| - 1 && 0 <= n < |t| && OnBoard(t[0])
    requires forall m | 0 <= m < |ds| :: 0 <= ds[m] < 8 && Conn(g, t[m], ds[m]) == Some(t[m + 1])
    ensures OnBoard(t[n]) && At(g, t[n]) == At(g, t[0])
  {
    if n > 0 {
      ChainColour(g, t, ds, n - 1);
      assert Conn(g, t[n - 1], ds[n - 1]) == Some(t[n]);
      ConnShape(g, t[n - 1], ds[n - 1]);
    }
  }

  lemma NetworkFromCompletion(g: Grid, p: int, t: seq<Coord>, ds: seq<int>)
    requires |t| >= 1 && InGoal(t[0], GoalPieces(g, p, 0))
    requires Completion(g, t, ds, -1, {}, 1, GoalPieces(g, p, 0), GoalPieces(g, p, DIMENSION - 1))
    ensures IsNetwork(g, p, t, ds)
  {
    var sg, eg := GoalPieces(g, p, 0), GoalPieces(g, p, DIMENSION - 1);
    GoalPiecesMember(g, p, 0, t[0]);
    forall m | 0 <= m < |ds|
      ensures 0 <= ds[m] < 8 && Conn(g, t[m], ds[m]) == Some(t[m + 1])
    {
      assert Link(g, t, ds, m, {}, sg);
    }
    forall n | 0 <= n < |t|
      ensures OnBoard(t[n]) && At(g, t[n]) == p
      ensures n >= 1 ==> !InGoalArea(p, 0, t[n])
      ensures n < |t| - 1 ==> !InGoalArea(p, DIMENSION - 1, t[n])
      ensures n == |t| - 1 ==> InGoalArea(p, DIMENSION - 1, t[n])
    {
      ChainColour(g, t, ds, n);
      GoalPiecesMember(g, p, 0, t[n]);
      GoalPiecesMember(g, p, DIMENSION - 1, t[n]);
      if n >= 1 {
        assert Link(g, t, ds, n - 1, {}, sg);
      }
    }
    forall n | 1 <= n < |ds|
      ensures ds[n] != ds[n - 1]
    {
      assert ds[n] != Prev(ds, -1, n);
    }
  }

  lemma CompletionFromNetwork(g: Grid, p: int, t: seq<Coord>, ds: seq<int>)
    requires IsNetwork(g, p, t, ds)
    ensures InGoal(t[0], GoalPieces(g, p, 0))
    ensures Completion(g, t, ds, -1, {}, 1, GoalPieces(g, p, 0), GoalPieces(g, p, DIMENSION - 1))
  {
    var sg, eg := GoalPieces(g, p, 0), GoalPieces(g, p, DIMENSION - 1);
    GoalPiecesMember(g, p, 0, t[0]);
    GoalPiecesMember(g, p, DIMENSION - 1, t[|t| - 1]);
    forall n | 0 <= n < |ds|
      ensures Link(g, t, ds, n, {}, sg) && ds[n] != Prev(ds, -1, n)
    {
      GoalPiecesMember(g, p, 0, t[n + 1]);
    }
    forall n | 0 <= n < |t| - 1
      ensures !InGoal(t[n], eg)
    {
      GoalPiecesMember(g, p, DIMENSION - 1, t[n]);
    }
  }

  /** hasValidNetwork(p) holds exactly when p has a winning network on the board. */
  lemma HasValidNetworkCorrect(g: Grid, p: int)
    ensures HasValidNetwork(g, p) <==> exists t, ds :: IsNetwork(g, p, t, ds)
  {
    var sg, eg := GoalPieces(g, p, 0), GoalPieces(g, p, DIMENSION - 1);
    if HasValidNetwork(g, p) {
      var j, t, ds := TryStartsSound(g, sg, eg, 0, {});
      NetworkFromCompletion(g, p, t, ds);
    }
    if exists t, ds :: IsNetwork(g, p, t, ds) {
      var t, ds :| IsNetwork(g, p, t, ds);
      CompletionFromNetwork(g, p, t, ds);
      var j :| 0 <= j < |sg| && sg[j] == t[0];
      TryStartsComplete(g, sg, eg, 0, {}, j, t, ds);
    }
  }

  /** Only Black and White can have a network. */
  lemma NoNetworkForOthers(g: Grid, p: int)
    requires p != BLACK && p != WHITE
    ensures !HasValidNetwork(g, p)
  {
    HasValidNetworkCorrect(g, p);
  }
}
