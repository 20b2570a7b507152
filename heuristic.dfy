// The Manhattan-distance heuristic h used by the A* search. It is hard-coded for tiles 1..8 on
// the 3 x 3 board: each of those tiles has a fixed home cell, every other cell value adds nothing.

module Manhattan {
  import opened Board
  import opened BoardArray

  function Abs(v: int): nat
  {
    if v < 0 then -v else v
  }

  /** The home cell h charges tile k against (its eight branches). */
  function Home(k: int): (int, int)
    requires 1 <= k <= 8
  {
    if k == 1 then (0, 0)
    else if k == 2 then (1, 0)
    else if k == 3 then (2, 0)
    else if k == 4 then (0, 1)
    else if k == 5 then (1, 1)
    else if k == 6 then (2, 1)
    else if k == 7 then (0, 2)
    else (1, 2)
  }

  /** What cell (i, j) holding c adds to the distance. */
  function TileDistance(c: Cell, i: int, j: int): nat
  {
    if c.Tile? && 1 <= c.n <= 8 then Abs(Home(c.n).0 - i) + Abs(Home(c.n).1 - j) else 0
  }

  /** The distances of the first n cells of column i. */
  function ColumnSum(col: seq<Cell>, i: int, n: nat): nat
    requires n <= |col|
  {
    if n == 0 then 0 else ColumnSum(col, i, n - 1) + TileDistance(col[n - 1], i, n - 1)
  }

  /** The distances of the first n columns. */
  function BoardSum(b: Grid, n: nat): nat
    requires n <= |b|
  {
    if n == 0 then 0 else BoardSum(b, n - 1) + ColumnSum(b[n - 1], n - 1, |b[n - 1]|)
  }

  /** h as a value: the sum over all cells. */
  function Heuristic(b: Grid): nat
  {
    BoardSum(b, |b|)
  }

  /** h: a double loop over the columns and rows of the board, accumulating distance. */
  method H(matrix_state: Grid) returns (distance: nat)
    requires Rectangular(matrix_state)
    ensures distance == Heuristic(matrix_state)
  {
    distance := 0;
    for i := 0 to |matrix_state|
      invariant distance == BoardSum(matrix_state, i)
    {
      for j := 0 to |matrix_state[0]|
        invariant distance == BoardSum(matrix_state, i) + ColumnSum(matrix_state[i], i, j)
      {
        var cell := matrix_state[i][j];
        if cell.Tile? && 1 <= cell.n <= 8 {
          var home := Home(cell.n);
          var x_distance := home.0 - i;
          var y_distance := home.1 - j;
          if x_distance < 0 {
            x_distance := x_distance * -1;
          }
          if y_distance < 0 {
            y_distance := y_distance * -1;
          }
          distance := distance + x_distance + y_distance;
        }
      }
    }
  }

  /** The hard-coded home cells are where getStartingBoard puts each tile. */
  lemma HomeIsGoalCell(k: int)
    requires 1 <= k <= 8
    ensures Home(k) == ((k - 1) % Width, (k - 1) / Width)
    ensures InBounds(Home(k).0, Home(k).1) && Goal()[Home(k).0][Home(k).1] == Tile(k)
  {
  }

  /** A tile at distance 0 sits in the cell the solved board gives it, which is not the last one. */
  lemma AtHome(c: Cell, x: int, y: int)
    requires InBounds(x, y) && c != Blank && 1 <= c.n <= 8 && TileDistance(c, x, y) == 0
    ensures c == GoalCell(x, y) && (x, y) != (Width - 1, Height - 1)
  {
  }

  lemma {:induction false} ColumnSumZero(col: seq<Cell>, i: int, n: nat)
    requires n <= |col|
    ensures ColumnSum(col, i, n) == 0 <==> forall j :: 0 <= j < n ==> TileDistance(col[j], i, j) == 0
  {
    if n > 0 {
      ColumnSumZero(col, i, n - 1);
    }
  }

  lemma {:induction false} BoardSumZero(b: Grid, n: nat)
    requires n <= |b|
    ensures BoardSum(b, n) == 0 <==>
      forall x :: 0 <= x < n ==> forall y :: 0 <= y < |b[x]| ==> TileDistance(b[x][y], x, y) == 0
  {
    if n > 0 {
      BoardSumZero(b, n - 1);
      ColumnSumZero(b[n - 1], n - 1, |b[n - 1]|);
    }
  }

  /** h is zero exactly when every tile 1..8 is in its home cell. */
  lemma HeuristicZeroIff(b: Grid)
    requires WellFormed(b)
    ensures Heuristic(b) == 0 <==> forall x, y :: InBounds(x, y) ==> TileDistance(b[x][y], x, y) == 0
  {
    BoardSumZero(b, |b|);
  }

  /** h of the solved board is 0. */
  lemma HeuristicGoal()
    ensures Heuristic(Goal()) == 0
  {
    var g := Goal();
    forall x, y | InBounds(x, y) ensures TileDistance(g[x][y], x, y) == 0 {
      if g[x][y] != Blank {
        assert g[x][y] == Tile(x + 1 + Width * y);
      }
    }
    HeuristicZeroIff(g);
  }

  /** On a board holding tiles 1..8 once each and one blank, h is 0 exactly on the solved board. */
  lemma HeuristicZeroIsGoal(b: Grid)
    requires IsPermutationBoard(b)
    ensures Heuristic(b) == 0 <==> b == Goal()
  {
    if Heuristic(b) == 0 {
      HeuristicZeroIff(b);
      var g := Goal();
      assert b[Width - 1][Height - 1] == Blank by {
        if b[Width - 1][Height - 1] != Blank {
          AtHome(b[Width - 1][Height - 1], Width - 1, Height - 1);
        }
      }
      forall x, y | InBounds(x, y) ensures b[x][y] == g[x][y] {
        if b[x][y] == Blank {
          assert x == Width - 1 && y == Height - 1;
        } else {
          AtHome(b[x][y], x, y);
        }
      }
      GridExtensionality(b, g);
    } else {
      HeuristicGoal();
    }
  }

  /** Writing c into cell (x, y) changes the sum by exactly the difference of the two cells' terms. */
  lemma {:induction false} ColumnSumSet(col: seq<Cell>, i: int, n: nat, y: nat, c: Cell)
    requires n <= |col| && y < |col|
    ensures ColumnSum(col[y := c], i, n) + (if y < n then TileDistance(col[y], i, y) else 0)
         == ColumnSum(col, i, n) + (if y < n then TileDistance(c, i, y) else 0)
  {
    if n > 0 {
      ColumnSumSet(col, i, n - 1, y, c);
    }
  }

  lemma {:induction false} BoardSumSet(b: Grid, n: nat, x: nat, y: nat, c: Cell)
    requires n <= |b| && x < |b| && y < |b[x]|
    ensures BoardSum(b[x := b[x][y := c]], n) + (if x < n then TileDistance(b[x][y], x, y) else 0)
         == BoardSum(b, n) + (if x < n then TileDistance(c, x, y) else 0)
  {
    if n > 0 {
      BoardSumSet(b, n - 1, x, y, c);
      if x == n - 1 {
        ColumnSumSet(b[x], x, |b[x]|, y, c);
      }
    }
  }

  lemma HeuristicSetCell(b: Grid, x: nat, y: nat, c: Cell)
    requires WellFormed(b) && InBounds(x, y)
    ensures Heuristic(SetCell(b, x, y, c)) + TileDistance(b[x][y], x, y)
         == Heuristic(b) + TileDistance(c, x, y)
  {
    BoardSumSet(b, |b|, x, y, c);
  }

  /** Moving a tile by one cell changes its distance by at most one. */
  lemma StepDistance(c: Cell, p: (int, int), q: (int, int))
    requires Abs(p.0 - q.0) + Abs(p.1 - q.1) == 1
    ensures TileDistance(c, p.0, p.1) <= TileDistance(c, q.0, q.1) + 1
    ensures TileDistance(c, q.0, q.1) <= TileDistance(c, p.0, p.1) + 1
  {
  }

  /** Consistency: one valid move changes h by at most one. */
  lemma HeuristicConsistent(b: Grid, m: Move)
    requires WellFormed(b) && BlankPosition(b).Some? && IsValidMove(b, m)
    ensures Heuristic(Apply(b, m)) <= Heuristic(b) + 1
    ensures Heuristic(b) <= Heuristic(Apply(b, m)) + 1
  {
    var p := BlankPosition(b).value;
    var qi := Neighbour(p, m);
    ApplyCells(b, m);
    var q: (nat, nat) := (qi.0 as nat, qi.1 as nat);
    var t := b[q.0][q.1];
    var b1 := SetCell(b, p.0, p.1, t);
    HeuristicSetCell(b, p.0, p.1, t);
    assert b1[q.0][q.1] == t;
    HeuristicSetCell(b1, q.0, q.1, Blank);
    assert Apply(b, m) == SetCell(b1, q.0, q.1, Blank);
    StepDistance(t, (p.0, p.1), (q.0, q.1));
  }

  /** Admissibility: h never exceeds the length of a move list that solves the board. */
  lemma {:induction false} HeuristicAdmissible(b: Grid, ms: seq<Move>)
    requires WellFormed(b) && BlankPosition(b).Some? && Replay(b, ms) == Some(Goal())
    ensures Heuristic(b) <= |ms|
    decreases |ms|
  {
    if ms == [] {
      HeuristicGoal();
    } else {
      ReplayHead(b, ms);
      HeuristicConsistent(b, ms[0]);
      HeuristicAdmissible(Apply(b, ms[0]), ms[1..]);
    }
  }
}
