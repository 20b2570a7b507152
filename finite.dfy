// Facts the termination and completeness arguments of the searches rest on: a move never brings a
// new cell value onto the board, so every board a search can meet lies in one finite set, and a set
// of boards closed under moves that omits the goal keeps the goal out of reach.

module Finite {
  import opened Board

  /** The cell values on b. */
  ghost function CellSet(b: Grid): set<Cell>
    requires WellFormed(b)
  {
    set x, y | 0 <= x < Width && 0 <= y < Height :: b[x][y]
  }

  ghost predicate CellsIn(b: Grid, S: set<Cell>)
    requires WellFormed(b)
  {
    forall x, y :: InBounds(x, y) ==> b[x][y] in S
  }

  /** Every column of n cells drawn from S. */
  ghost function Columns(S: set<Cell>, n: nat): set<seq<Cell>>
  {
    if n == 0 then {[]} else set c, t | c in S && t in Columns(S, n - 1) :: [c] + t
  }

  /** Every board of w columns of Height cells drawn from S. */
  ghost function Grids(S: set<Cell>, w: nat): set<Grid>
  {
    if w == 0 then {[]} else set col, rest | col in Columns(S, Height) && rest in Grids(S, w - 1) :: [col] + rest
  }

  lemma {:induction false} InColumns(col: seq<Cell>, S: set<Cell>)
    requires forall i :: 0 <= i < |col| ==> col[i] in S
    ensures col in Columns(S, |col|)
    decreases |col|
  {
    if col != [] {
      InColumns(col[1..], S);
      assert col == [col[0]] + col[1..];
    }
  }

  lemma {:induction false} InGrids(b: Grid, S: set<Cell>)
    requires forall x :: 0 <= x < |b| ==> |b[x]| == Height && forall y :: 0 <= y < Height ==> b[x][y] in S
    ensures b in Grids(S, |b|)
    decreases |b|
  {
    if b != [] {
      InColumns(b[0], S);
      InGrids(b[1..], S);
      assert b == [b[0]] + b[1..];
    }
  }

  /** Every board with its cells in S is one of the finitely many in Grids(S, Width). */
  lemma BoardInGrids(b: Grid, S: set<Cell>)
    requires WellFormed(b) && CellsIn(b, S)
    ensures b in Grids(S, Width)
  {
    InGrids(b, S);
  }

  lemma {:induction false} SubsetCard<T>(a: set<T>, b: set<T>)
    requires a <= b
    ensures |a| <= |b|
    decreases a
  {
    if a != {} {
      var x :| x in a;
      SubsetCard(a - {x}, b - {x});
    }
  }

  lemma CellSetCells(b: Grid)
    requires WellFormed(b)
    ensures CellsIn(b, CellSet(b))
  {
    forall x, y | InBounds(x, y)
      ensures b[x][y] in CellSet(b)
    {
      assert 0 <= x < Width && 0 <= y < Height;
    }
  }

  /** A move only trades two cells, so the board keeps the cell values it had. */
  lemma ApplyCellsIn(b: Grid, m: Move, S: set<Cell>)
    requires WellFormed(b) && BlankPosition(b).Some? && IsValidMove(b, m) && CellsIn(b, S)
    ensures CellsIn(Apply(b, m), S)
  {
    ApplyCells(b, m);
  }

  /** The board after a move still has a blank. */
  lemma ApplyHasBlank(b: Grid, m: Move)
    requires WellFormed(b) && BlankPosition(b).Some? && IsValidMove(b, m)
    ensures BlankPosition(Apply(b, m)).Some?
  {
    ApplyCells(b, m);
    var q := Neighbour(BlankPosition(b).value, m);
    assert Apply(b, m)[q.0][q.1] == Blank;
  }

  /** Every valid move from b leads to a board in seen. */
  ghost predicate Expanded(b: Grid, seen: set<Grid>)
    requires WellFormed(b) && BlankPosition(b).Some?
  {
    forall m :: IsValidMove(b, m) ==> Apply(b, m) in seen
  }

  /** seen holds only boards with a blank, each of them expanded into seen. */
  ghost predicate Closed(seen: set<Grid>)
  {
    forall c :: c in seen ==> WellFormed(c) && BlankPosition(c).Some? && Expanded(c, seen)
  }

  /** No list of moves leads out of a closed set, so a goal outside it is unreachable from inside. */
  lemma {:induction false} ClosedUnreachable(seen: set<Grid>, b: Grid, ms: seq<Move>, goal: Grid)
    requires Closed(seen) && b in seen && goal !in seen
    ensures Replay(b, ms) != Some(goal)
    decreases |ms|
  {
    if ms != [] && IsValidMove(b, ms[0]) {
      var c := Apply(b, ms[0]);
      assert c in seen;
      ClosedUnreachable(seen, c, ms[1..], goal);
    }
  }
}
