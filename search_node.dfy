// Search nodes (class State), successor generation and the parent-walk path reconstruction.

module SearchNode {
  import opened Board
  import opened BoardArray

  /** A search node: its board, the node it was expanded from, the move that produced it, and the
      A* costs g and f. Only g and f are ever reassigned. */
  class State {
    /** The board the node was made with; no code writes a node's board during a search. */
    const matrix_state: Grid
    const parent_state: State?
    const move: Option<Move>
    var g: int
    var f: int

    /** The number of parent links up to the root. */
    ghost const depth: nat

    constructor (matrix_state: array2<Cell>, parent_state: State?, move: Option<Move>)
      ensures this.matrix_state == Contents(matrix_state)
      ensures this.parent_state == parent_state && this.move == move
      ensures g == 0 && f == 0
      ensures depth == if parent_state == null then 0 else parent_state.depth + 1
    {
      this.matrix_state := Contents(matrix_state);
      this.parent_state := parent_state;
      this.move := move;
      g, f := 0, 0;
      depth := if parent_state == null then 0 else parent_state.depth + 1;
    }
  }

  /** State([], None, None): what both searches return when they run out of nodes. */
  method NoSolution() returns (s: State)
    ensures fresh(s) && s.matrix_state == [] && s.parent_state == null && s.move == None && Linked(s)
  {
    var empty := new Cell[0, 0];
    s := new State(empty, null, None);
  }

  /** The parent chain of s ends at a root, and each link is a valid move from the parent's board. */
  ghost predicate Linked(s: State)
    decreases s.depth
  {
    if s.parent_state == null then
      s.depth == 0 && s.move == None
    else
      var p := s.parent_state;
      p.depth + 1 == s.depth && s.move.Some? &&
      WellFormed(p.matrix_state) && BlankPosition(p.matrix_state).Some? &&
      IsValidMove(p.matrix_state, s.move.value) &&
      s.matrix_state == Apply(p.matrix_state, s.move.value) &&
      Linked(p)
  }

  /** The node at the top of the parent chain. */
  ghost function Root(s: State): (r: State)
    requires Linked(s)
    ensures r.parent_state == null && Linked(r)
    decreases s.depth
  {
    if s.parent_state == null then s else Root(s.parent_state)
  }

  /** The moves along the parent chain, from the root down to s. */
  ghost function PathMoves(s: State): (r: seq<Move>)
    requires Linked(s)
    ensures |r| == s.depth
    decreases s.depth
  {
    if s.parent_state == null then [] else PathMoves(s.parent_state) + [s.move.value]
  }

  /** a lies on the parent chain of s. */
  ghost predicate Descends(s: State, a: State)
    requires Linked(s)
    decreases s.depth
  {
    s == a || (s.parent_state != null && Descends(s.parent_state, a))
  }

  lemma {:induction false} DescendsRoot(s: State, a: State)
    requires Linked(s) && Descends(s, a)
    ensures Linked(a) && Root(s) == Root(a)
    decreases s.depth
  {
    if s != a {
      DescendsRoot(s.parent_state, a);
    }
  }

  /** Replaying the path's moves from the root's board gives the node's board. */
  lemma {:induction false} PathReplays(s: State)
    requires Linked(s) && WellFormed(Root(s).matrix_state) && BlankPosition(Root(s).matrix_state).Some?
    ensures WellFormed(s.matrix_state) && BlankPosition(s.matrix_state).Some?
    ensures Replay(Root(s).matrix_state, PathMoves(s)) == Some(s.matrix_state)
    decreases s.depth
  {
    if s.parent_state != null {
      var p := s.parent_state;
      var m := s.move.value;
      PathReplays(p);
      ReplayAppend(Root(s).matrix_state, PathMoves(p), [m]);
      ApplyCells(p.matrix_state, m);
      var q := Neighbour(BlankPosition(p.matrix_state).value, m);
      assert s.matrix_state[q.0][q.1] == Blank;
      assert Replay(s.matrix_state, []) == Some(s.matrix_state);
    }
  }

  /** The moves successor tries, in its fixed order LEFT, RIGHT, UP, DOWN, keeping the valid ones. */
  function ValidMoves(b: Grid): (r: seq<Move>)
    requires WellFormed(b) && BlankPosition(b).Some?
  {
    KeepValid(b, KeepValid(b, KeepValid(b, KeepValid(b, [], Left), Right), Up), Down)
  }

  /** ms, followed by m when m is valid on b. */
  function KeepValid(b: Grid, ms: seq<Move>, m: Move): seq<Move>
    requires WellFormed(b) && BlankPosition(b).Some?
  {
    if IsValidMove(b, m) then ms + [m] else ms
  }

  /** Exactly the valid moves, each once. */
  lemma ValidMovesExact(b: Grid)
    requires WellFormed(b) && BlankPosition(b).Some?
    ensures forall m :: m in ValidMoves(b) <==> IsValidMove(b, m)
    ensures forall i, j :: 0 <= i < j < |ValidMoves(b)| ==> ValidMoves(b)[i] != ValidMoves(b)[j]
  {
  }

  /** 2 successors in a corner, 3 on an edge and 4 in the interior. */
  lemma ValidMovesCount(b: Grid)
    requires WellFormed(b) && BlankPosition(b).Some?
    ensures var p := BlankPosition(b).value;
      |ValidMoves(b)| ==
        (if p.0 == 0 || p.0 == Width - 1 then 1 else 2) + (if p.1 == 0 || p.1 == Height - 1 then 1 else 2)
  {
  }

  /** c is the node successor makes from parent with move m. */
  ghost predicate Child(c: State, parent: State, m: Move)
    requires WellFormed(parent.matrix_state) && BlankPosition(parent.matrix_state).Some?
  {
    IsValidMove(parent.matrix_state, m) &&
    c.parent_state == parent && c.move == Some(m) && c.matrix_state == Apply(parent.matrix_state, m) &&
    c.depth == parent.depth + 1
  }

  lemma ChildLinked(c: State, parent: State, m: Move)
    requires WellFormed(parent.matrix_state) && BlankPosition(parent.matrix_state).Some? && Linked(parent)
    requires Child(c, parent, m)
    ensures Linked(c)
  {
  }

  /** result[i] is the child for moves[i], and the children are distinct nodes. */
  ghost predicate Children(result: seq<State>, parent: State, moves: seq<Move>)
    requires WellFormed(parent.matrix_state) && BlankPosition(parent.matrix_state).Some?
  {
    |result| == |moves| &&
    (forall i :: 0 <= i < |result| ==> Child(result[i], parent, moves[i])) &&
    (forall i, j :: 0 <= i < j < |result| ==> result[i] != result[j])
  }

  lemma ChildrenSnoc(result: seq<State>, parent: State, moves: seq<Move>, c: State, m: Move)
    requires WellFormed(parent.matrix_state) && BlankPosition(parent.matrix_state).Some?
    requires Children(result, parent, moves) && Child(c, parent, m) && c !in result
    ensures Children(result + [c], parent, moves + [m])
  {
  }

  /** One block of successor: copy the parent's board, make the move on the copy, wrap it in a node. */
  method ExpandMove(init_state: State, m: Move) returns (temp_state: State)
    requires WellFormed(init_state.matrix_state) && BlankPosition(init_state.matrix_state).Some?
    requires IsValidMove(init_state.matrix_state, m)
    ensures Child(temp_state, init_state, m)
    ensures fresh(temp_state) && temp_state.g == 0 && temp_state.f == 0
  {
    var temp_matrix := CopyMatrix(init_state.matrix_state);
    MakeMove(temp_matrix, m);
    temp_state := new State(temp_matrix, init_state, Some(m));
  }

  /** One of successor's four blocks: when m is valid on the parent's board, expand it and append
      the child to result. */
  method AddChild(init_state: State, result: seq<State>, m: Move, ghost moves: seq<Move>) returns (r: seq<State>)
    requires WellFormed(init_state.matrix_state) && BlankPosition(init_state.matrix_state).Some?
    requires Children(result, init_state, moves)
    requires forall i :: 0 <= i < |result| ==> result[i].g == 0 && result[i].f == 0
    ensures Children(r, init_state, KeepValid(init_state.matrix_state, moves, m))
    ensures forall i :: 0 <= i < |r| ==> r[i].g == 0 && r[i].f == 0
    ensures forall i :: 0 <= i < |r| ==> r[i] in result || fresh(r[i])
  {
    r := result;
    if IsValidMove(init_state.matrix_state, m) {
      var temp_state := ExpandMove(init_state, m);
      ChildrenSnoc(result, init_state, moves, temp_state, m);
      r := result + [temp_state];
    }
  }

  /** successor: one fresh child per valid move, LEFT, RIGHT, UP, DOWN, with g = f = 0; each child
      gets its own copy of the parent's board, so the parent is left as it was. */
  method Successor(init_state: State) returns (result: seq<State>)
    requires WellFormed(init_state.matrix_state) && BlankPosition(init_state.matrix_state).Some?
    ensures Children(result, init_state, ValidMoves(init_state.matrix_state))
    ensures forall i :: 0 <= i < |result| ==> fresh(result[i]) && result[i].g == 0 && result[i].f == 0
  {
    var b := init_state.matrix_state;
    result := [];
    result := AddChild(init_state, result, Left, []);
    assert forall i :: 0 <= i < |result| ==> fresh(result[i]);
    result := AddChild(init_state, result, Right, KeepValid(b, [], Left));
    assert forall i :: 0 <= i < |result| ==> fresh(result[i]);
    result := AddChild(init_state, result, Up, KeepValid(b, KeepValid(b, [], Left), Right));
    assert forall i :: 0 <= i < |result| ==> fresh(result[i]);
    result := AddChild(init_state, result, Down, KeepValid(b, KeepValid(b, KeepValid(b, [], Left), Right), Up));
  }

  lemma PathStep(s: State, solution: seq<Move>)
    requires Linked(s) && s.parent_state != null
    ensures Linked(s.parent_state)
    ensures PathMoves(s) + Reverse(solution) == PathMoves(s.parent_state) + ([s.move.value] + Reverse(solution))
  {
  }

  /** The parent walk after a search: collect each node's move up to the root, then reverse. */
  method Solution(solution_state: State) returns (solution: seq<Move>)
    requires Linked(solution_state)
    ensures solution == PathMoves(solution_state)
  {
    solution := [];
    var s: State := solution_state;
    while s.parent_state != null
      invariant Linked(s)
      invariant PathMoves(solution_state) == PathMoves(s) + Reverse(solution)
      decreases s.depth
    {
      ReverseSnoc(solution, s.move.value);
      PathStep(s, solution);
      solution := solution + [s.move.value];
      s := s.parent_state;
    }
    solution := Reverse(solution);
  }
}
