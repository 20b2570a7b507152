// The two solve buttons of the main loop without the drawing: wrap the live board in a root node,
// run a search, walk the parent links of the result back to the root and reverse the moves, then
// make those moves on the live board.

module Solve {
  import opened Board
  import opened BoardArray
  import opened SearchNode
  import opened Bfs
  import opened AStar

  /** The for loop that makes each move of a list on the live board with makeMove (also the shape
      of generateNewPuzzle's loop once its random choices are given). */
  method PlayMoves(mainBoard: array2<Cell>, solution: seq<Move>)
    requires WellFormed(Contents(mainBoard)) && BlankPosition(Contents(mainBoard)).Some?
    requires Replay(Contents(mainBoard), solution).Some?
    modifies mainBoard
    ensures Some(Contents(mainBoard)) == Replay(old(Contents(mainBoard)), solution)
  {
    ghost var start := Contents(mainBoard);
    assert solution[..0] == [];
    for i := 0 to |solution|
      invariant Replay(start, solution[..i]) == Some(Contents(mainBoard))
    {
      ReplayNext(start, solution, i, Contents(mainBoard));
      MakeMove(mainBoard, solution[i]);
    }
    assert solution[..|solution|] == solution;
  }

  /** The path of a search result that descends from a root node replays from the root's board to
      the result's board. */
  lemma PathFromRoot(r: State, init_state: State)
    requires Linked(r) && Descends(r, init_state) && init_state.parent_state == null
    requires WellFormed(init_state.matrix_state) && BlankPosition(init_state.matrix_state).Some?
    ensures Replay(init_state.matrix_state, PathMoves(r)) == Some(r.matrix_state)
  {
    DescendsRoot(r, init_state);
    PathReplays(r);
  }

  /** "Solve using BFS": the moves from the board to the solved board, or none when BFS runs out of
      nodes, in which case no move list solves the board. An already solved board needs no move. */
  method SolveBfs(mainBoard: array2<Cell>) returns (solution: seq<Move>)
    requires WellFormed(Contents(mainBoard)) && BlankPosition(Contents(mainBoard)).Some?
    ensures Replay(Contents(mainBoard), solution) == Some(Goal()) ||
      (solution == [] && forall ms :: Replay(Contents(mainBoard), ms) != Some(Goal()))
    ensures Contents(mainBoard) == Goal() ==> solution == []
  {
    var init_state := new State(mainBoard, null, None);
    var solution_state: State;
    ghost var order: seq<State>;
    solution_state, order := BFS(init_state);
    solution := Solution(solution_state);
    if solution_state.matrix_state == Goal() {
      PathFromRoot(solution_state, init_state);
      if init_state.matrix_state == Goal() {
        assert |order| == 1;
      }
    }
  }

  /** "Solve using A*": the same promise as SolveBfs. */
  method SolveAStar(mainBoard: array2<Cell>) returns (solution: seq<Move>)
    requires WellFormed(Contents(mainBoard)) && BlankPosition(Contents(mainBoard)).Some?
    ensures Replay(Contents(mainBoard), solution) == Some(Goal()) ||
      (solution == [] && forall ms :: Replay(Contents(mainBoard), ms) != Some(Goal()))
    ensures Contents(mainBoard) == Goal() ==> solution == []
  {
    var init_state := new State(mainBoard, null, None);
    var solution_state := AStar.AStar(init_state);
    solution := Solution(solution_state);
    if solution_state.matrix_state == Goal() {
      PathFromRoot(solution_state, init_state);
    }
  }

  /** A solve button end to end: search, then make the moves on the live board. Afterwards the board
      is solved, unless no move list could solve it, in which case it is left as it was. */
  method SolveAndPlay(mainBoard: array2<Cell>, useAStar: bool)
    requires WellFormed(Contents(mainBoard)) && BlankPosition(Contents(mainBoard)).Some?
    modifies mainBoard
    ensures Contents(mainBoard) == Goal() ||
      (Contents(mainBoard) == old(Contents(mainBoard)) &&
       forall ms :: Replay(old(Contents(mainBoard)), ms) != Some(Goal()))
  {
    var solution;
    if useAStar {
      solution := SolveAStar(mainBoard);
    } else {
      solution := SolveBfs(mainBoard);
    }
    if Replay(Contents(mainBoard), solution) != Some(Goal()) {
      assert Replay(Contents(mainBoard), []) == Some(Contents(mainBoard));
    }
    PlayMoves(mainBoard, solution);
  }
}
